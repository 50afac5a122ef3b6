/** The HTTP/2 coalescing table of src/h2_coalescing.rs. */
module Coalescing {
  import opened Common
  import opened Lru
  import opened Text
  import opened Decimal
  import CertCache

  type ProviderFamily = CertCache.ProviderFamily

  datatype SessionContext = SessionContext(sessionId: U64, family: ProviderFamily, authorities: set<string>,
    lastSeenMs: U64)

  datatype CoalescingError =
    | ProviderMismatch(sessionProvider: ProviderFamily, requestedProvider: ProviderFamily)
    | EmptyAuthority

  type Table = map<U64, SessionContext>

  // ----- authorities -----

  /** The host of an authority: trimmed, in lower case, without its port. */
  function NormalizeAuthority(authority: string): Result<string, CoalescingError> {
    HostOf(AsciiLower(Trim(authority)))
  }

  function HostOf(value: string): Result<string, CoalescingError> {
    if value == [] then Err(EmptyAuthority)
    else if value[0] == '[' then
      match IndexOf(value, ']')
      case None => Err(EmptyAuthority)
      case Some(close) =>
        var host := value[..close + 1];
        var rest := value[close + 1..];
        if rest != [] && !(rest[0] == ':' && ParseU16(rest[1..]).Some?) then Err(EmptyAuthority)
        else if |host| <= 2 then Err(EmptyAuthority)
        else Ok(host)
    else
      match LastIndexOf(value, ':')
      case None => Ok(value)
      case Some(colon) =>
        if ParseU16(value[colon + 1..]).None? then Err(EmptyAuthority)
        else if colon == 0 then Err(EmptyAuthority)
        else Ok(value[..colon])
  }

  /** A port as it follows a host. The text may be any that parses, `+443` and `0443` included. */
  function PortSuffix(port: string): string { [':'] + port }

  lemma {:induction false} PortText(port: string)
    requires ParseU16(port).Some?
    ensures port != [] && ':' !in port && AsciiLower(port) == port && !IsWhitespace(port[|port| - 1])
  {
    assert forall i :: 1 <= i < |port| ==> IsDigit(port[i]);
    if port[0] == '+' { assert port[1..] != []; }
  }

  lemma {:induction false} PortSuffixFacts(port: string)
    requires ParseU16(port).Some?
    ensures AsciiLower(PortSuffix(port)) == PortSuffix(port)
    ensures !IsWhitespace(PortSuffix(port)[|PortSuffix(port)| - 1])
    ensures PortSuffix(port)[0] == ':' && PortSuffix(port)[1..] == port
  {
    PortText(port);
    LowerAppend([':'], port);
  }

  lemma {:induction false} TrimmedWithPort(host: string, port: string)
    requires Trimmed(host) && ParseU16(port).Some?
    ensures Trimmed(host + PortSuffix(port))
  {
    PortText(port);
    assert !IsWhitespace(':');
  }

  /** Trimming and lowering act on a host alone, not on the port after it. */
  lemma {:induction false} ValueWithPort(host: string, port: string)
    requires Trimmed(host) && ParseU16(port).Some?
    ensures AsciiLower(Trim(host)) == AsciiLower(host)
    ensures AsciiLower(Trim(host + PortSuffix(port))) == AsciiLower(host) + PortSuffix(port)
  {
    TrimmedWithPort(host, port);
    PortSuffixFacts(port);
    TrimResult(host);
    TrimResult(host + PortSuffix(port));
    LowerAppend(host, PortSuffix(port));
  }

  lemma {:induction false} LastColon(value: string, port: string)
    requires ParseU16(port).Some?
    ensures LastIndexOf(value + PortSuffix(port), ':') == Some(|value|)
  {
    PortText(port);
    var whole := value + PortSuffix(port);
    forall k | |value| < k < |whole| ensures whole[k] != ':' {
      assert whole[k] == port[k - |value| - 1];
    }
    LastIndexIs(whole, ':', |value|);
  }

  lemma {:induction false} HostWithPort(value: string, port: string)
    requires ParseU16(port).Some? && (value == [] || value[0] != '[')
    ensures HostOf(value + PortSuffix(port)) == if value == [] then Err(EmptyAuthority) else Ok(value)
  {
    LastColon(value, port);
    var whole := value + PortSuffix(port);
    assert whole[|value| + 1..] == port;
    assert whole[..|value|] == value;
    assert whole[0] == if value == [] then ':' else value[0];
  }

  /** What may follow a bracket: a colon and a port. */
  predicate PortFollows(rest: string) { rest != [] && rest[0] == ':' && ParseU16(rest[1..]).Some? }

  /** Outside brackets there is no colon; a bracketed host is none, or is empty, or has no port yet. */
  predicate IgnoresPort(host: string) {
    if host == [] || host[0] != '[' then ':' !in host
    else match IndexOf(host, ']')
      case None => true
      case Some(close) => close == 1 || !PortFollows(host[close + 1..])
  }

  lemma {:induction false} NoPortTwice(rest: string, port: string)
    requires rest != [] && ParseU16(port).Some?
    ensures !PortFollows(rest + PortSuffix(port))
  {
    var text := (rest + PortSuffix(port))[1..];
    assert text[|rest| - 1] == ':' && ':' in text;
    if ParseU16(text).Some? { PortText(text); }
  }

  lemma {:induction false} HostInBrackets(value: string, close: nat)
    requires value != [] && value[0] == '[' && IndexOf(value, ']') == Some(close)
    ensures HostOf(value) ==
            if close > 1 && (value[close + 1..] == [] || PortFollows(value[close + 1..])) then Ok(value[..close + 1])
            else Err(EmptyAuthority)
  {}

  lemma {:induction false} BracketWithPort(value: string, port: string)
    requires value != [] && value[0] == '[' && ParseU16(port).Some?
    ensures HostOf(value + PortSuffix(port)) == HostOf(value) <==> IgnoresPort(value)
  {
    PortHasNoBracket(port);
    match IndexOf(value, ']')
    case None => NoBracketInEither(value, PortSuffix(port));
    case Some(close) => ClosedWithPort(value, port, close);
  }

  lemma {:induction false} NoBracketInEither(value: string, suffix: string)
    requires value != [] && value[0] == '[' && ']' !in value && ']' !in suffix
    ensures HostOf(value + suffix) == HostOf(value) == Err(EmptyAuthority)
  {
    assert ']' !in value + suffix;
  }

  lemma {:induction false} ClosedWithPort(value: string, port: string, close: nat)
    requires value != [] && value[0] == '[' && IndexOf(value, ']') == Some(close) && ParseU16(port).Some?
    ensures HostOf(value + PortSuffix(port)) == HostOf(value) <==> close == 1 || !PortFollows(value[close + 1..])
  {
    var whole, rest := value + PortSuffix(port), value[close + 1..];
    IndexIs(whole, ']', close);
    BracketParts(value, PortSuffix(port), close);
    HostInBrackets(value, close);
    HostInBrackets(whole, close);
    PortSuffixFacts(port);
    if rest == [] { assert rest + PortSuffix(port) == PortSuffix(port); } else { NoPortTwice(rest, port); }
  }

  lemma {:induction false} BracketParts(value: string, suffix: string, close: nat)
    requires close < |value|
    ensures (value + suffix)[..close + 1] == value[..close + 1]
    ensures (value + suffix)[close + 1..] == value[close + 1..] + suffix
  {}

  lemma {:induction false} PortHasNoBracket(port: string)
    requires ParseU16(port).Some?
    ensures ']' !in PortSuffix(port)
  {
    assert forall i :: 1 <= i < |port| ==> IsDigit(port[i]);
    assert IsDigit(port[0]) || port[0] == '+';
  }

  lemma {:induction false} LowerParses(s: string)
    ensures ParseU16(AsciiLower(s)).Some? <==> ParseU16(s).Some?
  {
    if ParseU16(s).Some? { PortText(s); }
    if ParseU16(AsciiLower(s)).Some? {
      forall i | 0 <= i < |s| ensures s[i] == AsciiLower(s)[i] {
        LowerIsDigit(AsciiLower(s), i);
      }
      assert s == AsciiLower(s);
    }
  }

  lemma {:induction false} LowerIsDigit(port: string, i: nat)
    requires ParseU16(port).Some? && i < |port|
    ensures IsDigit(port[i]) || port[i] == '+'
  {
    if i > 0 && port[0] == '+' { assert port[i] == port[1..][i - 1]; }
  }

  lemma {:induction false} LowerIgnoresPort(host: string)
    ensures IgnoresPort(AsciiLower(host)) <==> IgnoresPort(host)
  {
    LowerKeeps(host, ':');
    LowerKeeps(host, ']');
    if host != [] && host[0] == '[' && ']' in host {
      var close := IndexOf(host, ']').value;
      IndexIs(AsciiLower(host), ']', close);
      LowerPortFollows(host[close + 1..]);
      assert AsciiLower(host)[close + 1..] == AsciiLower(host[close + 1..]);
    }
  }

  lemma {:induction false} LowerPortFollows(rest: string)
    ensures PortFollows(AsciiLower(rest)) <==> PortFollows(rest)
  {
    if rest != [] {
      assert AsciiLower(rest)[1..] == AsciiLower(rest[1..]);
      LowerParses(rest[1..]);
    }
  }

  /** For a trimmed host of any form, adding a port makes no difference exactly when the host ignores it. */
  lemma {:induction false} PortIsIgnored(host: string, port: string)
    requires Trimmed(host) && ParseU16(port).Some?
    ensures NormalizeAuthority(host + PortSuffix(port)) == NormalizeAuthority(host) <==> IgnoresPort(host)
  {
    ValueWithPort(host, port);
    LowerIgnoresPort(host);
    var value := AsciiLower(host);
    if value != [] && value[0] == '[' {
      BracketWithPort(value, port);
    } else {
      HostWithPort(value, port);
    }
  }

  function Bracketed(address: string): string { ['['] + address + [']'] }

  lemma {:induction false} BracketedHost(address: string, rest: string)
    requires ']' !in address && address != []
    requires rest == [] || (rest[0] == ':' && ParseU16(rest[1..]).Some?)
    ensures HostOf(Bracketed(address) + rest) == Ok(Bracketed(address))
  {
    var host := Bracketed(address);
    var whole := host + rest;
    assert whole[|address| + 1] == ']';
    assert whole[..|address| + 1] == ['['] + address;
    assert whole[..|address| + 2] == host && whole[|address| + 2..] == rest;
    IndexIs(whole, ']', |address| + 1);
  }

  lemma {:induction false} LowerBracketed(address: string)
    ensures AsciiLower(Bracketed(address)) == Bracketed(AsciiLower(address))
    ensures Trimmed(Bracketed(address))
  {
    LowerAppend(['['] + address, [']']);
    LowerAppend(['['], address);
  }

  /** A bracketed address, with any port or none, gives one entry: the address in lower case. */
  lemma {:induction false} BracketedPortIsIgnored(address: string, port: string)
    requires ']' !in address && address != [] && ParseU16(port).Some?
    ensures NormalizeAuthority(Bracketed(address)) == Ok(Bracketed(AsciiLower(address)))
    ensures NormalizeAuthority(Bracketed(address) + PortSuffix(port)) == Ok(Bracketed(AsciiLower(address)))
  {
    LowerBracketed(address);
    ValueWithPort(Bracketed(address), port);
    PortSuffixFacts(port);
    LowerKeeps(address, ']');
    BracketedHost(AsciiLower(address), PortSuffix(port));
    BracketedHost(AsciiLower(address), []);
    assert Bracketed(AsciiLower(address)) + [] == Bracketed(AsciiLower(address));
  }

  /** Letter case does not matter. */
  lemma {:induction false} CaseIsIgnored(authority: string)
    ensures NormalizeAuthority(AsciiLower(authority)) == NormalizeAuthority(authority)
  {
    TrimLower(authority);
    LowerTwice(Trim(authority));
  }

  lemma {:induction false} HostIsPrefix(value: string)
    requires HostOf(value).Ok?
    ensures HostOf(value).value != [] && HostOf(value).value <= value
  {
    if value[0] != '[' { HostOutsideBrackets(value); }
  }

  lemma {:induction false} BracketedHostAgain(value: string)
    requires HostOf(value).Ok? && value[0] == '['
    ensures HostOf(HostOf(value).value) == HostOf(value)
    ensures HostOf(value).value[|HostOf(value).value| - 1] == ']'
  {
    var close := IndexOf(value, ']').value;
    InBrackets(value, close);
    BracketedHost(value[1..close], []);
    assert Bracketed(value[1..close]) + [] == Bracketed(value[1..close]);
  }

  lemma {:induction false} InBrackets(value: string, close: nat)
    requires 1 <= close < |value| && value[0] == '[' && value[close] == ']'
    requires forall k :: 0 <= k < close ==> value[k] != ']'
    ensures value[..close + 1] == Bracketed(value[1..close]) && ']' !in value[1..close]
  {}

  /** A result is a fixed point exactly when it is bracketed, or has neither a colon nor a white space at its end. */
  lemma {:induction false} ResultAgain(authority: string)
    requires NormalizeAuthority(authority).Ok?
    ensures var host := NormalizeAuthority(authority).value;
            host != [] && (NormalizeAuthority(host) == Ok(host) <==>
                           (host[0] == '[' || (':' !in host && !IsWhitespace(host[|host| - 1]))))
  {
    var value := AsciiLower(Trim(authority));
    var host := HostOf(value).value;
    TrimResult(authority);
    LowerTrimmed(Trim(authority));
    HostIsPrefix(value);
    if value[0] == '[' { BracketedHostAgain(value); }
    LowerTwice(Trim(authority));
    LowerPrefix(value, |host|);
    assert host[0] == value[0] && AsciiLower(host) == host;
    HostAgain(host);
  }

  lemma {:induction false} HostAgain(host: string)
    requires host != [] && AsciiLower(host) == host && !IsWhitespace(host[0])
    requires host[0] == '[' ==> HostOf(host) == Ok(host) && host[|host| - 1] == ']'
    ensures NormalizeAuthority(host) == Ok(host) <==>
            (host[0] == '[' || (':' !in host && !IsWhitespace(host[|host| - 1])))
  {
    TrimResult(host);
    if !Trimmed(host) {
      TrimIsShorter(host);
      var again := AsciiLower(Trim(host));
      if HostOf(again).Ok? { HostIsPrefix(again); }
    }
  }

  /** Brackets, or no colon, or a single one with no white space before it. */
  predicate HasPlainHost(v: string)
    requires v != []
  {
    v[0] == '[' ||
    match IndexOf(v, ':')
    case None => true
    case Some(i) => i > 0 && LastIndexOf(v, ':') == Some(i) && !IsWhitespace(v[i - 1])
  }

  /** The host, in terms of the trimmed authority. */
  lemma {:induction false} HostOfTrimmed(v: string)
    requires Trimmed(v) && HostOf(AsciiLower(v)).Ok?
    ensures v != []
    ensures var host := HostOf(AsciiLower(v)).value;
            host != [] && (HasPlainHost(v) <==> (host[0] == '[' || (':' !in host && !IsWhitespace(host[|host| - 1]))))
  {
    HostIsPrefix(AsciiLower(v));
    if v[0] == '[' {
      BracketStays(v);
    } else {
      HostOfUnbracketed(v);
    }
  }

  lemma {:induction false} BracketStays(v: string)
    requires HostOf(AsciiLower(v)).Ok? && v[0] == '['
    ensures HasPlainHost(v) && HostOf(AsciiLower(v)).value != [] && HostOf(AsciiLower(v)).value[0] == '['
  {
    HostIsPrefix(AsciiLower(v));
    assert AsciiLower(v)[0] == '[';
  }

  lemma {:induction false} HostOfUnbracketed(v: string)
    requires Trimmed(v) && v != [] && v[0] != '[' && HostOf(AsciiLower(v)).Ok?
    ensures var host := HostOf(AsciiLower(v)).value;
            && host != [] && host[0] != '['
            && (HasPlainHost(v) <==> ':' !in host && !IsWhitespace(host[|host| - 1]))
  {
    var value := AsciiLower(v);
    assert value[0] != '[';
    HostIsPrefix(value);
    HostOutsideBrackets(value);
    ColonsOfLower(v);
    if ':' in v {
      HostBeforeColon(v, IndexOf(v, ':').value, LastIndexOf(v, ':').value);
    } else {
      HostWithoutColon(v);
    }
  }

  lemma {:induction false} HostWithoutColon(v: string)
    requires Trimmed(v) && v != [] && ':' !in v
    ensures HasPlainHost(v) && ':' !in AsciiLower(v) && !IsWhitespace(AsciiLower(v)[|v| - 1])
  {
    LowerKeeps(v, ':');
    LowerTrimmed(v);
  }

  lemma {:induction false} HostOutsideBrackets(value: string)
    requires HostOf(value).Ok? && value[0] != '['
    ensures match LastIndexOf(value, ':')
            case None => HostOf(value).value == value
            case Some(colon) => colon > 0 && HostOf(value).value == value[..colon]
  {}

  lemma {:induction false} ColonsOfLower(v: string)
    ensures IndexOf(AsciiLower(v), ':') == IndexOf(v, ':') && LastIndexOf(AsciiLower(v), ':') == LastIndexOf(v, ':')
  {
    LowerKeeps(v, ':');
    if ':' in v {
      IndexIs(AsciiLower(v), ':', IndexOf(v, ':').value);
      LastIndexIs(AsciiLower(v), ':', LastIndexOf(v, ':').value);
    }
  }

  lemma {:induction false} LowerCharSpace(c: char)
    ensures IsWhitespace(AsciiLowerChar(c)) <==> IsWhitespace(c)
  {}

  lemma {:induction false} ColonsBefore(v: string, first: nat, last: nat)
    requires first < |v| && v[first] == ':' && forall k :: 0 <= k < first ==> v[k] != ':'
    requires last < |v| && v[last] == ':' && forall k :: last < k < |v| ==> v[k] != ':'
    ensures first <= last && (':' in AsciiLower(v)[..last] <==> first < last)
  {
    var host := AsciiLower(v)[..last];
    if first < last { assert host[first] == ':'; }
    if ':' in host {
      var i :| 0 <= i < last && host[i] == ':';
      assert v[i] == ':';
    }
  }

  lemma {:induction false} HostBeforeColon(v: string, first: nat, last: nat)
    requires IndexOf(v, ':') == Some(first) && LastIndexOf(v, ':') == Some(last) && last > 0 && v[0] != '['
    ensures var host := AsciiLower(v)[..last];
            HasPlainHost(v) <==> ':' !in host && !IsWhitespace(host[last - 1])
  {
    ColonsBefore(v, first, last);
    LowerCharSpace(v[last - 1]);
  }

  /**
    Normalising again changes nothing exactly when the trimmed authority is bracketed, has no colon, or has
    a single one with no white space before it.
   */
  lemma {:induction false} NormalizingAgain(authority: string)
    requires NormalizeAuthority(authority).Ok?
    ensures Trim(authority) != []
    ensures var host := NormalizeAuthority(authority).value;
            NormalizeAuthority(host) == Ok(host) <==> HasPlainHost(Trim(authority))
  {
    TrimResult(authority);
    ResultAgain(authority);
    HostOfTrimmed(Trim(authority));
  }

  /** With two ports, the first normalisation removes one and the second the other. */
  lemma {:induction false} TwoPorts(host: string, p: string, q: string)
    requires host != [] && host[0] != '[' && ':' !in host && Trimmed(host) && AsciiLower(host) == host
    requires ParseU16(p).Some? && ParseU16(q).Some?
    ensures NormalizeAuthority(host + PortSuffix(p)) == Ok(host)
    ensures NormalizeAuthority((host + PortSuffix(p)) + PortSuffix(q)) == Ok(host + PortSuffix(p))
  {
    PortSuffixFacts(p);
    ValueWithPort(host, p);
    HostWithPort(host, p);
    LowerAppend(host, PortSuffix(p));
    var once := host + PortSuffix(p);
    assert Trimmed(once) && once[0] == host[0];
    ValueWithPort(once, q);
    HostWithPort(once, q);
  }

  lemma {:induction false} NormalizingDiffers()
    ensures NormalizeAuthority("a:1:2") == Ok("a:1") && NormalizeAuthority("a:1") == Ok("a")
  {
    DigitParses('1');
    DigitParses('2');
    TwoPorts("a", "1", "2");
    assert "a" + PortSuffix("1") == "a:1";
    assert "a:1" + PortSuffix("2") == "a:1:2";
  }

  lemma {:induction false} DigitParses(c: char)
    requires IsDigit(c)
    ensures ParseU16([c]).Some?
  {
    assert [c][..0] == [] && DigitsValue([c]) == DigitValue(c);
  }

  lemma {:induction false} TrimIsShorter(s: string)
    requires !Trimmed(s)
    ensures |Trim(s)| < |s|
  {
    TrimResult(s);
    TrimLength(s);
  }

  /** Outside brackets, whatever follows the last colon must be a port, and something must precede it. */
  lemma {:induction false} OnlyPortsAreAccepted(host: string, port: string)
    requires Trimmed(host + [':'] + port) && ':' !in port && (host == [] || host[0] != '[')
    ensures NormalizeAuthority(host + [':'] + port) ==
            if host == [] || ParseU16(port).None? then Err(EmptyAuthority) else Ok(AsciiLower(host))
  {
    TrimResult(host + [':'] + port);
    LowerAround(host, port);
    LowerParses(port);
    LowerKeeps(port, ':');
    ColonAt(AsciiLower(host), AsciiLower(port));
  }

  lemma {:induction false} LowerAround(host: string, port: string)
    ensures AsciiLower(host + [':'] + port) == AsciiLower(host) + [':'] + AsciiLower(port)
  {
    LowerAppend(host + [':'], port);
    LowerAppend(host, [':']);
  }

  lemma {:induction false} ColonAt(host: string, port: string)
    requires ':' !in port && (host == [] || host[0] != '[')
    ensures HostOf(host + [':'] + port) == if host == [] || ParseU16(port).None? then Err(EmptyAuthority) else Ok(host)
  {
    var v := host + [':'] + port;
    assert v[|host|] == ':';
    forall k | |host| < k < |v| ensures v[k] != ':' { assert v[k] == port[k - |host| - 1]; }
    LastIndexIs(v, ':', |host|);
    assert v[|host| + 1..] == port && v[..|host|] == host;
    assert v[0] == if host == [] then ':' else host[0];
  }

  /** Without a colon, and outside brackets, everything but the empty authority is accepted. */
  lemma {:induction false} PlainHostsAreAccepted(host: string)
    requires Trimmed(host) && ':' !in host && (host == [] || host[0] != '[')
    ensures NormalizeAuthority(host) == if host == [] then Err(EmptyAuthority) else Ok(AsciiLower(host))
  {
    TrimResult(host);
    LowerKeeps(host, ':');
  }

  /** In brackets, there must be an address, a closing bracket, and after it nothing or a port. */
  lemma {:induction false} BracketsAreClosed(address: string, rest: string)
    requires ']' !in address && Trimmed(Bracketed(address) + rest)
    ensures NormalizeAuthority(Bracketed(address) + rest) ==
            if address != [] && (rest == [] || PortFollows(rest)) then Ok(Bracketed(AsciiLower(address)))
            else Err(EmptyAuthority)
  {
    var v := Bracketed(address) + rest;
    TrimResult(v);
    LowerBracketed(address);
    LowerAppend(Bracketed(address), rest);
    LowerKeeps(address, ']');
    LowerPortFollows(rest);
    ClosedAt(AsciiLower(address), AsciiLower(rest));
  }

  lemma {:induction false} ClosedAt(address: string, rest: string)
    requires ']' !in address
    ensures HostOf(Bracketed(address) + rest) ==
            if address != [] && (rest == [] || PortFollows(rest)) then Ok(Bracketed(address)) else Err(EmptyAuthority)
  {
    var v, close := Bracketed(address) + rest, |address| + 1;
    assert v[close] == ']' && v[0] == '[';
    forall k | 0 <= k < close ensures v[k] != ']' { if k > 0 { assert v[k] == address[k - 1]; } }
    IndexIs(v, ']', close);
    HostInBrackets(v, close);
    assert v[..close + 1] == Bracketed(address) && v[close + 1..] == rest;
  }

  /** The ports are the numbers of sixteen bits. */
  lemma {:induction false} PortNumbers(n: nat)
    ensures ParseU16(ToDecimal(n)) == if n <= 65535 then Some(n) else None
  {
    NumeralReadsBack(n);
  }

  // ----- the table -----

  function LastSeen(s: SessionContext): nat { s.lastSeenMs }

  predicate IdLess(a: U64, b: U64) { a < b }

  function Reply(t: Table, id: U64, authority: string, family: ProviderFamily): Result<(), CoalescingError> {
    match NormalizeAuthority(authority)
    case Err(e) => Err(e)
    case Ok(_) =>
      if id in t && t[id].family != family then Err(ProviderMismatch(t[id].family, family)) else Ok(())
  }

  ghost function AfterAssert(maxSessions: nat, t: Table, id: U64, authority: string, family: ProviderFamily,
    now: U64): Table
    requires maxSessions >= 1
  {
    if Reply(t, id, authority, family).Err? then t
    else
      var host := NormalizeAuthority(authority).value;
      if id in t then t[id := t[id].(authorities := t[id].authorities + {host}, lastSeenMs := now)]
      else MostRecent(IdLess, t, LastSeen, maxSessions - 1)[id := SessionContext(id, family, {host}, now)]
  }

  class CoalescingController {
    const maxSessions: nat
    var sessions: Table

    ghost predicate Valid()
      reads this
    {
      1 <= maxSessions && |sessions| <= maxSessions
    }

    constructor (maxSessions: nat)
      ensures Valid() && sessions == map[]
      ensures this.maxSessions == if maxSessions == 0 then 1 else maxSessions
    {
      this.maxSessions := if maxSessions < 1 then 1 else maxSessions;
      sessions := map[];
    }

    method AssertAuthority(id: U64, authority: string, family: ProviderFamily, now: U64)
      returns (r: Result<(), CoalescingError>)
      requires Valid()
      modifies this
      ensures Valid()
      ensures r == Reply(old(sessions), id, authority, family)
      ensures sessions == AfterAssert(maxSessions, old(sessions), id, authority, family, now)
    {
      var normalized := NormalizeAuthority(authority);
      if normalized.Err? { return Err(normalized.error); }
      if id in sessions {
        var session := sessions[id];
        if session.family != family { return Err(ProviderMismatch(session.family, family)); }
        session := session.(authorities := session.authorities + {normalized.value});
        session := session.(lastSeenMs := now);
        assert sessions[id := session].Keys == sessions.Keys;
        sessions := sessions[id := session];
        return Ok(());
      }
      EvictIfNeeded();
      sessions := sessions[id := SessionContext(id, family, {normalized.value}, now)];
      r := Ok(());
    }

    method EvictIfNeeded()
      requires Valid()
      modifies this
      ensures sessions == MostRecent(IdLess, old(sessions), LastSeen, maxSessions - 1)
      ensures |sessions| < maxSessions
    {
      ghost var room := maxSessions - 1;
      if |sessions| < maxSessions {
        FewRemain(IdLess, sessions, LastSeen, room);
        return;
      }
      var oldest := FindLeastRecent(IdLess, sessions, LastSeen);
      if oldest.Some? {
        EvictOne(IdLess, sessions, LastSeen, room, oldest.value);
        WithoutShrinks(sessions, oldest.value);
        sessions := Without(sessions, oldest.value);
        FewRemain(IdLess, sessions, LastSeen, room);
      }
    }
  }
}
