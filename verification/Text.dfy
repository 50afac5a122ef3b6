/** The string primitives of the two languages that the models rely on. */
module Text {
  import opened Common

  function AsciiLowerChar(c: char): char {
    if 'A' <= c <= 'Z' then c - 'A' + 'a' else c
  }

  /** `str::to_ascii_lowercase` */
  function AsciiLower(s: string): (r: string)
    ensures |r| == |s|
    ensures forall i :: 0 <= i < |s| ==> r[i] == AsciiLowerChar(s[i])
  {
    seq(|s|, i requires 0 <= i < |s| => AsciiLowerChar(s[i]))
  }

  predicate IsAscii(s: string) { forall i :: 0 <= i < |s| ==> s[i] as int < 128 }

  predicate CharLess(a: char, b: char) { a < b }

  /** The characters with the Unicode property White_Space, which `str::trim` removes. */
  predicate IsWhitespace(c: char) {
    || '\t' <= c <= '\r' || c == ' ' || c == '\U{85}' || c == '\U{A0}' || c == '\U{1680}'
    || '\U{2000}' <= c <= '\U{200A}' || c == '\U{2028}' || c == '\U{2029}' || c == '\U{202F}' || c == '\U{205F}'
    || c == '\U{3000}'
  }

  function TrimStart(s: string): string {
    if s != [] && IsWhitespace(s[0]) then TrimStart(s[1..]) else s
  }

  function TrimEnd(s: string): string {
    if s != [] && IsWhitespace(s[|s| - 1]) then TrimEnd(s[..|s| - 1]) else s
  }

  /** `str::trim` */
  function Trim(s: string): string { TrimEnd(TrimStart(s)) }

  predicate Trimmed(s: string) {
    s == [] || (!IsWhitespace(s[0]) && !IsWhitespace(s[|s| - 1]))
  }

  /** `str::find` for one character */
  function IndexOf(s: string, c: char): (r: Option<nat>)
    ensures r.None? <==> c !in s
    ensures r.Some? ==> r.value < |s| && s[r.value] == c && forall k :: 0 <= k < r.value ==> s[k] != c
  {
    if s == [] then None
    else if s[0] == c then Some(0)
    else match IndexOf(s[1..], c)
      case None => None
      case Some(i) => Some(i + 1)
  }

  /** `str::rfind` for one character */
  function LastIndexOf(s: string, c: char): (r: Option<nat>)
    ensures r.None? <==> c !in s
    ensures r.Some? ==> r.value < |s| && s[r.value] == c && forall k :: r.value < k < |s| ==> s[k] != c
  {
    if s == [] then None
    else if s[|s| - 1] == c then Some(|s| - 1)
    else match LastIndexOf(s[..|s| - 1], c)
      case None => None
      case Some(i) => Some(i)
  }

  lemma {:induction false} TrimStartResult(s: string)
    ensures TrimStart(s) == [] || !IsWhitespace(TrimStart(s)[0])
    ensures s == [] || !IsWhitespace(s[0]) ==> TrimStart(s) == s
  {
    if s != [] { TrimStartResult(s[1..]); }
  }

  lemma {:induction false} TrimEndResult(s: string)
    ensures TrimEnd(s) <= s
    ensures TrimEnd(s) == [] || !IsWhitespace(TrimEnd(s)[|TrimEnd(s)| - 1])
    ensures s == [] || !IsWhitespace(s[|s| - 1]) ==> TrimEnd(s) == s
  {
    if s != [] { TrimEndResult(s[..|s| - 1]); }
  }

  /** Trimming yields a trimmed string and changes nothing but untrimmed ones. */
  lemma {:induction false} TrimResult(s: string)
    ensures Trimmed(Trim(s))
    ensures Trimmed(s) <==> Trim(s) == s
  {
    TrimStartResult(s);
    TrimEndResult(TrimStart(s));
  }

  lemma {:induction false} TrimLower(s: string)
    ensures Trim(AsciiLower(s)) == AsciiLower(Trim(s))
  {
    TrimStartLower(s);
    TrimEndLower(TrimStart(s));
  }

  lemma {:induction false} TrimStartLower(s: string)
    ensures TrimStart(AsciiLower(s)) == AsciiLower(TrimStart(s))
  {
    if s != [] && IsWhitespace(s[0]) {
      assert AsciiLower(s)[1..] == AsciiLower(s[1..]);
      TrimStartLower(s[1..]);
    }
  }

  lemma {:induction false} TrimEndLower(s: string)
    ensures TrimEnd(AsciiLower(s)) == AsciiLower(TrimEnd(s))
  {
    if s != [] && IsWhitespace(s[|s| - 1]) {
      assert AsciiLower(s)[..|s| - 1] == AsciiLower(s[..|s| - 1]);
      TrimEndLower(s[..|s| - 1]);
    }
  }

  lemma {:induction false} IndexIs(s: string, c: char, i: nat)
    requires i < |s| && s[i] == c && forall k :: 0 <= k < i ==> s[k] != c
    ensures IndexOf(s, c) == Some(i)
  {
    assert s[IndexOf(s, c).value] == c;
  }

  lemma {:induction false} LastIndexIs(s: string, c: char, i: nat)
    requires i < |s| && s[i] == c && forall k :: i < k < |s| ==> s[k] != c
    ensures LastIndexOf(s, c) == Some(i)
  {
    assert s[LastIndexOf(s, c).value] == c;
  }

  lemma {:induction false} LowerAppend(a: string, b: string)
    ensures AsciiLower(a + b) == AsciiLower(a) + AsciiLower(b)
  {}

  lemma {:induction false} LowerTwice(s: string)
    ensures AsciiLower(AsciiLower(s)) == AsciiLower(s)
  {}

  lemma {:induction false} LowerPrefix(s: string, n: nat)
    requires n <= |s|
    ensures AsciiLower(s[..n]) == AsciiLower(s)[..n]
  {}

  /** Lowering neither adds nor removes a character that is not a letter. */
  lemma {:induction false} LowerKeeps(s: string, c: char)
    requires !('A' <= c <= 'Z') && !('a' <= c <= 'z')
    ensures c in AsciiLower(s) <==> c in s
  {
    if c in s {
      var i :| 0 <= i < |s| && s[i] == c;
      assert AsciiLower(s)[i] == c;
    }
    if c in AsciiLower(s) {
      var i :| 0 <= i < |s| && AsciiLower(s)[i] == c;
      assert s[i] == c;
    }
  }

  lemma {:induction false} LowerTrimmed(s: string)
    ensures Trimmed(AsciiLower(s)) <==> Trimmed(s)
  {}

  lemma {:induction false} TrimStartIsSuffix(s: string)
    ensures |TrimStart(s)| <= |s| && TrimStart(s) == s[|s| - |TrimStart(s)|..]
  {
    if s != [] && IsWhitespace(s[0]) { TrimStartIsSuffix(s[1..]); }
  }

  lemma {:induction false} TrimLength(s: string)
    ensures |Trim(s)| <= |s|
    ensures |Trim(s)| == |s| ==> Trim(s) == s
  {
    TrimStartIsSuffix(s);
    TrimEndResult(TrimStart(s));
  }

  /** `split` at every occurrence of one character: always at least one part. */
  function Split(s: string, c: char): (parts: seq<string>)
    ensures parts != []
    ensures forall i :: 0 <= i < |parts| ==> c !in parts[i]
  {
    if s == [] then [[]]
    else if s[0] == c then [[]] + Split(s[1..], c)
    else
      var rest := Split(s[1..], c);
      [[s[0]] + rest[0]] + rest[1..]
  }

  /** `join` with one character. */
  function Join(parts: seq<string>, c: char): string {
    if parts == [] then []
    else if |parts| == 1 then parts[0]
    else parts[0] + [c] + Join(parts[1..], c)
  }

  lemma {:induction false} SplitFirst(part: string, rest: string, c: char)
    requires c !in part
    ensures Split(part, c) == [part]
    ensures Split(part + [c] + rest, c) == [part] + Split(rest, c)
  {
    if part == [] {
      assert part + [c] + rest == [c] + rest;
    } else {
      SplitFirst(part[1..], rest, c);
      assert (part + [c] + rest)[1..] == part[1..] + [c] + rest;
      assert part[0] in part;
      assert [part[0]] + part[1..] == part;
    }
  }

  /** Splitting takes apart what joining put together. */
  lemma {:induction false} SplitJoin(parts: seq<string>, c: char)
    requires parts != [] && forall i :: 0 <= i < |parts| ==> c !in parts[i]
    ensures Split(Join(parts, c), c) == parts
  {
    if |parts| == 1 {
      SplitFirst(parts[0], [], c);
    } else {
      SplitFirst(parts[0], Join(parts[1..], c), c);
      SplitJoin(parts[1..], c);
    }
  }

  /** Trimming removes white space around a trimmed text, and nothing else. */
  lemma {:induction false} TrimIs(before: string, s: string, after: string)
    requires s != [] && Trimmed(s) && AllSpace(before) && AllSpace(after)
    ensures Trim(before + s + after) == s
  {
    TrimStartIs(before, s + after);
    assert before + s + after == before + (s + after);
    TrimEndIs(s, after);
  }

  predicate AllSpace(s: string) { forall i :: 0 <= i < |s| ==> IsWhitespace(s[i]) }

  lemma {:induction false} TrimStartIs(before: string, rest: string)
    requires AllSpace(before) && rest != [] && !IsWhitespace(rest[0])
    ensures TrimStart(before + rest) == rest
    decreases |before|
  {
    if before == [] {
      assert before + rest == rest;
    } else {
      assert (before + rest)[1..] == before[1..] + rest;
      TrimStartIs(before[1..], rest);
    }
  }

  lemma {:induction false} TrimEndIs(rest: string, after: string)
    requires AllSpace(after) && rest != [] && !IsWhitespace(rest[|rest| - 1])
    ensures TrimEnd(rest + after) == rest
    decreases |after|
  {
    if after == [] {
      assert rest + after == rest;
    } else {
      var whole := rest + after;
      assert whole[|whole| - 1] == after[|after| - 1];
      assert whole[..|whole| - 1] == rest + after[..|after| - 1];
      TrimEndIs(rest, after[..|after| - 1]);
    }
  }

  /** The letters go to their small ones, 32 places up, and everything else stays. */
  lemma {:induction false} LowerLetters(c: char)
    ensures AsciiLowerChar(c) as int == if 65 <= c as int <= 90 then c as int + 32 else c as int
  {}

  /** Of the ASCII characters, white space are the tabulator, the line feeds, the return and the blank. */
  lemma {:induction false} AsciiSpaces(c: char)
    ensures c as int < 128 ==> (IsWhitespace(c) <==> 9 <= c as int <= 13 || c as int == 32)
  {}
}
