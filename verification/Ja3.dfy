/** The JA3 fingerprint of src/ja3.rs: the canonical string and its hash. */
module Ja3 {
  import opened Common
  import opened Text
  import opened Decimal
  import Rfc1321
  import Md5

  /** What the fingerprint reads of a parsed ClientHello. */
  datatype ClientHello = ClientHello(
    supportedVersions: seq<U16>,
    cipherSuites: seq<U16>,
    extensionOrder: seq<U16>,
    supportedGroups: seq<U16>,
    ecPointFormats: seq<Byte>)

  /** Both bytes equal, with low nibble 0xA. */
  predicate IsGrease(value: U16) {
    var hi, lo := value / 256, value % 256;
    hi == lo && hi % 16 == 0x0a
  }

  /** The test accepts exactly the sixteen values reserved by section 2 of RFC 8701. */
  lemma {:induction false} GreaseValues(value: U16)
    ensures IsGrease(value) <==> exists k: nat :: k < 16 && value == 0x0a0a + 0x1010 * k
  {
    var hi := value / 256;
    if IsGrease(value) {
      var k := hi / 16;
      assert hi == 16 * k + 10 && value == 257 * hi;
      assert value == 0x0a0a + 0x1010 * k;
    }
    forall k: nat | k < 16 && value == 0x0a0a + 0x1010 * k ensures IsGrease(value) {
      assert value == 257 * (16 * k + 10);
      assert hi == 16 * k + 10;
    }
  }

  function NonGrease(values: seq<U16>): seq<U16> {
    if values == [] then []
    else if IsGrease(values[0]) then NonGrease(values[1..])
    else [values[0]] + NonGrease(values[1..])
  }

  predicate SortedUp(s: seq<U16>) { forall i, j :: 0 <= i <= j < |s| ==> s[i] <= s[j] }

  function Insert(v: U16, s: seq<U16>): (r: seq<U16>)
    requires SortedUp(s)
    ensures SortedUp(r) && |r| == |s| + 1
    ensures forall x :: x in r <==> x == v || x in s
  {
    if s == [] || v <= s[0] then [v] + s
    else InsertLater(s[0], Insert(v, s[1..]))
  }

  function InsertLater(first: U16, inserted: seq<U16>): (r: seq<U16>)
    requires SortedUp(inserted) && forall x :: x in inserted ==> first <= x
    ensures r == [first] + inserted && SortedUp(r)
  {
    assert forall i :: 0 <= i < |inserted| ==> inserted[i] in inserted;
    [first] + inserted
  }

  /** `sort_unstable` */
  function Sort(s: seq<U16>): (r: seq<U16>)
    ensures SortedUp(r) && |r| == |s|
    ensures forall x :: x in r <==> x in s
  {
    if s == [] then [] else Insert(s[0], Sort(s[1..]))
  }

  function SslVersion(hello: ClientHello): U16 {
    var versions := NonGrease(hello.supportedVersions);
    if versions == [] then 0x0303
    else
      var sorted := Sort(versions);
      sorted[|sorted| - 1]
  }

  function Numerals(values: seq<nat>): (r: seq<string>)
    ensures |r| == |values|
  {
    seq(|values|, i requires 0 <= i < |values| => ToDecimal(values[i]))
  }

  function Printed(values: seq<nat>): string { Join(Numerals(values), '-') }

  function JoinFiltered(values: seq<U16>): string { Printed(NonGrease(values)) }

  function Ja3String(hello: ClientHello): string {
    Join([ToDecimal(SslVersion(hello)), JoinFiltered(hello.cipherSuites), JoinFiltered(hello.extensionOrder),
          JoinFiltered(hello.supportedGroups), Printed(hello.ecPointFormats)], ',')
  }

  // ----- what the string says -----

  datatype Fields = Fields(version: nat, ciphers: seq<nat>, extensions: seq<nat>, groups: seq<nat>, formats: seq<nat>)

  function FieldsOf(hello: ClientHello): Fields {
    Fields(SslVersion(hello), NonGrease(hello.cipherSuites), NonGrease(hello.extensionOrder),
           NonGrease(hello.supportedGroups), hello.ecPointFormats)
  }

  function Value(s: string): nat { if AllDigits(s) then DigitsValue(s) else 0 }

  function ParseList(s: string): seq<nat> {
    if s == [] then []
    else
      var parts := Split(s, '-');
      seq(|parts|, i requires 0 <= i < |parts| => Value(parts[i]))
  }

  /** Splitting on commas, then on hyphens. */
  function Parse(s: string): Option<Fields> {
    var parts := Split(s, ',');
    if |parts| != 5 then None
    else Some(Fields(Value(parts[0]), ParseList(parts[1]), ParseList(parts[2]), ParseList(parts[3]),
      ParseList(parts[4])))
  }

  lemma {:induction false} DigitsHaveNo(s: string, c: char)
    requires AllDigits(s) && !IsDigit(c)
    ensures c !in s
  {}

  lemma {:induction false} NumeralParts(values: seq<nat>, c: char)
    requires !IsDigit(c)
    ensures forall i :: 0 <= i < |values| ==>
              c !in Numerals(values)[i] && Numerals(values)[i] != [] && Value(Numerals(values)[i]) == values[i]
  {
    forall i | 0 <= i < |values|
      ensures c !in Numerals(values)[i] && Numerals(values)[i] != [] && Value(Numerals(values)[i]) == values[i]
    {
      NumeralReadsBack(values[i]);
      DigitsHaveNo(Numerals(values)[i], c);
    }
  }

  lemma {:induction false} JoinHasNo(parts: seq<string>, sep: char, c: char)
    requires c != sep && forall i :: 0 <= i < |parts| ==> c !in parts[i]
    ensures c !in Join(parts, sep)
  {
    if |parts| > 1 { JoinHasNo(parts[1..], sep, c); }
  }

  /** A printed list has no comma and reads back as the list. */
  lemma {:induction false} ListParses(values: seq<nat>)
    ensures ',' !in Printed(values)
    ensures ParseList(Printed(values)) == values
  {
    NumeralParts(values, ',');
    JoinHasNo(Numerals(values), '-', ',');
    if values != [] {
      NumeralParts(values, '-');
      SplitJoin(Numerals(values), '-');
      assert Numerals(values)[0] != [];
    }
  }

  lemma {:induction false} ParseFive(p0: string, p1: string, p2: string, p3: string, p4: string)
    requires ',' !in p0 && ',' !in p1 && ',' !in p2 && ',' !in p3 && ',' !in p4
    ensures Parse(Join([p0, p1, p2, p3, p4], ',')) ==
            Some(Fields(Value(p0), ParseList(p1), ParseList(p2), ParseList(p3), ParseList(p4)))
  {
    SplitJoin([p0, p1, p2, p3, p4], ',');
  }

  /** The string can be parsed back into its five fields. */
  lemma {:induction false} ParsesBack(hello: ClientHello)
    ensures Parse(Ja3String(hello)) == Some(FieldsOf(hello))
  {
    var f := FieldsOf(hello);
    NumeralReadsBack(f.version);
    DigitsHaveNo(ToDecimal(f.version), ',');
    ListParses(f.ciphers);
    ListParses(f.extensions);
    ListParses(f.groups);
    ListParses(f.formats);
    ParseFive(ToDecimal(f.version), Printed(f.ciphers), Printed(f.extensions), Printed(f.groups), Printed(f.formats));
  }

  /** Two hellos print alike exactly when the five fields agree. */
  lemma {:induction false} PrintsAlike(a: ClientHello, b: ClientHello)
    ensures Ja3String(a) == Ja3String(b) <==> FieldsOf(a) == FieldsOf(b)
  {
    ParsesBack(a);
    ParsesBack(b);
  }

  /** The version is the highest that is not a GREASE value, or 771 when there is none. */
  lemma {:induction false} VersionIsHighest(hello: ClientHello)
    ensures forall v :: v in hello.supportedVersions && !IsGrease(v) ==> v <= SslVersion(hello)
    ensures (SslVersion(hello) in hello.supportedVersions && !IsGrease(SslVersion(hello)))
         || (SslVersion(hello) == 771 && forall v :: v in hello.supportedVersions ==> IsGrease(v))
  {
    var versions := NonGrease(hello.supportedVersions);
    NonGreaseMembers(hello.supportedVersions);
    if versions != [] {
      var sorted := Sort(versions);
      forall v | v in versions ensures v <= sorted[|sorted| - 1] {
        assert v in sorted;
      }
      assert sorted[|sorted| - 1] in sorted;
    } else {
      forall v | v in hello.supportedVersions ensures IsGrease(v) {
        assert v !in versions;
      }
    }
  }

  lemma {:induction false} NonGreaseMembers(values: seq<U16>)
    ensures forall v :: v in NonGrease(values) <==> v in values && !IsGrease(v)
  {
    if values != [] {
      NonGreaseMembers(values[1..]);
      assert values == [values[0]] + values[1..];
    }
  }

  lemma {:induction false} GreaseDropsOut(before: seq<U16>, g: U16, after: seq<U16>)
    requires IsGrease(g)
    ensures NonGrease(before + [g] + after) == NonGrease(before + after)
  {
    if before == [] {
      assert before + [g] + after == [g] + after;
      assert before + after == after;
    } else {
      GreaseDropsOut(before[1..], g, after);
      assert (before + [g] + after)[1..] == before[1..] + [g] + after;
      assert (before + after)[1..] == before[1..] + after;
    }
  }

  /** Mixing a GREASE value into any of the four lists, at any place, leaves the string as it was. */
  lemma {:induction false} GreaseIsInvisible(hello: ClientHello, g: U16, n: nat)
    requires IsGrease(g)
    ensures n <= |hello.supportedVersions| ==>
              Ja3String(hello.(supportedVersions := hello.supportedVersions[..n] + [g] + hello.supportedVersions[n..]))
                == Ja3String(hello)
    ensures n <= |hello.cipherSuites| ==>
              Ja3String(hello.(cipherSuites := hello.cipherSuites[..n] + [g] + hello.cipherSuites[n..]))
                == Ja3String(hello)
    ensures n <= |hello.extensionOrder| ==>
              Ja3String(hello.(extensionOrder := hello.extensionOrder[..n] + [g] + hello.extensionOrder[n..]))
                == Ja3String(hello)
    ensures n <= |hello.supportedGroups| ==>
              Ja3String(hello.(supportedGroups := hello.supportedGroups[..n] + [g] + hello.supportedGroups[n..]))
                == Ja3String(hello)
  {
    MixedIn(hello.supportedVersions, g, n);
    MixedIn(hello.cipherSuites, g, n);
    MixedIn(hello.extensionOrder, g, n);
    MixedIn(hello.supportedGroups, g, n);
  }

  lemma {:induction false} MixedIn(values: seq<U16>, g: U16, n: nat)
    requires IsGrease(g)
    ensures n <= |values| ==> NonGrease(values[..n] + [g] + values[n..]) == NonGrease(values)
  {
    if n <= |values| {
      GreaseDropsOut(values[..n], g, values[n..]);
      assert values[..n] + values[n..] == values;
    }
  }

  // ----- the hash -----

  function HexDigit(n: bv8): char
    requires n < 16
  {
    "0123456789abcdef"[n as int]
  }

  function Hex(bytes: seq<bv8>): string {
    if bytes == [] then [] else [HexDigit(bytes[0] >> 4), HexDigit(bytes[0] & 0x0f)] + Hex(bytes[1..])
  }

  /** The value of a hexadecimal digit. */
  function HexValue(c: char): Option<nat> {
    if '0' <= c <= '9' then Some(c as nat - '0' as nat)
    else if 'a' <= c <= 'f' then Some(c as nat - 'a' as nat + 10)
    else None
  }

  lemma {:induction false} HexDigitReadsBack(n: bv8)
    requires n < 16
    ensures HexValue(HexDigit(n)) == Some(n as nat)
  {
    match n
    case 0 => case 1 => case 2 => case 3 => case 4 => case 5 => case 6 => case 7 =>
    case 8 => case 9 => case 10 => case 11 => case 12 => case 13 => case 14 =>
    case _ => assert n == 15;
  }

  lemma {:induction false} Nibbles(b: bv8)
    ensures 16 * ((b >> 4) as nat) + ((b & 0x0f) as nat) == b as nat
  {}

  /** Two digits for each byte: 16 times the first, plus the second. */
  lemma {:induction false} HexReadsBack(bytes: seq<bv8>, i: nat)
    requires i < |bytes|
    ensures |Hex(bytes)| == 2 * |bytes|
    ensures var hi, lo := HexValue(Hex(bytes)[2 * i]), HexValue(Hex(bytes)[2 * i + 1]);
            hi.Some? && lo.Some? && 16 * hi.value + lo.value == bytes[i] as nat
    decreases |bytes|
  {
    HexLength(bytes);
    if i == 0 {
      HexDigitReadsBack(bytes[0] >> 4);
      HexDigitReadsBack(bytes[0] & 0x0f);
      Nibbles(bytes[0]);
    } else {
      HexReadsBack(bytes[1..], i - 1);
    }
  }

  lemma {:induction false} HexLength(bytes: seq<bv8>)
    ensures |Hex(bytes)| == 2 * |bytes|
  {
    if bytes != [] { HexLength(bytes[1..]); }
  }

  function AsciiBytes(s: string): seq<bv8>
    requires IsAscii(s)
  {
    seq(|s|, i requires 0 <= i < |s| && IsAscii(s) => (s[i] as int) as bv8)
  }

  /** The codes of the characters that a fingerprint string is made of. */
  lemma {:induction false} AsciiBytesAre(s: string, i: nat)
    requires IsAscii(s) && i < |s|
    ensures |AsciiBytes(s)| == |s|
    ensures s[i] == ',' ==> AsciiBytes(s)[i] == 0x2c
    ensures s[i] == '-' ==> AsciiBytes(s)[i] == 0x2d
    ensures s[i] == '0' ==> AsciiBytes(s)[i] == 0x30
    ensures s[i] == '1' ==> AsciiBytes(s)[i] == 0x31
    ensures s[i] == '2' ==> AsciiBytes(s)[i] == 0x32
    ensures s[i] == '3' ==> AsciiBytes(s)[i] == 0x33
    ensures s[i] == '4' ==> AsciiBytes(s)[i] == 0x34
    ensures s[i] == '5' ==> AsciiBytes(s)[i] == 0x35
    ensures s[i] == '6' ==> AsciiBytes(s)[i] == 0x36
    ensures s[i] == '7' ==> AsciiBytes(s)[i] == 0x37
    ensures s[i] == '8' ==> AsciiBytes(s)[i] == 0x38
    ensures s[i] == '9' ==> AsciiBytes(s)[i] == 0x39
  {}

  /** Digits, commas and hyphens. */
  predicate IsPlain(s: string) { forall i :: 0 <= i < |s| ==> IsDigit(s[i]) || s[i] == ',' || s[i] == '-' }

  lemma {:induction false} JoinIsPlain(parts: seq<string>, sep: char)
    requires (sep == ',' || sep == '-') && forall i :: 0 <= i < |parts| ==> IsPlain(parts[i])
    ensures IsPlain(Join(parts, sep))
  {
    if |parts| > 1 { JoinIsPlain(parts[1..], sep); }
  }

  lemma {:induction false} ListIsPlain(values: seq<nat>)
    ensures IsPlain(Printed(values))
  {
    forall i | 0 <= i < |values| ensures IsPlain(Numerals(values)[i]) { NumeralReadsBack(values[i]); }
    JoinIsPlain(Numerals(values), '-');
  }

  /** The string is made of digits, commas and hyphens. */
  lemma {:induction false} Ja3StringIsPlain(hello: ClientHello)
    ensures IsPlain(Ja3String(hello)) && IsAscii(Ja3String(hello))
  {
    var f := FieldsOf(hello);
    NumeralReadsBack(f.version);
    ListIsPlain(f.ciphers);
    ListIsPlain(f.extensions);
    ListIsPlain(f.groups);
    ListIsPlain(f.formats);
    JoinIsPlain([ToDecimal(f.version), Printed(f.ciphers), Printed(f.extensions), Printed(f.groups),
      Printed(f.formats)], ',');
    PlainIsAscii(Ja3String(hello));
  }

  lemma {:induction false} PlainIsAscii(s: string)
    requires IsPlain(s)
    ensures IsAscii(s)
  {}

  /** The fingerprint: the string, and the hexadecimal RFC 1321 digest of its bytes. */
  method ComputeJa3(hello: ClientHello) returns (text: string, hash: string)
    requires 8 * |Ja3String(hello)| < 0x1_0000_0000_0000_0000
    ensures text == Ja3String(hello) && IsAscii(text)
    ensures hash == Hex(Rfc1321.Digest(AsciiBytes(text)))
  {
    text := Ja3String(hello);
    Ja3StringIsPlain(hello);
    var digest := Md5.Md5(AsciiBytes(text));
    hash := Hex(digest);
  }

  // ----- the string, spelled out -----

  lemma {:induction false} JoinFirst(part: string, parts: seq<string>, sep: char)
    ensures Join([part] + parts, sep) == if parts == [] then part else part + [sep] + Join(parts, sep)
  {
    assert ([part] + parts)[1..] == parts;
  }

  /** A list of numbers: their numerals with hyphens between them. */
  lemma {:induction false} PrintedWithHyphens(n: nat, values: seq<nat>)
    ensures Printed([]) == ""
    ensures Printed([n] + values) == if values == [] then ToDecimal(n) else ToDecimal(n) + "-" + Printed(values)
  {
    assert Numerals([n] + values) == [ToDecimal(n)] + Numerals(values);
    JoinFirst(ToDecimal(n), Numerals(values), '-');
  }

  lemma {:induction false} FiveJoined(a: string, b: string, c: string, d: string, e: string)
    ensures Join([a, b, c, d, e], ',') == a + "," + b + "," + c + "," + d + "," + e
  {
    JoinFirst(a, [b, c, d, e], ',');
    JoinFirst(b, [c, d, e], ',');
    JoinFirst(c, [d, e], ',');
    JoinFirst(d, [e], ',');
    JoinFirst(e, [], ',');
    assert [e] + [] == [e] && [d] + [e] == [d, e] && [c] + [d, e] == [c, d, e];
    assert [b] + [c, d, e] == [b, c, d, e] && [a] + [b, c, d, e] == [a, b, c, d, e];
  }

  /**
    The string: the version, the ciphers, the extensions, the groups and the point formats, with commas between
    them.
   */
  lemma {:induction false} StringOfFields(hello: ClientHello)
    ensures Ja3String(hello) ==
            ToDecimal(SslVersion(hello)) + "," + Printed(NonGrease(hello.cipherSuites))
            + "," + Printed(NonGrease(hello.extensionOrder)) + "," + Printed(NonGrease(hello.supportedGroups))
            + "," + Printed(hello.ecPointFormats)
  {
    var f := FieldsOf(hello);
    FiveJoined(ToDecimal(f.version), Printed(f.ciphers), Printed(f.extensions), Printed(f.groups), Printed(f.formats));
  }

  /** Filtering keeps, in order, whatever is not a GREASE value. */
  lemma {:induction false} FilteredInOrder(v: U16, values: seq<U16>)
    ensures NonGrease([]) == []
    ensures NonGrease([v] + values) == (if IsGrease(v) then [] else [v]) + NonGrease(values)
  {
    assert ([v] + values)[1..] == values;
  }
}
