/**
  The query builder and response parser of scripts/check_dns.py and the answering side of
  scripts/dns_lab_harness.py.
 */
module DnsExchange {
  import opened Common
  import opened Text
  import opened Dns

  // ----- names as text -----

  function StripDots(s: string): string {
    if s != [] && s[|s| - 1] == '.' then StripDots(s[..|s| - 1]) else s
  }

  predicate IsLabel(part: string) { IsAscii(part) && |part| <= 63 }

  function LabelBytes(part: string): Bytes
    requires IsAscii(part)
  {
    seq(|part|, i requires 0 <= i < |part| => part[i] as int)
  }

  predicate AllLabels(parts: seq<string>) { forall i :: 0 <= i < |parts| ==> IsLabel(parts[i]) }

  function LabelsOf(parts: seq<string>): (labels: seq<Bytes>)
    requires AllLabels(parts)
    ensures |labels| == |parts| && forall i :: 0 <= i < |labels| ==> |labels[i]| <= 63
  {
    seq(|parts|, i requires 0 <= i < |parts| && AllLabels(parts) => LabelBytes(parts[i]))
  }

  /** The error of the first part that is not a label. */
  function FirstProblem(parts: seq<string>): DnsError
    requires !AllLabels(parts)
  {
    if !IsAscii(parts[0]) then NotAscii
    else if |parts[0]| > 63 then LabelTooLong
    else FirstProblem(parts[1..])
  }

  function NameParts(name: string): seq<string> { Split(StripDots(name), '.') }

  /** What the name encoder answers: the labels and a final zero, if every part of the name is a label. */
  function EncodedName(name: string): Result<Bytes, DnsError> {
    if AllLabels(NameParts(name)) then Ok(EncodeLabels(LabelsOf(NameParts(name))) + [0])
      else Err(FirstProblem(NameParts(name)))
  }

  lemma {:induction false} EncodeOneMore(labels: seq<Bytes>, last: Bytes)
    requires forall i :: 0 <= i < |labels| ==> |labels[i]| <= 63
    requires |last| <= 63
    ensures EncodeLabels(labels + [last]) == EncodeLabels(labels) + ([|last|] + last)
  {
    if labels == [] {
      assert labels + [last] == [last];
    } else {
      assert (labels + [last])[1..] == labels[1..] + [last];
      EncodeOneMore(labels[1..], last);
    }
  }

  lemma {:induction false} ProblemAt(parts: seq<string>, i: nat)
    requires i < |parts| && AllLabels(parts[..i]) && !IsLabel(parts[i])
    ensures !AllLabels(parts)
    ensures FirstProblem(parts) == if IsAscii(parts[i]) then LabelTooLong else NotAscii
  {
    if i > 0 {
      assert parts[..i][0] == parts[0];
      assert parts[1..][..i - 1] == parts[..i][1..];
      ProblemAt(parts[1..], i - 1);
    }
  }

  method EncodeNameText(name: string) returns (r: Result<Bytes, DnsError>)
    ensures r == EncodedName(name)
  {
    var parts := NameParts(name);
    var out: Bytes := [];
    for i := 0 to |parts|
      invariant AllLabels(parts[..i]) && out == EncodeLabels(LabelsOf(parts[..i]))
    {
      var part := parts[i];
      assert parts[..i + 1] == parts[..i] + [part];
      if !IsAscii(part) {
        ProblemAt(parts, i);
        return Err(NotAscii);
      }
      if |part| > 63 {
        ProblemAt(parts, i);
        return Err(LabelTooLong);
      }
      EncodeOneMore(LabelsOf(parts[..i]), LabelBytes(part));
      assert LabelsOf(parts[..i + 1]) == LabelsOf(parts[..i]) + [LabelBytes(part)];
      out := out + ([|part|] + LabelBytes(part));
    }
    assert parts[..|parts|] == parts;
    r := Ok(out + [0]);
  }

  // ----- query and response -----

  function BuildQuery(id: U16, name: string, qtype: U16): Result<Bytes, DnsError> {
    match EncodedName(name)
    case Err(e) => Err(e)
    case Ok(encoded) => Ok(EncodeHeader(id, 0x0100, 1, 0, 0, 0) + (encoded + (Be16(qtype) + Be16(1))))
  }

  datatype Parsed =
    | ShortResponse
    | IdMismatch
    | Parsed(rcode: nat, answers: U16, authority: U16, additional: U16)

  function ParseResponse(data: Bytes, expectedId: U16): Parsed {
    if |data| < 12 then ShortResponse
    else if ReadBe16(data, 0) != expectedId then IdMismatch
    else Parsed(ReadBe16(data, 2) % 16, ReadBe16(data, 6), ReadBe16(data, 8), ReadBe16(data, 10))
  }

  /** Where the name of the question ends, stepping over whatever the length bytes say. */
  function WalkName(query: Bytes, idx: nat): (r: Result<nat, DnsError>)
    ensures r.Ok? ==> r.value >= idx && (r.value < |query| ==> query[r.value] == 0)
    decreases |query| - idx
  {
    if idx < |query| && query[idx] != 0 then
      if idx + query[idx] + 1 > |query| then Err(NameExceedsPacket) else WalkName(query, idx + query[idx] + 1)
    else Ok(idx)
  }

  /** The query's id, the flags of a recursive answer without error, one question and one answer. */
  function ResponseHead(query: Bytes): Bytes
    requires |query| >= 2
  {
    query[..2] + (Be16(0x8180) + Be16(1) + Be16(1) + Be16(0) + Be16(0))
  }

  function AnswerBytes(ip: Bytes): Bytes {
    [0xc0, 0x0c] + (RecordHead(1, 1, 60, 4) + ip)
  }

  /** What the fake server answers: the question echoed and one address record that points at its name. */
  function Response(query: Bytes, ip: Bytes): Result<Bytes, DnsError>
    requires |ip| == 4
  {
    if |query| < 12 then Err(QueryTooShort)
    else match WalkName(query, 12)
      case Err(e) => Err(e)
      case Ok(idx) =>
        if idx + 5 > |query| then Err(QuestionExceedsPacket)
        else Ok(ResponseHead(query) + (query[12..idx + 5] + AnswerBytes(ip)))
  }

  method BuildDnsAResponse(query: Bytes, ip: Bytes) returns (r: Result<Bytes, DnsError>)
    requires |ip| == 4
    ensures r == Response(query, ip)
  {
    if |query| < 12 { return Err(QueryTooShort); }
    var header := ResponseHead(query);
    var idx: nat := 12;
    while idx < |query| && query[idx] != 0
      invariant WalkName(query, idx) == WalkName(query, 12)
      decreases |query| - idx
    {
      if idx + query[idx] + 1 > |query| { return Err(NameExceedsPacket); }
      idx := idx + query[idx] + 1;
    }
    if idx + 5 > |query| { return Err(QuestionExceedsPacket); }
    idx := idx + 5;
    var question := query[12..idx];
    var answer := [0xc0, 0x0c] + (RecordHead(1, 1, 60, 4) + ip);
    r := Ok(header + (question + answer));
  }

  /** Every length byte that the walk meets is that of a label, not of a pointer. */
  ghost predicate PlainWalk(query: Bytes, idx: nat)
    decreases |query| - idx
  {
    idx < |query| && query[idx] != 0 ==> query[idx] < 64 && PlainWalk(query, idx + query[idx] + 1)
  }

  lemma {:induction false} PlainWalkSkips(query: Bytes, idx: nat)
    requires PlainWalk(query, idx) && WalkName(query, idx).Ok? && WalkName(query, idx).value < |query|
    ensures SkipName(query, idx) == Some(WalkName(query, idx).value + 1)
    decreases |query| - idx
  {
    if query[idx] != 0 { PlainWalkSkips(query, idx + query[idx] + 1); }
  }

  lemma {:induction false} SoleQuestion(q: Question)
    requires q.name.Valid()
    ensures ValidQuestions([q]) && EncodeQuestions([q]) == EncodeQuestion(q)
  {
    assert EncodeQuestions([q]) == EncodeQuestion(q) + EncodeQuestions([q][1..]);
  }

  lemma {:induction false} SoleAnswer(ip: Bytes) returns (r: Record)
    requires |ip| == 4
    ensures r.Valid() && r.IsAddress() && r.rdata == ip
    ensures ValidRecords([r]) && EncodeRecords([r]) == AnswerBytes(ip) && FirstAddressRecord([r]) == Some(ip)
  {
    r := Record(Name([], Pointer(0xc0, 0x0c)), 1, 1, 60, ip);
    assert EncodeName(r.name) == [0xc0, 0x0c];
    assert EncodeRecords([r]) == EncodeRecord(r) + EncodeRecords([r][1..]);
  }

  lemma {:induction false} ResponseHeader(query: Bytes, body: Bytes)
    requires |query| >= 2
    ensures var b := ResponseHead(query) + body;
            && |b| >= 12 && At(b, 12, body)
            && ReadBe16(b, 0) == ReadBe16(query, 0) && ReadBe16(b, 2) == 0x8180
            && ReadBe16(b, 4) == 1 && ReadBe16(b, 6) == 1 && ReadBe16(b, 8) == 0 && ReadBe16(b, 10) == 0
  {
    var b := ResponseHead(query) + body;
    assert b[..12] == ResponseHead(query);
    assert b[12..12 + |body|] == body;
  }

  lemma {:induction false} ResponseLayout(query: Bytes, ip: Bytes) returns (q: Question, r: Record)
    requires |ip| == 4 && Response(query, ip).Ok? && PlainWalk(query, 12)
    ensures ValidQuestions([q]) && ValidRecords([r]) && FirstAddressRecord([r]) == Some(ip)
    ensures Response(query, ip).value ==
            ResponseHead(query) + (EncodeQuestions([q]) + EncodeRecords([r]))
  {
    q := QuestionOfQuery(query);
    r := SoleAnswer(ip);
    SoleQuestion(q);
    ResponseIs(query, ip);
  }

  lemma {:induction false} ResponseIs(query: Bytes, ip: Bytes)
    requires |ip| == 4 && Response(query, ip).Ok?
    ensures WalkName(query, 12).Ok? && WalkName(query, 12).value + 5 <= |query|
    ensures Response(query, ip).value ==
            ResponseHead(query) + (query[12..WalkName(query, 12).value + 5] + AnswerBytes(ip))
  {}

  /** What the response echoes is the first question of the query. */
  lemma {:induction false} QuestionOfQuery(query: Bytes) returns (q: Question)
    requires PlainWalk(query, 12) && WalkName(query, 12).Ok? && WalkName(query, 12).value + 5 <= |query|
    ensures q.name.Valid() && query[12..WalkName(query, 12).value + 5] == EncodeQuestion(q)
  {
    PlainWalkSkips(query, 12);
    q := SkippedIsQuestion(query, 12);
  }

  lemma {:induction false} LaidOutResponse(query: Bytes, q: Question, r: Record)
    requires |query| >= 2 && ValidQuestions([q]) && ValidRecords([r]) && FirstAddressRecord([r]).Some?
    ensures var b := ResponseHead(query) + (EncodeQuestions([q]) + EncodeRecords([r]));
            && FirstAddress(b) == FirstAddressRecord([r])
            && ParseResponse(b, ReadBe16(query, 0)) == Parsed(0, 1, 0, 0)
  {
    var body := EncodeQuestions([q]) + EncodeRecords([r]);
    ResponseHeader(query, body);
    ResponseParses(query, body);
    ExtractsFirstAddress(ResponseHead(query) + body, [q], [r]);
  }

  lemma {:induction false} ResponseParses(query: Bytes, body: Bytes)
    requires |query| >= 2
    ensures ParseResponse(ResponseHead(query) + body, ReadBe16(query, 0)) == Parsed(0, 1, 0, 0)
  {
    ResponseHeader(query, body);
  }

  /** Whatever query the server answers, the parser reports the query's id, no error and one answer. */
  lemma {:induction false} AnswerParses(query: Bytes, ip: Bytes)
    requires |ip| == 4 && Response(query, ip).Ok?
    ensures ParseResponse(Response(query, ip).value, ReadBe16(query, 0)) == Parsed(0, 1, 0, 0)
  {
    ResponseParses(query, query[12..WalkName(query, 12).value + 5] + AnswerBytes(ip));
  }

  /** If all length bytes of the name are below 64, the extractor finds the address in the response. */
  lemma {:induction false} AnswerComesBack(query: Bytes, ip: Bytes)
    requires |ip| == 4 && Response(query, ip).Ok? && PlainWalk(query, 12)
    ensures FirstAddress(Response(query, ip).value) == Some(ip)
    ensures ParseResponse(Response(query, ip).value, ReadBe16(query, 0)) == Parsed(0, 1, 0, 0)
  {
    var q, r := ResponseLayout(query, ip);
    LaidOutResponse(query, q, r);
  }

  /** The first length byte of the name that is not that of a label. */
  function OddByte(query: Bytes, idx: nat): Option<Byte>
    decreases |query| - idx
  {
    if idx < |query| && query[idx] != 0 then
      if query[idx] >= 64 then Some(query[idx]) else OddByte(query, idx + query[idx] + 1)
    else None
  }

  lemma {:induction false} PlainHasNone(query: Bytes, idx: nat)
    ensures OddByte(query, idx).None? <==> PlainWalk(query, idx)
    decreases |query| - idx
  {
    if idx < |query| && 0 < query[idx] < 64 { PlainHasNone(query, idx + query[idx] + 1); }
  }

  /** The extractor refuses to step over a length byte that the server stepped over. */
  lemma {:induction false} OddByteStops(query: Bytes, response: Bytes, idx: nat, end: nat)
    requires WalkName(query, idx) == Ok(end) && end <= |query| && end <= |response|
    requires forall k :: idx <= k < end ==> response[k] == query[k]
    requires OddByte(query, idx).Some? && OddByte(query, idx).value < 192
    ensures SkipName(response, idx) == None
    decreases |query| - idx
  {
    if query[idx] < 64 { OddByteStops(query, response, idx + query[idx] + 1, end); }
  }

  /**
    If the first length byte of the name that is not below 64 is not a pointer either, the server answers all
    the same, and the extractor finds nothing.
   */
  lemma {:induction false} AnswerIsLost(query: Bytes, ip: Bytes)
    requires |ip| == 4 && Response(query, ip).Ok?
    requires OddByte(query, 12).Some? && OddByte(query, 12).value < 192
    ensures FirstAddress(Response(query, ip).value) == None
  {
    var end := WalkName(query, 12).value;
    var body := query[12..end + 5] + AnswerBytes(ip);
    var response := Response(query, ip).value;
    ResponseHeader(query, body);
    AtEcho(query, ip, end);
    OddByteStops(query, response, 12, end);
  }

  /** Of names without a pointer, the extractor reads the answer exactly for those with length bytes below 64. */
  lemma {:induction false} AnswerIsRead(query: Bytes, ip: Bytes)
    requires |ip| == 4 && Response(query, ip).Ok?
    requires OddByte(query, 12).Some? ==> OddByte(query, 12).value < 192
    ensures FirstAddress(Response(query, ip).value) == if PlainWalk(query, 12) then Some(ip) else None
  {
    PlainHasNone(query, 12);
    if PlainWalk(query, 12) { AnswerComesBack(query, ip); } else { AnswerIsLost(query, ip); }
  }

  /** A name of one part of 64 bytes: the answer is lost. */
  lemma {:induction false} LongPartIsLost(header: Bytes, part: Bytes, ip: Bytes)
    requires |header| == 12 && |part| == 64 && |ip| == 4
    ensures var query := header + [64] + part + [0, 0, 1, 0, 1];
            Response(query, ip).Ok? && FirstAddress(Response(query, ip).value) == None
  {
    var query := header + [64] + part + [0, 0, 1, 0, 1];
    assert query[12] == 64 && query[77] == 0 && |query| == 82;
    assert WalkName(query, 77) == Ok(77);
    assert WalkName(query, 12) == WalkName(query, 77);
    assert OddByte(query, 12) == Some(64);
    AnswerIsLost(query, ip);
  }

  lemma {:induction false} AtEcho(query: Bytes, ip: Bytes, end: nat)
    requires 12 <= end && end + 5 <= |query| && |ip| == 4
    ensures var response := ResponseHead(query) + (query[12..end + 5] + AnswerBytes(ip));
            end <= |response| && forall k :: 12 <= k < end ==> response[k] == query[k]
  {
    assert |ResponseHead(query)| == 12;
  }

  lemma {:induction false} WalkEncodedLabels(packet: Bytes, offset: nat, labels: seq<Bytes>)
    requires forall i :: 0 <= i < |labels| ==> |labels[i]| <= 63
    requires At(packet, offset, EncodeLabels(labels)) && At(packet, offset + |EncodeLabels(labels)|, [0])
    ensures PlainWalk(packet, offset) && WalkName(packet, offset).Ok?
    ensures WalkName(packet, offset).value <= offset + |EncodeLabels(labels)|
    decreases |labels|
  {
    if labels == [] {
      AtByte(packet, offset, [0], 0);
    } else {
      FirstLabelAt(packet, offset, labels);
      if labels[0] != [] { WalkEncodedLabels(packet, offset + 1 + |labels[0]|, labels[1..]); }
    }
  }

  lemma {:induction false} FirstLabelAt(packet: Bytes, offset: nat, labels: seq<Bytes>)
    requires labels != [] && forall i :: 0 <= i < |labels| ==> |labels[i]| <= 63
    requires At(packet, offset, EncodeLabels(labels))
    ensures offset < |packet| && packet[offset] == |labels[0]| && offset + 1 + |labels[0]| <= |packet|
    ensures At(packet, offset + 1 + |labels[0]|, EncodeLabels(labels[1..]))
    ensures |EncodeLabels(labels)| == 1 + |labels[0]| + |EncodeLabels(labels[1..])|
  {
    var first := labels[0];
    AtJoin(packet, offset, [|first|] + first, EncodeLabels(labels[1..]));
    AtByte(packet, offset, [|first|] + first, 0);
  }

  lemma {:induction false} QueryIsPlain(id: U16, name: string, qtype: U16)
    requires BuildQuery(id, name, qtype).Ok?
    ensures var query := BuildQuery(id, name, qtype).value;
            && |query| >= 12 && ReadBe16(query, 0) == id && PlainWalk(query, 12)
            && WalkName(query, 12).Ok? && WalkName(query, 12).value + 5 <= |query|
  {
    var query := BuildQuery(id, name, qtype).value;
    var labels := LabelsOf(NameParts(name));
    var fixed := Be16(qtype) + Be16(1);
    assert query[12..] == (EncodeLabels(labels) + [0]) + fixed;
    assert At(query, 12, (EncodeLabels(labels) + [0]) + fixed);
    AtJoin(query, 12, EncodeLabels(labels) + [0], fixed);
    AtJoin(query, 12, EncodeLabels(labels), [0]);
    WalkEncodedLabels(query, 12, labels);
    assert query[..2] == Be16(id);
  }

  /**
    For every name that the encoder accepts, every query type, id and address: the response built on the
    built query carries that address, and the checker reports no error and one answer.
   */
  lemma {:induction false} RoundTrip(id: U16, name: string, qtype: U16, ip: Bytes)
    requires BuildQuery(id, name, qtype).Ok? && |ip| == 4
    ensures var response := Response(BuildQuery(id, name, qtype).value, ip);
            response.Ok? && FirstAddress(response.value) == Some(ip)
            && ParseResponse(response.value, id) == Parsed(0, 1, 0, 0)
  {
    QueryIsPlain(id, name, qtype);
    AnswerComesBack(BuildQuery(id, name, qtype).value, ip);
  }

  lemma {:induction false} StripDotsKeeps(s: string)
    requires s == [] || s[|s| - 1] != '.'
    ensures StripDots(s) == s && StripDots(s + ['.']) == s
  {
    assert (s + ['.'])[..|s|] == s;
  }

  /**
    A name of labels of 1 to 63 ASCII characters, with or without a final dot, is accepted and encoded label by
    label.
   */
  lemma {:induction false} OrdinaryNameIsAccepted(parts: seq<string>, name: string)
    requires parts != [] && AllLabels(parts)
    requires forall i :: 0 <= i < |parts| ==> parts[i] != [] && '.' !in parts[i]
    requires name == Join(parts, '.') || name == Join(parts, '.') + ['.']
    ensures NameParts(name) == parts
    ensures EncodedName(name) == Ok(EncodeName(Name(LabelsOf(parts), Root)))
  {
    SplitJoin(parts, '.');
    JoinEnds(parts);
    StripDotsKeeps(Join(parts, '.'));
  }

  lemma {:induction false} JoinEnds(parts: seq<string>)
    requires parts != [] && forall i :: 0 <= i < |parts| ==> parts[i] != [] && '.' !in parts[i]
    ensures Join(parts, '.') != [] && Join(parts, '.')[|Join(parts, '.')| - 1] != '.'
  {
    if |parts| == 1 {
      assert parts[0][|parts[0]| - 1] in parts[0];
    } else {
      JoinEnds(parts[1..]);
    }
  }

  // ----- the bytes of the two messages -----

  /** A query: the id, recursion desired, one question, the name, the type and the Internet class. */
  lemma {:induction false} QueryBytes(id: U16, name: string, qtype: U16)
    requires BuildQuery(id, name, qtype).Ok?
    ensures EncodedName(name).Ok?
    ensures BuildQuery(id, name, qtype).value ==
            [id / 256, id % 256, 1, 0, 0, 1, 0, 0, 0, 0, 0, 0] + EncodedName(name).value
            + [qtype / 256, qtype % 256, 0, 1]
  {
    var encoded := EncodedName(name).value;
    assert EncodeHeader(id, 0x0100, 1, 0, 0, 0) == [id / 256, id % 256, 1, 0, 0, 1, 0, 0, 0, 0, 0, 0];
    assert Be16(qtype) + Be16(1) == [qtype / 256, qtype % 256, 0, 1];
  }

  /** A response: the id, a recursive answer without error, the question, and an address that lives for a minute. */
  lemma {:induction false} ResponseBytes(query: Bytes, ip: Bytes)
    requires |ip| == 4 && Response(query, ip).Ok?
    ensures WalkName(query, 12).Ok? && 12 <= WalkName(query, 12).value + 5 <= |query|
    ensures Response(query, ip).value ==
            [query[0], query[1], 0x81, 0x80, 0, 1, 0, 1, 0, 0, 0, 0] + query[12..WalkName(query, 12).value + 5]
            + [0xc0, 0x0c, 0, 1, 0, 1, 0, 0, 0, 60, 0, 4] + ip
  {
    ResponseIs(query, ip);
    var question := query[12..WalkName(query, 12).value + 5];
    assert ResponseHead(query) == [query[0], query[1], 0x81, 0x80, 0, 1, 0, 1, 0, 0, 0, 0];
    assert RecordHead(1, 1, 60, 4) == [0, 1, 0, 1, 0, 0, 0, 60, 0, 4];
    assert AnswerBytes(ip) == [0xc0, 0x0c, 0, 1, 0, 1, 0, 0, 0, 60, 0, 4] + ip;
  }

  /** What the parser reads: the id in bytes 0 and 1, the low half of byte 3, and the counts in bytes 6 to 11. */
  lemma {:induction false} ParsedBytes(data: Bytes, id: U16)
    ensures ParseResponse(data, id).ShortResponse? <==> |data| < 12
    ensures |data| >= 12 && [data[0], data[1]] != [id / 256, id % 256] ==> ParseResponse(data, id) == IdMismatch
    ensures |data| >= 12 && [data[0], data[1]] == [id / 256, id % 256] ==>
              ParseResponse(data, id) ==
              Parsed(data[3] % 16, Pair(data, 6), Pair(data, 8), Pair(data, 10))
  {
    if |data| >= 12 {
      ByteByByte(data[0], data[1], id);
      assert ReadBe16(data, 2) == Pair(data, 2);
      LowHalf(data[2], data[3]);
    }
  }

  /** Two bytes, the first for the 256s. */
  function Pair(data: Bytes, at: nat): nat
    requires at + 2 <= |data|
  {
    data[at] as nat * 256 + data[at + 1] as nat
  }

  lemma {:induction false} LowHalf(hi: nat, lo: nat)
    ensures (hi * 256 + lo) % 16 == lo % 16
  {
    assert hi * 256 + lo == 16 * (hi * 16) + lo;
  }

  lemma {:induction false} ByteByByte(hi: Byte, lo: Byte, n: U16)
    ensures hi as nat * 256 + lo as nat == n <==> [hi, lo] == [n / 256, n % 256]
  {
    if [hi, lo] == [n / 256, n % 256] { assert [hi, lo][0] == n / 256 && [hi, lo][1] == n % 256; }
  }

  /**
    When the server gives no answer: a query without a header, a name that runs out of it, or no room for type
    and class.
   */
  lemma {:induction false} NoAnswer(query: Bytes, ip: Bytes)
    requires |ip| == 4
    ensures Response(query, ip) == Err(QueryTooShort) <==> |query| < 12
    ensures Response(query, ip) == Err(NameExceedsPacket) <==> |query| >= 12 && RunsOut(query, 12)
    ensures Response(query, ip) == Err(QuestionExceedsPacket) <==>
            |query| >= 12 && !RunsOut(query, 12) && WalkName(query, 12).Ok? && WalkName(query, 12).value + 5 > |query|
  {
    RunsOutExactly(query, 12);
  }

  /** A length byte of the name counts more bytes than there are. */
  predicate RunsOut(query: Bytes, idx: nat)
    decreases |query| - idx
  {
    idx < |query| && query[idx] != 0 &&
    (|query| - idx <= query[idx] || RunsOut(query, idx + 1 + query[idx]))
  }

  lemma {:induction false} RunsOutExactly(query: Bytes, idx: nat)
    ensures WalkName(query, idx) == Err(NameExceedsPacket) <==> RunsOut(query, idx)
    ensures WalkName(query, idx).Err? ==> WalkName(query, idx) == Err(NameExceedsPacket)
    decreases |query| - idx
  {
    if idx < |query| && query[idx] != 0 && idx + query[idx] + 1 <= |query| {
      RunsOutExactly(query, idx + query[idx] + 1);
    }
  }
}
