/** The DNS message builders and walkers of scripts/check_dns.py and scripts/dns_lab_harness.py. */
module Dns {
  import opened Common

  type Bytes = seq<Byte>

  type U32 = n: nat | n < 0x1_0000_0000

  datatype DnsError =
    | NotAscii
    | LabelTooLong
    | QueryTooShort
    | NameExceedsPacket
    | QuestionExceedsPacket

  // ----- big-endian integers -----

  function Be16(n: U16): Bytes { [n / 256, n % 256] }

  function Be32(n: U32): Bytes { Be16(n / 0x1_0000) + Be16(n % 0x1_0000) }

  function ReadBe16(b: Bytes, at: nat): U16
    requires at + 2 <= |b|
  {
    var hi: nat, lo: nat := b[at], b[at + 1];
    hi * 256 + lo
  }

  function ReadBe32(b: Bytes, at: nat): U32
    requires at + 4 <= |b|
  {
    ReadBe16(b, at) * 0x1_0000 + ReadBe16(b, at + 2)
  }

  // ----- the message format, section 4.1 of RFC 1035 -----

  /** A name ends with the root label or with a pointer, section 4.1.4. */
  datatype NameEnd = Root | Pointer(hi: Byte, lo: Byte)

  datatype Name = Name(labels: seq<Bytes>, end: NameEnd) {
    ghost predicate Valid() {
      && (forall i :: 0 <= i < |labels| ==> 1 <= |labels[i]| <= 63)
      && (end.Pointer? ==> end.hi >= 192)
    }
  }

  datatype Question = Question(name: Name, qtype: U16, qclass: U16)

  datatype Record = Record(name: Name, rtype: U16, rclass: U16, ttl: U32, rdata: Bytes) {
    ghost predicate Valid() { name.Valid() && |rdata| < 0x1_0000 }

    predicate IsAddress() { rtype == 1 && |rdata| == 4 }
  }

  function EncodeLabels(labels: seq<Bytes>): Bytes
    requires forall i :: 0 <= i < |labels| ==> |labels[i]| <= 63
  {
    if labels == [] then [] else [|labels[0]|] + labels[0] + EncodeLabels(labels[1..])
  }

  function EncodeEnd(e: NameEnd): Bytes {
    match e
    case Root => [0]
    case Pointer(hi, lo) => [hi, lo]
  }

  ghost function EncodeName(n: Name): Bytes
    requires n.Valid()
  {
    EncodeLabels(n.labels) + EncodeEnd(n.end)
  }

  ghost function EncodeQuestion(q: Question): Bytes
    requires q.name.Valid()
  {
    EncodeName(q.name) + (Be16(q.qtype) + Be16(q.qclass))
  }

  function RecordHead(rtype: U16, rclass: U16, ttl: U32, rdlength: U16): Bytes {
    Be16(rtype) + Be16(rclass) + Be32(ttl) + Be16(rdlength)
  }

  ghost function EncodeRecord(r: Record): Bytes
    requires r.Valid()
  {
    EncodeName(r.name) + (RecordHead(r.rtype, r.rclass, r.ttl, |r.rdata|) + r.rdata)
  }

  ghost predicate ValidQuestions(qs: seq<Question>) { forall i :: 0 <= i < |qs| ==> qs[i].name.Valid() }

  ghost predicate ValidRecords(rs: seq<Record>) { forall i :: 0 <= i < |rs| ==> rs[i].Valid() }

  ghost function EncodeQuestions(qs: seq<Question>): Bytes
    requires ValidQuestions(qs)
  {
    if qs == [] then [] else EncodeQuestion(qs[0]) + EncodeQuestions(qs[1..])
  }

  ghost function EncodeRecords(rs: seq<Record>): Bytes
    requires ValidRecords(rs)
  {
    if rs == [] then [] else EncodeRecord(rs[0]) + EncodeRecords(rs[1..])
  }

  function EncodeHeader(id: U16, flags: U16, qd: U16, an: U16, ns: U16, ar: U16): Bytes {
    Be16(id) + Be16(flags) + Be16(qd) + Be16(an) + Be16(ns) + Be16(ar)
  }

  /** The part is found in the packet at the offset. */
  predicate At(packet: Bytes, offset: nat, part: Bytes) {
    offset + |part| <= |packet| && packet[offset..offset + |part|] == part
  }

  /**
    The bytes are a header that counts these questions and at least these answers, followed by exactly
    these questions, these answers, and anything.
   */
  ghost predicate Layout(b: Bytes, qs: seq<Question>, rs: seq<Record>)
    requires ValidQuestions(qs) && ValidRecords(rs)
  {
    && |b| >= 12 && ReadBe16(b, 4) == |qs| && ReadBe16(b, 6) >= |rs|
    && At(b, 12, EncodeQuestions(qs) + EncodeRecords(rs))
  }

  /** The data of the first type-1 record of four bytes. */
  function FirstAddressRecord(rs: seq<Record>): Option<Bytes> {
    if rs == [] then None
    else if rs[0].IsAddress() then Some(rs[0].rdata)
    else FirstAddressRecord(rs[1..])
  }

  // ----- the walkers of the lab harness -----

  /** Where a name ends. The source tests the top two bits of the length: both set from 192 on, any set from 64 on. */
  function SkipName(packet: Bytes, offset: nat): (end: Option<nat>)
    ensures end.Some? ==> offset < end.value <= |packet|
    decreases |packet| - offset
  {
    if offset >= |packet| then None
    else
      var length := packet[offset];
      if length == 0 then Some(offset + 1)
      else if length >= 192 then (if offset + 2 <= |packet| then Some(offset + 2) else None)
      else if length >= 64 then None
      else if offset + 1 + length > |packet| then None
      else SkipName(packet, offset + 1 + length)
  }

  function SkipQuestions(packet: Bytes, offset: nat, count: nat): (end: Option<nat>)
    ensures end.Some? && count > 0 ==> offset < end.value <= |packet|
    decreases count
  {
    if count == 0 then Some(offset)
    else match SkipName(packet, offset)
      case None => None
      case Some(at) => if at + 4 > |packet| then None else SkipQuestions(packet, at + 4, count - 1)
  }

  function AddressFrom(packet: Bytes, offset: nat, count: nat): (r: Option<Bytes>)
    ensures r.Some? ==> |r.value| == 4
    decreases count
  {
    if offset >= |packet| || count == 0 then None
    else match SkipName(packet, offset)
      case None => None
      case Some(at) =>
        if at + 10 > |packet| then None
        else
          var rtype, rdlength := ReadBe16(packet, at), ReadBe16(packet, at + 8);
          if at + 10 + rdlength > |packet| then None
          else if rtype == 1 && rdlength == 4 then Some(packet[at + 10..at + 14])
          else AddressFrom(packet, at + 10 + rdlength, count - 1)
  }

  function FirstAddress(response: Bytes): Option<Bytes> {
    if |response| < 12 || ReadBe16(response, 6) < 1 then None
    else match SkipQuestions(response, 12, ReadBe16(response, 4))
      case None => None
      case Some(at) => AddressFrom(response, at, ReadBe16(response, 6))
  }

  method SkipDnsName(packet: Bytes, start: nat) returns (r: Option<nat>)
    ensures r == SkipName(packet, start)
  {
    var offset := start;
    while true
      invariant SkipName(packet, offset) == SkipName(packet, start)
      decreases |packet| - offset
    {
      if offset >= |packet| { return None; }
      var length := packet[offset];
      if length == 0 { return Some(offset + 1); }
      if length >= 192 { return if offset + 2 <= |packet| then Some(offset + 2) else None; }
      if length >= 64 { return None; }
      offset := offset + 1;
      if offset + length > |packet| { return None; }
      offset := offset + length;
    }
  }

  /** The question loop of the extractor. */
  method SkipDnsQuestions(response: Bytes, qd: nat) returns (r: Option<nat>)
    ensures r == SkipQuestions(response, 12, qd)
  {
    var offset: nat := 12;
    for i := 0 to qd
      invariant SkipQuestions(response, offset, qd - i) == SkipQuestions(response, 12, qd)
    {
      var end := SkipDnsName(response, offset);
      if end.None? || end.value + 4 > |response| { return None; }
      offset := end.value + 4;
    }
    r := Some(offset);
  }

  method ExtractFirstAIpv4(response: Bytes) returns (r: Option<Bytes>)
    ensures r == FirstAddress(response)
  {
    if |response| < 12 { return None; }
    var qd, an := ReadBe16(response, 4), ReadBe16(response, 6);
    if an < 1 { return None; }
    var start := SkipDnsQuestions(response, qd);
    if start.None? { return None; }
    var offset: nat, left: nat := start.value, an;
    while offset < |response| && left > 0
      invariant AddressFrom(response, offset, left) == AddressFrom(response, start.value, an)
      decreases left
    {
      var end := SkipDnsName(response, offset);
      if end.None? { return None; }
      offset := end.value;
      if offset + 10 > |response| { return None; }
      var rtype, rdlength := ReadBe16(response, offset), ReadBe16(response, offset + 8);
      offset := offset + 10;
      if offset + rdlength > |response| { return None; }
      if rtype == 1 && rdlength == 4 && offset + 4 <= |response| { return Some(response[offset..offset + 4]); }
      offset := offset + rdlength;
      left := left - 1;
    }
    r := None;
  }

  // ----- parts of a packet -----

  lemma {:induction false} AtJoin(packet: Bytes, offset: nat, a: Bytes, b: Bytes)
    ensures At(packet, offset, a + b) <==> At(packet, offset, a) && At(packet, offset + |a|, b)
  {
    var end := offset + |a| + |b|;
    if end <= |packet| {
      assert packet[offset..end] == packet[offset..offset + |a|] + packet[offset + |a|..end];
      if packet[offset..end] == a + b {
        assert packet[offset..end][..|a|] == a && packet[offset..end][|a|..] == b;
      }
    }
  }

  lemma {:induction false} AtByte(packet: Bytes, offset: nat, part: Bytes, i: nat)
    requires At(packet, offset, part) && i < |part|
    ensures packet[offset + i] == part[i]
  {
    assert packet[offset..offset + |part|][i] == part[i];
  }

  lemma {:induction false} AtBe16(packet: Bytes, offset: nat, n: U16)
    ensures At(packet, offset, Be16(n)) <==> offset + 2 <= |packet| && ReadBe16(packet, offset) == n
  {
    if offset + 2 <= |packet| {
      assert packet[offset..offset + 2] == [packet[offset], packet[offset + 1]];
      assert Be16(n) == [n / 256, n % 256];
    }
  }

  lemma {:induction false} AtBe32(packet: Bytes, offset: nat, n: U32)
    ensures At(packet, offset, Be32(n)) <==> offset + 4 <= |packet| && ReadBe32(packet, offset) == n
  {
    AtJoin(packet, offset, Be16(n / 0x1_0000), Be16(n % 0x1_0000));
    AtBe16(packet, offset, n / 0x1_0000);
    AtBe16(packet, offset + 2, n % 0x1_0000);
  }

  lemma {:induction false} AtHead(packet: Bytes, at: nat, rtype: U16, rclass: U16, ttl: U32, rdlength: U16)
    ensures At(packet, at, RecordHead(rtype, rclass, ttl, rdlength)) <==>
            at + 10 <= |packet| && ReadBe16(packet, at) == rtype && ReadBe16(packet, at + 2) == rclass
            && ReadBe32(packet, at + 4) == ttl && ReadBe16(packet, at + 8) == rdlength
  {
    AtJoin(packet, at, Be16(rtype) + Be16(rclass) + Be32(ttl), Be16(rdlength));
    AtJoin(packet, at, Be16(rtype) + Be16(rclass), Be32(ttl));
    AtJoin(packet, at, Be16(rtype), Be16(rclass));
    AtBe16(packet, at, rtype);
    AtBe16(packet, at + 2, rclass);
    AtBe32(packet, at + 4, ttl);
    AtBe16(packet, at + 8, rdlength);
  }

  lemma {:induction false} AtRecord(packet: Bytes, offset: nat, r: Record)
    requires r.Valid()
    ensures var at := offset + |EncodeName(r.name)|;
            At(packet, offset, EncodeRecord(r)) <==>
              At(packet, offset, EncodeName(r.name)) && At(packet, at, RecordHead(r.rtype, r.rclass, r.ttl, |r.rdata|))
              && At(packet, at + 10, r.rdata)
    ensures |EncodeRecord(r)| == |EncodeName(r.name)| + 10 + |r.rdata|
  {
    var head := RecordHead(r.rtype, r.rclass, r.ttl, |r.rdata|);
    AtJoin(packet, offset, EncodeName(r.name), head + r.rdata);
    AtJoin(packet, offset + |EncodeName(r.name)|, head, r.rdata);
  }

  lemma {:induction false} AtQuestion(packet: Bytes, offset: nat, q: Question)
    requires q.name.Valid()
    ensures var at := offset + |EncodeName(q.name)|;
            At(packet, offset, EncodeQuestion(q)) <==>
              At(packet, offset, EncodeName(q.name)) && At(packet, at, Be16(q.qtype))
                && At(packet, at + 2, Be16(q.qclass))
    ensures |EncodeQuestion(q)| == |EncodeName(q.name)| + 4
  {
    AtJoin(packet, offset, EncodeName(q.name), Be16(q.qtype) + Be16(q.qclass));
    AtJoin(packet, offset + |EncodeName(q.name)|, Be16(q.qtype), Be16(q.qclass));
  }

  /** A name is its first label, with the length in front, and the name without it. */
  lemma {:induction false} NamePeels(first: Bytes, rest: Name)
    requires rest.Valid() && 1 <= |first| <= 63
    ensures Name([first] + rest.labels, rest.end).Valid()
    ensures EncodeName(Name([first] + rest.labels, rest.end)) == ([|first|] + first) + EncodeName(rest)
  {
    assert ([first] + rest.labels)[1..] == rest.labels;
  }

  // ----- the walkers accept the message format -----

  lemma {:induction false} SkipEncodedName(packet: Bytes, offset: nat, n: Name)
    requires n.Valid() && At(packet, offset, EncodeName(n))
    ensures SkipName(packet, offset) == Some(offset + |EncodeName(n)|)
    decreases |n.labels|
  {
    if n.labels == [] {
      SkipEncodedEnd(packet, offset, n);
    } else {
      var first, rest := n.labels[0], Name(n.labels[1..], n.end);
      FirstLabelOfName(packet, offset, n, first, rest);
      SkipEncodedName(packet, offset + 1 + |first|, rest);
    }
  }

  lemma {:induction false} SkipEncodedEnd(packet: Bytes, offset: nat, n: Name)
    requires n.Valid() && n.labels == [] && At(packet, offset, EncodeName(n))
    ensures SkipName(packet, offset) == Some(offset + |EncodeName(n)|)
  {
    AtByte(packet, offset, EncodeName(n), 0);
  }

  lemma {:induction false} FirstLabelOfName(packet: Bytes, offset: nat, n: Name, first: Bytes, rest: Name)
    requires n.Valid() && n.labels != [] && first == n.labels[0] && rest == Name(n.labels[1..], n.end)
    requires At(packet, offset, EncodeName(n))
    ensures rest.Valid() && offset < |packet| && packet[offset] == |first| && 1 <= |first| <= 63
    ensures offset + 1 + |first| <= |packet| && At(packet, offset + 1 + |first|, EncodeName(rest))
    ensures |EncodeName(n)| == 1 + |first| + |EncodeName(rest)|
  {
    assert n.labels == [first] + rest.labels;
    NamePeels(first, rest);
    AtByte(packet, offset, EncodeName(n), 0);
    AtJoin(packet, offset, [|first|] + first, EncodeName(rest));
  }

  lemma {:induction false} SkipEncodedQuestion(packet: Bytes, offset: nat, q: Question, next: nat)
    requires q.name.Valid() && At(packet, offset, EncodeQuestion(q)) && next == offset + |EncodeQuestion(q)|
    ensures SkipName(packet, offset).Some? && SkipName(packet, offset).value + 4 == next <= |packet|
  {
    AtQuestion(packet, offset, q);
    SkipEncodedName(packet, offset, q.name);
  }

  lemma {:induction false} SkipEncodedQuestions(packet: Bytes, offset: nat, qs: seq<Question>, end: nat)
    requires ValidQuestions(qs) && At(packet, offset, EncodeQuestions(qs)) && end == offset + |EncodeQuestions(qs)|
    ensures SkipQuestions(packet, offset, |qs|) == Some(end)
    decreases |qs|
  {
    if qs == [] {
      assert EncodeQuestions(qs) == [];
    } else {
      var q, next, rest := SplitQuestions(packet, offset, qs);
      SkipEncodedQuestion(packet, offset, q, next);
      SkipEncodedQuestions(packet, next, rest, end);
    }
  }

  /** The record is encoded between the two offsets. */
  ghost predicate RecordAt(packet: Bytes, offset: nat, r: Record, next: nat) {
    r.Valid() && At(packet, offset, EncodeRecord(r)) && next == offset + |EncodeRecord(r)|
  }

  /** One step of the answer loop on an encoded record. */
  lemma {:induction false} RecordStep(packet: Bytes, offset: nat, r: Record, next: nat, count: nat)
    requires RecordAt(packet, offset, r, next) && count > 0
    ensures AddressFrom(packet, offset, count) ==
              if r.IsAddress() then Some(r.rdata) else AddressFrom(packet, next, count - 1)
  {
    var at := offset + |EncodeName(r.name)|;
    AtRecord(packet, offset, r);
    SkipEncodedName(packet, offset, r.name);
    AtHead(packet, at, r.rtype, r.rclass, r.ttl, |r.rdata|);
    AddressStep(packet, offset, count, at);
  }

  /** One step of the answer loop, where the record ends within the packet. */
  lemma {:induction false} AddressStep(packet: Bytes, offset: nat, count: nat, at: nat)
    requires count > 0 && SkipName(packet, offset) == Some(at)
    requires at + 10 <= |packet| && at + 10 + ReadBe16(packet, at + 8) <= |packet|
    ensures AddressFrom(packet, offset, count) ==
            if ReadBe16(packet, at) == 1 && ReadBe16(packet, at + 8) == 4 then Some(packet[at + 10..at + 14])
            else AddressFrom(packet, at + 10 + ReadBe16(packet, at + 8), count - 1)
  {}

  /** Where an address is found, the first record ends within the packet. */
  lemma {:induction false} FoundWithin(packet: Bytes, offset: nat, count: nat)
    requires AddressFrom(packet, offset, count).Some?
    ensures count > 0 && SkipName(packet, offset).Some?
    ensures var at := SkipName(packet, offset).value;
            at + 10 <= |packet| && at + 10 + ReadBe16(packet, at + 8) <= |packet|
  {}

  /** Several encoded records are the first of them and the others. */
  lemma {:induction false} SplitRecords(packet: Bytes, offset: nat, rs: seq<Record>)
    returns (r: Record, next: nat, rest: seq<Record>)
    requires rs != [] && ValidRecords(rs) && At(packet, offset, EncodeRecords(rs))
    ensures r == rs[0] && rest == rs[1..] && RecordAt(packet, offset, r, next)
    ensures ValidRecords(rest) && At(packet, next, EncodeRecords(rest))
  {
    r, rest := rs[0], rs[1..];
    next := offset + |EncodeRecord(r)|;
    AtJoin(packet, offset, EncodeRecord(r), EncodeRecords(rest));
  }

  lemma {:induction false} SplitQuestions(packet: Bytes, offset: nat, qs: seq<Question>)
    returns (q: Question, next: nat, rest: seq<Question>)
    requires qs != [] && ValidQuestions(qs) && At(packet, offset, EncodeQuestions(qs))
    ensures q == qs[0] && rest == qs[1..] && q.name.Valid()
    ensures At(packet, offset, EncodeQuestion(q)) && next == offset + |EncodeQuestion(q)|
    ensures ValidQuestions(rest) && At(packet, next, EncodeQuestions(rest))
    ensures offset + |EncodeQuestions(qs)| == next + |EncodeQuestions(rest)|
  {
    q, rest := qs[0], qs[1..];
    next := offset + |EncodeQuestion(q)|;
    AtJoin(packet, offset, EncodeQuestion(q), EncodeQuestions(rest));
  }

  lemma {:induction false} AddressFromEncodedRecords(packet: Bytes, offset: nat, rs: seq<Record>, count: nat)
    requires ValidRecords(rs) && count >= |rs| && At(packet, offset, EncodeRecords(rs))
    ensures FirstAddressRecord(rs).Some? || count == |rs| ==>
              AddressFrom(packet, offset, count) == FirstAddressRecord(rs)
    decreases |rs|
  {
    if rs != [] {
      var found, next, rest := FirstRecordStep(packet, offset, rs, count);
      if found.None? { AddressFromEncodedRecords(packet, next, rest, count - 1); }
    }
  }

  /** The answer loop on the first of several encoded records: the address it finds, or where it goes on. */
  lemma {:induction false} FirstRecordStep(packet: Bytes, offset: nat, rs: seq<Record>, count: nat)
    returns (found: Option<Bytes>, next: nat, rest: seq<Record>)
    requires rs != [] && ValidRecords(rs) && count > 0 && At(packet, offset, EncodeRecords(rs))
    ensures |rest| == |rs| - 1 && ValidRecords(rest) && At(packet, next, EncodeRecords(rest))
    ensures FirstAddressRecord(rs) == if found.Some? then found else FirstAddressRecord(rest)
    ensures AddressFrom(packet, offset, count) == if found.Some? then found else AddressFrom(packet, next, count - 1)
  {
    var r: Record;
    r, next, rest := SplitRecords(packet, offset, rs);
    RecordStep(packet, offset, r, next, count);
    found := if r.IsAddress() then Some(r.rdata) else None;
  }

  /**
    On every well-formed message the extractor returns the first address among the counted answers, or
    nothing if there is none. An address among the first answers is found whatever follows them.
   */
  lemma {:induction false} ExtractsFirstAddress(b: Bytes, qs: seq<Question>, rs: seq<Record>)
    requires ValidQuestions(qs) && ValidRecords(rs) && Layout(b, qs, rs)
    ensures FirstAddressRecord(rs).Some? || ReadBe16(b, 6) == |rs| ==> FirstAddress(b) == FirstAddressRecord(rs)
  {
    var at, an := 12 + |EncodeQuestions(qs)|, ReadBe16(b, 6);
    AtJoin(b, 12, EncodeQuestions(qs), EncodeRecords(rs));
    SkipEncodedQuestions(b, 12, qs, at);
    assert FirstAddress(b) == if an < 1 then None else AddressFrom(b, at, an);
    AddressFromEncodedRecords(b, at, rs, an);
  }

  // ----- and conversely, whatever the walkers accept has that format -----

  lemma {:induction false} SkippedIsName(packet: Bytes, offset: nat) returns (n: Name)
    requires SkipName(packet, offset).Some?
    ensures n.Valid() && At(packet, offset, EncodeName(n)) && SkipName(packet, offset).value == offset + |EncodeName(n)|
    decreases |packet| - offset
  {
    var length := packet[offset];
    if length == 0 || length >= 192 {
      n := SkippedIsEnd(packet, offset);
    } else {
      var at := offset + 1 + length;
      var rest := SkippedIsName(packet, at);
      var first := packet[offset + 1..at];
      ConsLabel(packet, offset, first, rest);
      n := Name([first] + rest.labels, rest.end);
    }
  }

  lemma {:induction false} SkippedIsEnd(packet: Bytes, offset: nat) returns (n: Name)
    requires SkipName(packet, offset).Some? && (packet[offset] == 0 || packet[offset] >= 192)
    ensures n.Valid() && At(packet, offset, EncodeName(n)) && SkipName(packet, offset).value == offset + |EncodeName(n)|
  {
    if packet[offset] == 0 {
      n := Name([], Root);
      assert packet[offset..offset + 1] == [0] == EncodeName(n);
    } else {
      n := Name([], Pointer(packet[offset], packet[offset + 1]));
      assert packet[offset..offset + 2] == [packet[offset], packet[offset + 1]] == EncodeName(n);
    }
  }

  lemma {:induction false} ConsLabel(packet: Bytes, offset: nat, first: Bytes, rest: Name)
    requires rest.Valid() && 1 <= |first| <= 63 && offset < |packet| && packet[offset] == |first|
    requires At(packet, offset + 1, first) && At(packet, offset + 1 + |first|, EncodeName(rest))
    ensures Name([first] + rest.labels, rest.end).Valid()
    ensures At(packet, offset, EncodeName(Name([first] + rest.labels, rest.end)))
    ensures |EncodeName(Name([first] + rest.labels, rest.end))| == 1 + |first| + |EncodeName(rest)|
  {
    NamePeels(first, rest);
    AtJoin(packet, offset, [|first|], first);
    AtJoin(packet, offset, [|first|] + first, EncodeName(rest));
  }

  lemma {:induction false} SkippedIsQuestion(packet: Bytes, offset: nat) returns (q: Question)
    requires SkipName(packet, offset).Some? && SkipName(packet, offset).value + 4 <= |packet|
    ensures q.name.Valid() && At(packet, offset, EncodeQuestion(q))
    ensures SkipName(packet, offset).value + 4 == offset + |EncodeQuestion(q)|
  {
    var n := SkippedIsName(packet, offset);
    var at := SkipName(packet, offset).value;
    q := Question(n, ReadBe16(packet, at), ReadBe16(packet, at + 2));
    AtBe16(packet, at, q.qtype);
    AtBe16(packet, at + 2, q.qclass);
    AtQuestion(packet, offset, q);
  }

  lemma {:induction false} ConsQuestions(packet: Bytes, offset: nat, q: Question, more: seq<Question>)
    requires q.name.Valid() && ValidQuestions(more)
    requires At(packet, offset, EncodeQuestion(q)) && At(packet, offset + |EncodeQuestion(q)|, EncodeQuestions(more))
    ensures ValidQuestions([q] + more) && At(packet, offset, EncodeQuestions([q] + more))
    ensures |EncodeQuestions([q] + more)| == |EncodeQuestion(q)| + |EncodeQuestions(more)|
  {
    assert ([q] + more)[1..] == more;
    AtJoin(packet, offset, EncodeQuestion(q), EncodeQuestions(more));
  }

  lemma {:induction false} SkippedAreQuestions(packet: Bytes, offset: nat, count: nat) returns (qs: seq<Question>)
    requires offset <= |packet| && SkipQuestions(packet, offset, count).Some?
    ensures |qs| == count && ValidQuestions(qs) && At(packet, offset, EncodeQuestions(qs))
    ensures SkipQuestions(packet, offset, count).value == offset + |EncodeQuestions(qs)|
    decreases count
  {
    if count == 0 {
      qs := [];
    } else {
      var q := SkippedIsQuestion(packet, offset);
      var more := SkippedAreQuestions(packet, offset + |EncodeQuestion(q)|, count - 1);
      ConsQuestions(packet, offset, q, more);
      qs := [q] + more;
    }
  }

  /** Where an address is found, the bytes are a record to begin with. */
  lemma {:induction false} SkippedIsRecord(packet: Bytes, offset: nat, count: nat) returns (r: Record, next: nat)
    requires AddressFrom(packet, offset, count).Some?
    ensures count > 0 && RecordAt(packet, offset, r, next)
    ensures AddressFrom(packet, offset, count) ==
            if r.IsAddress() then Some(r.rdata) else AddressFrom(packet, next, count - 1)
  {
    FoundWithin(packet, offset, count);
    r := RecordBetween(packet, offset);
    next := offset + |EncodeRecord(r)|;
    RecordStep(packet, offset, r, next, count);
  }

  lemma {:induction false} RecordBetween(packet: Bytes, offset: nat) returns (r: Record)
    requires SkipName(packet, offset).Some?
    requires var at := SkipName(packet, offset).value;
             at + 10 <= |packet| && at + 10 + ReadBe16(packet, at + 8) <= |packet|
    ensures r.Valid() && At(packet, offset, EncodeRecord(r))
  {
    var n := SkippedIsName(packet, offset);
    var at := SkipName(packet, offset).value;
    var rdata := packet[at + 10..at + 10 + ReadBe16(packet, at + 8)];
    r := Record(n, ReadBe16(packet, at), ReadBe16(packet, at + 2), ReadBe32(packet, at + 4), rdata);
    assert At(packet, at + 10, rdata);
    AtHead(packet, at, r.rtype, r.rclass, r.ttl, |r.rdata|);
    AtRecord(packet, offset, r);
  }

  lemma {:induction false} FoundAmongRecords(packet: Bytes, offset: nat, count: nat) returns (rs: seq<Record>)
    requires AddressFrom(packet, offset, count).Some?
    ensures |rs| <= count && ValidRecords(rs) && At(packet, offset, EncodeRecords(rs))
    ensures FirstAddressRecord(rs) == AddressFrom(packet, offset, count)
    decreases count
  {
    var r, next := SkippedIsRecord(packet, offset, count);
    var more: seq<Record> := [];
    if r.IsAddress() {
      NoRecords(packet, next);
    } else {
      more := FoundAmongRecords(packet, next, count - 1);
    }
    rs := ConsRecords(packet, offset, r, next, more);
  }

  lemma {:induction false} NoRecords(packet: Bytes, offset: nat)
    requires offset <= |packet|
    ensures At(packet, offset, EncodeRecords([]))
  {}

  lemma {:induction false} ConsRecords(packet: Bytes, offset: nat, r: Record, next: nat, more: seq<Record>)
    returns (rs: seq<Record>)
    requires RecordAt(packet, offset, r, next) && ValidRecords(more) && At(packet, next, EncodeRecords(more))
    ensures |rs| == |more| + 1 && ValidRecords(rs) && At(packet, offset, EncodeRecords(rs))
    ensures FirstAddressRecord(rs) == if r.IsAddress() then Some(r.rdata) else FirstAddressRecord(more)
  {
    rs := [r] + more;
    assert rs[1..] == more;
    AtJoin(packet, offset, EncodeRecord(r), EncodeRecords(more));
  }

  /**
    Whenever the extractor returns an address, the bytes are a message whose counted answers have it as their
    first.
   */
  lemma {:induction false} ExtractedIsFirstAddress(b: Bytes) returns (qs: seq<Question>, rs: seq<Record>)
    requires FirstAddress(b).Some?
    ensures ValidQuestions(qs) && ValidRecords(rs) && Layout(b, qs, rs)
    ensures FirstAddressRecord(rs) == FirstAddress(b)
  {
    qs := SkippedAreQuestions(b, 12, ReadBe16(b, 4));
    rs := FoundAmongRecords(b, 12 + |EncodeQuestions(qs)|, ReadBe16(b, 6));
    AtJoin(b, 12, EncodeQuestions(qs), EncodeRecords(rs));
  }
}
