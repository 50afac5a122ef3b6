/** What holds of the batch packet buffer over every sequence of calls. */
module IngressRuns {
  import opened Common
  import opened Ingress

  datatype Op =
    | Push(packet: Packet)
    | Fill(slots: nat)
    | Send(refs: seq<PacketRef>)
    | Pop

  ghost function Step(size: nat, s: State, op: Op): State {
    match op
    case Push(packet) => AfterPush(size, s, packet)
    case Fill(slots) => AfterFill(s, slots)
    case Send(refs) => AfterSend(size, s, refs)
    case Pop => AfterPop(s)
  }

  ghost function Run(size: nat, ops: seq<Op>): State {
    if ops == [] then State([], [], []) else Step(size, Run(size, Earlier(ops)), Latest(ops))
  }

  /** The packets accepted by the receive side, in order. */
  function Pushed(size: nat, ops: seq<Op>): seq<Packet> {
    if ops == [] then []
    else match Latest(ops)
      case Push(packet) => Pushed(size, Earlier(ops)) + (if Accepted(size, packet) then [packet] else [])
      case _ => Pushed(size, Earlier(ops))
  }

  /** The batches returned by the fills, end to end. */
  ghost function Delivered(size: nat, ops: seq<Op>): seq<Packet> {
    if ops == [] then []
    else if Latest(ops).Fill? && Latest(ops).slots > 0 then Delivered(size, Earlier(ops)) + Run(size, ops).lastBatch
    else Delivered(size, Earlier(ops))
  }

  /** The packets popped from the transmit side, in order. */
  ghost function Popped(size: nat, ops: seq<Op>): seq<Packet> {
    if ops == [] then []
    else
      var s := Run(size, Earlier(ops));
      Popped(size, Earlier(ops)) + if Latest(ops).Pop? && s.tx != [] then [s.tx[0]] else []
  }

  lemma {:induction false} RunIsWellformed(size: nat, ops: seq<Op>)
    requires size >= MIN_MAX_PACKET_SIZE
    ensures Wellformed(size, Run(size, ops))
  {
    if ops != [] { RunIsWellformed(size, Earlier(ops)); }
  }

  /** Nothing is lost, repeated or reordered on the receive side. */
  lemma {:induction false} ReceiveConservation(size: nat, ops: seq<Op>)
    ensures Pushed(size, ops) == Delivered(size, ops) + Run(size, ops).rx
  {
    if ops != [] {
      ReceiveConservation(size, Earlier(ops));
      var s := Run(size, Earlier(ops));
      match Latest(ops) {
        case Fill(slots) => assert s.rx == s.rx[..Min(slots, |s.rx|)] + s.rx[Min(slots, |s.rx|)..];
        case _ =>
      }
    }
  }

  /** A batch has been filled and not yet sent back. */
  predicate Pending(ops: seq<Op>) {
    ops != [] &&
    match Latest(ops)
    case Fill(slots) => slots > 0 || Pending(Earlier(ops))
    case Send(_) => false
    case _ => Pending(Earlier(ops))
  }

  /** The driver sends back the references of each batch, once, before it fills the next; it pushes and pops at will. */
  ghost predicate Disciplined(size: nat, ops: seq<Op>) {
    ops == [] ||
    (Disciplined(size, Earlier(ops)) &&
     match Latest(ops)
     case Fill(slots) => slots == 0 || !Pending(Earlier(ops))
     case Send(refs) => Pending(Earlier(ops)) && refs == EmittedRefs(size, Run(size, Earlier(ops)).lastBatch)
     case _ => true)
  }

  /** Sending back a whole batch queues exactly its packets. */
  lemma {:induction false} SendingBack(size: nat, s: State)
    requires size > 0
    ensures AfterSend(size, s, EmittedRefs(size, s.lastBatch)) == s.(tx := s.tx + s.lastBatch)
  {
    forall i | 0 <= i < |s.lastBatch|
      ensures IsEmitted(size, s, EmittedRefs(size, s.lastBatch)[i])
      ensures Referenced(size, s, EmittedRefs(size, s.lastBatch)[i]) == s.lastBatch[i]
    {
      ReferencedIs(size, s, i);
    }
  }

  /** What the buffer still has to transmit: queued to transmit, in the pending batch, or queued on receive. */
  function Held(s: State, pending: bool): seq<Packet> {
    s.tx + ((if pending then s.lastBatch else []) + s.rx)
  }

  lemma {:induction false} FillHolds(s: State, slots: nat)
    requires slots > 0
    ensures Held(AfterFill(s, slots), true) == Held(s, false)
  {
    assert s.rx == s.rx[..Min(slots, |s.rx|)] + s.rx[Min(slots, |s.rx|)..];
  }

  lemma {:induction false} SendHolds(size: nat, s: State)
    requires size > 0
    ensures Held(AfterSend(size, s, EmittedRefs(size, s.lastBatch)), false) == Held(s, true)
  {
    SendingBack(size, s);
    assert (s.tx + s.lastBatch) + s.rx == s.tx + (s.lastBatch + s.rx);
  }

  lemma {:induction false} PushHolds(size: nat, s: State, packet: Packet, pending: bool)
    ensures Held(AfterPush(size, s, packet), pending) ==
              Held(s, pending) + (if Accepted(size, packet) then [packet] else [])
  {}

  lemma {:induction false} PopHolds(s: State, pending: bool)
    ensures (if s.tx == [] then [] else [s.tx[0]]) + Held(AfterPop(s), pending) == Held(s, pending)
  {
    if s.tx != [] { assert s.tx == [s.tx[0]] + s.tx[1..]; }
  }

  lemma {:induction false} Regroup(a: seq<Packet>, b: seq<Packet>, c: seq<Packet>)
    ensures (a + b) + c == a + (b + c)
  {}

  /** Every accepted packet is, in push order, popped or still held. */
  lemma {:induction false} EndToEndConservation(size: nat, ops: seq<Op>)
    requires size >= MIN_MAX_PACKET_SIZE && Disciplined(size, ops)
    ensures Pushed(size, ops) == Popped(size, ops) + Held(Run(size, ops), Pending(ops))
  {
    if ops != [] {
      var s, pending := Run(size, Earlier(ops)), Pending(Earlier(ops));
      var popped := Popped(size, Earlier(ops));
      EndToEndConservation(size, Earlier(ops));
      match Latest(ops) {
        case Push(packet) =>
          PushHolds(size, s, packet, pending);
          Regroup(popped, Held(s, pending), if Accepted(size, packet) then [packet] else []);
        case Fill(slots) =>
          if slots > 0 { FillHolds(s, slots); }
        case Send(refs) =>
          SendHolds(size, s);
        case Pop =>
          PopHolds(s, pending);
          Regroup(popped, if s.tx == [] then [] else [s.tx[0]], Held(AfterPop(s), pending));
      }
    }
  }

  /** What a disciplined driver pops is what was pushed, in the same order, and all of it once the queues are empty. */
  lemma {:induction false} PopsInPushOrder(size: nat, ops: seq<Op>)
    requires size >= MIN_MAX_PACKET_SIZE && Disciplined(size, ops)
    ensures Popped(size, ops) <= Pushed(size, ops)
    ensures Run(size, ops).tx == [] && Run(size, ops).rx == [] && !Pending(ops) ==>
              Popped(size, ops) == Pushed(size, ops)
  {
    EndToEndConservation(size, ops);
  }

  /** A reference kept from an older batch is accepted exactly when the slot now holds a packet of the same length. */
  lemma {:induction false} StaleReference(size: nat, older: seq<Packet>, s: State, i: nat)
    requires size > 0 && i < |older|
    ensures IsEmitted(size, s, EmittedRef(size, older, i)) <==> i < |s.lastBatch| && |s.lastBatch[i]| == |older[i]|
  {
    SlotOf(size, i);
    if IsEmitted(size, s, EmittedRef(size, older, i)) {
      var j :| 0 <= j < |s.lastBatch| && EmittedRef(size, older, i) == EmittedRef(size, s.lastBatch, j);
      SlotOf(size, j);
    } else if i < |s.lastBatch| {
      assert EmittedRef(size, older, i) != EmittedRef(size, s.lastBatch, i);
    }
  }

  /** Two fills of one packet each: the reference of the first sends the packet of the second. */
  lemma {:induction false} StaleReferenceSends(first: Packet, second: Packet)
    requires 1 <= |first| == |second| <= MIN_MAX_PACKET_SIZE
    ensures var size, stale := MIN_MAX_PACKET_SIZE, EmittedRef(MIN_MAX_PACKET_SIZE, [first], 0);
            Run(size, [Push(first), Fill(1), Push(second), Fill(1), Send([stale])]).tx == [second]
  {
    var size, stale := MIN_MAX_PACKET_SIZE, EmittedRef(MIN_MAX_PACKET_SIZE, [first], 0);
    var ops1, ops2 := [Push(first)], [Push(first), Fill(1)];
    var ops3, ops4 := [Push(first), Fill(1), Push(second)], [Push(first), Fill(1), Push(second), Fill(1)];
    RunStep(size, [], Push(first));
    assert [] + [Push(first)] == ops1 && ops1 + [Fill(1)] == ops2
      && ops2 + [Push(second)] == ops3 && ops3 + [Fill(1)] == ops4;
    assert Run(size, ops1) == State([first], [], []);
    RunStep(size, ops1, Fill(1));
    assert Run(size, ops2) == State([], [], [first]);
    RunStep(size, ops2, Push(second));
    RunStep(size, ops3, Fill(1));
    var s := Run(size, ops4);
    assert s == State([], [], [second]);
    RunStep(size, ops4, Send([stale]));
    assert ops4 + [Send([stale])] == [Push(first), Fill(1), Push(second), Fill(1), Send([stale])];
    assert [stale] == EmittedRefs(size, s.lastBatch);
    SendingBack(size, s);
  }

  lemma {:induction false} RunStep(size: nat, ops: seq<Op>, op: Op)
    ensures Run(size, ops + [op]) == Step(size, Run(size, ops), op)
  {
    assert Earlier(ops + [op]) == ops;
  }

  /** In every run, the receive side takes the packets of one byte to the maximal size, at the end, and no others. */
  lemma {:induction false} PushTakes(size: nat, ops: seq<Op>, packet: Packet)
    ensures var s := Run(size, ops);
            Run(size, ops + [Push(packet)]) == if 1 <= |packet| <= size then s.(rx := s.rx + [packet]) else s
  {
    RunStep(size, ops, Push(packet));
  }
}
