/** The batch packet buffer of src/ingress.rs. */
module Ingress {
  import opened Common

  type Packet = seq<Byte>

  datatype PacketRef = PacketRef(offset: nat, len: nat)

  datatype IngressError =
    | EmptyReference
    | InvalidPacketSize
    | Misaligned
    | OutsideWindow
    | LengthMismatch

  const MIN_MAX_PACKET_SIZE: nat := 256

  /** `PacketRef::new` */
  function NewRef(offset: nat, len: nat): Result<PacketRef, IngressError> {
    if len == 0 then Err(EmptyReference) else Ok(PacketRef(offset, len))
  }

  datatype State = State(rx: seq<Packet>, tx: seq<Packet>, lastBatch: seq<Packet>)

  predicate Accepted(size: nat, packet: Packet) { 1 <= |packet| <= size }

  /** Every queued or batched packet passed the size check. */
  ghost predicate Wellformed(size: nat, s: State) {
    && size >= MIN_MAX_PACKET_SIZE
    && (forall p :: p in s.rx ==> Accepted(size, p))
    && (forall p :: p in s.lastBatch ==> Accepted(size, p))
  }

  /** The reference that a fill writes for the `i`-th packet of its batch. */
  function EmittedRef(size: nat, batch: seq<Packet>, i: nat): PacketRef
    requires i < |batch|
  {
    PacketRef(i * size, |batch[i]|)
  }

  function EmittedRefs(size: nat, batch: seq<Packet>): seq<PacketRef> {
    seq(|batch|, i requires 0 <= i < |batch| => EmittedRef(size, batch, i))
  }

  function AfterPush(size: nat, s: State, packet: Packet): State {
    if Accepted(size, packet) then s.(rx := s.rx + [packet]) else s
  }

  /** A fill with `slots` output slots moves that many packets, or all there are, into the batch. */
  function AfterFill(s: State, slots: nat): State {
    if slots == 0 then s
    else s.(rx := s.rx[Min(slots, |s.rx|)..], lastBatch := s.rx[..Min(slots, |s.rx|)])
  }

  /** The reference was emitted by the latest fill with output slots. */
  ghost predicate IsEmitted(size: nat, s: State, r: PacketRef) {
    exists i :: 0 <= i < |s.lastBatch| && r == EmittedRef(size, s.lastBatch, i)
  }

  /** The packet for which a reference was emitted. */
  ghost function Referenced(size: nat, s: State, r: PacketRef): Packet
    requires IsEmitted(size, s, r)
  {
    var i :| 0 <= i < |s.lastBatch| && r == EmittedRef(size, s.lastBatch, i);
    s.lastBatch[i]
  }

  ghost predicate AllEmitted(size: nat, s: State, refs: seq<PacketRef>) {
    forall i :: 0 <= i < |refs| ==> IsEmitted(size, s, refs[i])
  }

  /** A send is all or nothing: the packets of the references, in their order, if all of these were emitted. */
  ghost function AfterSend(size: nat, s: State, refs: seq<PacketRef>): State {
    if AllEmitted(size, s, refs)
    then s.(tx := s.tx + seq(|refs|,
      i requires 0 <= i < |refs| && AllEmitted(size, s, refs) => Referenced(size, s, refs[i])))
    else s
  }

  function AfterPop(s: State): State {
    if s.tx == [] then s else s.(tx := s.tx[1..])
  }

  lemma {:induction false} ProductBound(k: nat, size: nat)
    requires k >= 1
    ensures k * size >= size
  {
    if k > 1 {
      ProductBound(k - 1, size);
      assert k * size == (k - 1) * size + size;
    }
  }

  /** The stride arithmetic of the send path undoes that of the fill path. */
  lemma {:induction false} SlotOf(size: nat, i: nat)
    requires size > 0
    ensures (i * size) % size == 0 && (i * size) / size == i
  {
    var q, r := (i * size) / size, (i * size) % size;
    assert i * size == q * size + r;
    assert (i - q) * size == r;
    if i > q { ProductBound(i - q, size); }
  }

  /** A reference stands for one slot only. */
  lemma {:induction false} ReferencedIs(size: nat, s: State, i: nat)
    requires size > 0 && i < |s.lastBatch|
    ensures IsEmitted(size, s, EmittedRef(size, s.lastBatch, i))
    ensures Referenced(size, s, EmittedRef(size, s.lastBatch, i)) == s.lastBatch[i]
  {
    var r := EmittedRef(size, s.lastBatch, i);
    var j :| 0 <= j < |s.lastBatch| && r == EmittedRef(size, s.lastBatch, j)
      && Referenced(size, s, r) == s.lastBatch[j];
    SlotOf(size, i);
    SlotOf(size, j);
  }

  /** The byte ranges of two references of one batch do not overlap. */
  lemma {:induction false} RangesAreDisjoint(size: nat, s: State, i: nat, j: nat)
    requires Wellformed(size, s) && i < j < |s.lastBatch|
    ensures var a, b := EmittedRef(size, s.lastBatch, i), EmittedRef(size, s.lastBatch, j);
            a.offset + a.len <= b.offset
  {
    var first := EmittedRef(size, s.lastBatch, i);
    assert s.lastBatch[i] in s.lastBatch && first.len <= size;
    ProductBound(j - i, size);
    assert j * size == i * size + (j - i) * size;
  }

  /** No range of a batch reaches beyond its strides, so nothing overflows when those do not. */
  lemma {:induction false} RangesFit(size: nat, s: State, i: nat)
    requires Wellformed(size, s) && i < |s.lastBatch|
    ensures var r := EmittedRef(size, s.lastBatch, i);
            r.offset + r.len <= |s.lastBatch| * size
  {
    assert s.lastBatch[i] in s.lastBatch;
    ProductBound(|s.lastBatch| - i, size);
    assert |s.lastBatch| * size == i * size + (|s.lastBatch| - i) * size;
  }

  /** What is wrong with a reference, if anything: the first of three checks that it fails. */
  function Fault(size: nat, s: State, r: PacketRef): Option<IngressError>
    requires size > 0
  {
    if r.offset % size != 0 then Some(Misaligned)
    else if r.offset / size >= |s.lastBatch| then Some(OutsideWindow)
    else if |s.lastBatch[r.offset / size]| != r.len then Some(LengthMismatch)
    else None
  }

  /** The checks find no fault exactly with the references that were emitted. */
  lemma {:induction false} FaultlessIsEmitted(size: nat, s: State, r: PacketRef)
    requires size > 0
    ensures Fault(size, s, r).None? <==> IsEmitted(size, s, r)
    ensures Fault(size, s, r) == Some(Misaligned) <==> r.offset % size != 0
    ensures Fault(size, s, r) == Some(OutsideWindow) <==> r.offset % size == 0 && r.offset / size >= |s.lastBatch|
  {
    var index := r.offset / size;
    if Fault(size, s, r).None? {
      assert r.offset == index * size;
      assert r == EmittedRef(size, s.lastBatch, index);
    }
    if IsEmitted(size, s, r) {
      var i :| 0 <= i < |s.lastBatch| && r == EmittedRef(size, s.lastBatch, i);
      SlotOf(size, i);
    }
  }

  class BatchPacketBuffer {
    const maxPacketSize: nat
    var rxQueue: seq<Packet>
    var txQueue: seq<Packet>
    var lastBatch: seq<Packet>

    ghost function Contents(): State
      reads this
    {
      State(rxQueue, txQueue, lastBatch)
    }

    ghost predicate Valid()
      reads this
    {
      Wellformed(maxPacketSize, Contents())
    }

    constructor (maxPacketSize: nat)
      ensures Valid() && Contents() == State([], [], [])
      ensures this.maxPacketSize == if maxPacketSize < 256 then 256 else maxPacketSize
    {
      this.maxPacketSize := if maxPacketSize < MIN_MAX_PACKET_SIZE then MIN_MAX_PACKET_SIZE else maxPacketSize;
      rxQueue, txQueue, lastBatch := [], [], [];
    }

    method PushRx(packet: Packet) returns (r: Result<(), IngressError>)
      requires Valid()
      modifies this
      ensures Valid()
      ensures r == if Accepted(maxPacketSize, packet) then Ok(()) else Err(InvalidPacketSize)
      ensures Contents() == AfterPush(maxPacketSize, old(Contents()), packet)
    {
      if |packet| == 0 || |packet| > maxPacketSize { return Err(InvalidPacketSize); }
      rxQueue := rxQueue + [packet];
      r := Ok(());
    }

    method PopTx() returns (r: Option<Packet>)
      requires Valid()
      modifies this
      ensures Valid()
      ensures r == if old(txQueue) == [] then None else Some(old(txQueue)[0])
      ensures Contents() == AfterPop(old(Contents()))
    {
      if txQueue == [] { return None; }
      r := Some(txQueue[0]);
      txQueue := txQueue[1..];
    }

    /** A fill never fails, writes one reference per packet moved, and leaves the other slots alone. */
    method FillBatch(out: array<PacketRef>) returns (r: Result<nat, IngressError>)
      requires Valid()
      modifies this, out
      ensures Valid()
      ensures Contents() == AfterFill(old(Contents()), out.Length)
      ensures r == Ok(Min(out.Length, |old(rxQueue)|))
      ensures out.Length > 0 ==> out[..r.value] == EmittedRefs(maxPacketSize, lastBatch)
      ensures out[r.value..] == old(out[r.value..])
    {
      if out.Length == 0 { return Ok(0); }
      lastBatch := [];
      var count := 0;
      while count < out.Length
        invariant count <= out.Length && count <= |old(rxQueue)|
        invariant txQueue == old(txQueue)
        invariant rxQueue == old(rxQueue)[count..] && lastBatch == old(rxQueue)[..count]
        invariant forall i :: 0 <= i < count ==> out[i] == EmittedRef(maxPacketSize, old(rxQueue)[..count], i)
        invariant forall i :: count <= i < out.Length ==> out[i] == old(out[i])
      {
        if rxQueue == [] { break; }
        var packet := rxQueue[0];
        assert packet == old(rxQueue)[count] && packet in old(rxQueue);
        rxQueue := rxQueue[1..];
        var offset := count * maxPacketSize;
        var ref := NewRef(offset, |packet|);
        assert ref.Ok?;  // so the error return of the source is never taken
        out[count] := ref.value;
        lastBatch := lastBatch + [packet];
        count := count + 1;
      }
      r := Ok(count);
    }

    /** Succeeds exactly for a reference that the latest nonempty fill emitted, with the packet it was emitted for. */
    method SlotFor(packet: PacketRef) returns (r: Result<Packet, IngressError>)
      requires Valid()
      ensures r.Ok? <==> IsEmitted(maxPacketSize, Contents(), packet)
      ensures r.Ok? ==> r.value == Referenced(maxPacketSize, Contents(), packet)
      ensures r.Err? ==> Fault(maxPacketSize, Contents(), packet) == Some(r.error)
    {
      FaultlessIsEmitted(maxPacketSize, Contents(), packet);
      if packet.offset % maxPacketSize != 0 { return Err(Misaligned); }
      var index := packet.offset / maxPacketSize;
      if index >= |lastBatch| { return Err(OutsideWindow); }
      var data := lastBatch[index];
      if |data| != packet.len { return Err(LengthMismatch); }
      assert packet == EmittedRef(maxPacketSize, lastBatch, index);
      ReferencedIs(maxPacketSize, Contents(), index);
      r := Ok(data);
    }

    /** All or nothing; the error is that of the first reference at fault. */
    method SendBatch(packets: seq<PacketRef>) returns (r: Result<nat, IngressError>)
      requires Valid()
      modifies this
      ensures Valid()
      ensures r.Ok? <==> AllEmitted(maxPacketSize, old(Contents()), packets)
      ensures r.Ok? ==> r.value == |packets|
      ensures r.Err? ==> exists i :: (0 <= i < |packets| && AllEmitted(maxPacketSize, old(Contents()), packets[..i])
                                     && Fault(maxPacketSize, old(Contents()), packets[i]) == Some(r.error))
      ensures Contents() == AfterSend(maxPacketSize, old(Contents()), packets)
    {
      var staged: seq<Packet> := [];
      var n := 0;
      while n < |packets|
        invariant n <= |packets| && |staged| == n && Contents() == old(Contents())
        invariant forall i :: 0 <= i < n ==> IsEmitted(maxPacketSize, Contents(), packets[i])
        invariant forall i :: 0 <= i < n ==> staged[i] == Referenced(maxPacketSize, Contents(), packets[i])
      {
        var slot := SlotFor(packets[n]);
        if slot.Err? {
          assert AllEmitted(maxPacketSize, Contents(), packets[..n]);
          return Err(slot.error);
        }
        staged := staged + [slot.value];
        n := n + 1;
      }
      var sent := |staged|;
      var k := 0;
      while k < |staged|
        invariant k <= |staged|
        invariant rxQueue == old(rxQueue) && lastBatch == old(lastBatch)
        invariant txQueue == old(txQueue) + staged[..k]
      {
        txQueue := txQueue + [staged[k]];
        k := k + 1;
      }
      r := Ok(sent);
    }
  }
}
