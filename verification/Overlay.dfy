/** The overlay session table of src/cooperative_overlay.rs. */
module Overlay {
  import opened Common
  import opened Lru

  /** The bytes of a session identifier. The source fixes their number at 16, which nothing depends on. */
  datatype SessionId = SessionId(bytes: seq<Byte>)

  /** A socket address; the table stores it and never looks at it. */
  datatype Endpoint = Endpoint(host: string, port: nat)

  datatype TransportMode = UdpPreferred | TcpFallback

  datatype Session = Session(id: SessionId, endpoint: Endpoint, mode: TransportMode, nextSequence: U64, lastSeenMs: U64)

  datatype OpenRequest = OpenRequest(sessionId: SessionId, endpoint: Endpoint, authToken: seq<Byte>, now: U64)

  datatype Chunk = Chunk(sessionId: SessionId, sequence: U64, payload: seq<Byte>, authToken: seq<Byte>, now: U64)

  datatype AcceptedChunk = AcceptedChunk(mode: TransportMode, sequence: U64, payloadLen: nat)

  datatype OverlayError =
    | SessionAlreadyExists
    | UnknownSession
    | AuthFailed
    | PayloadTooLarge(limit: nat, actual: nat)
    | ReplayDetected(expected: U64, received: U64)
    | OutOfOrder(expected: U64, received: U64)

  /** Any implementation of the authenticator interface. */
  datatype Authenticator = Authenticator(
    verifyOpen: (SessionId, seq<Byte>) -> bool,
    verifyChunk: (SessionId, U64, seq<Byte>) -> bool)

  type Table = map<SessionId, Session>

  datatype Config = Config(maxSessions: nat, idleTtl: U64, maxPayloadLen: nat) {
    predicate Valid() { maxSessions >= 1 && idleTtl >= 1 && maxPayloadLen >= 1 }
  }

  predicate ByteLess(a: Byte, b: Byte) { a < b }

  /** The derived `Ord` of a byte array. */
  predicate IdLess(a: SessionId, b: SessionId) { SeqLess(ByteLess, a.bytes, b.bytes) }

  lemma {:induction false} IdOrder()
    ensures StrictTotalOrder(IdLess)
  {
    assert StrictTotalOrder(ByteLess);
    forall a: SessionId ensures !IdLess(a, a) { SeqLessIrreflexive(ByteLess, a.bytes); }
    forall a: SessionId, b: SessionId | a != b ensures IdLess(a, b) || IdLess(b, a) {
      SeqLessConnected(ByteLess, a.bytes, b.bytes);
    }
    forall a: SessionId, b: SessionId, c: SessionId | IdLess(a, b) && IdLess(b, c) ensures IdLess(a, c) {
      SeqLessTransitive(ByteLess, a.bytes, b.bytes, c.bytes);
    }
  }

  function LastSeen(s: Session): nat { s.lastSeenMs }

  function FreshSession(request: OpenRequest): Session {
    Session(request.sessionId, request.endpoint, UdpPreferred, 0, request.now)
  }

  /** The sessions within the idle limit. */
  function Pruned(t: Table, idleTtl: U64, now: U64): Table {
    map id | id in t && SaturatingSub(now, t[id].lastSeenMs) <= idleTtl :: t[id]
  }

  /** The `max - 1` most recently seen sessions within the idle limit. */
  ghost function MadeRoom(c: Config, t: Table, now: U64): Table
    requires c.Valid()
  {
    MostRecent(IdLess, Pruned(t, c.idleTtl, now), LastSeen, c.maxSessions - 1)
  }

  function OpenReply(t: Table, request: OpenRequest, auth: Authenticator): Result<(), OverlayError> {
    if !auth.verifyOpen(request.sessionId, request.authToken) then Err(AuthFailed)
    else if request.sessionId in t then Err(SessionAlreadyExists)
    else Ok(())
  }

  ghost function AfterOpen(c: Config, t: Table, request: OpenRequest, auth: Authenticator): Table
    requires c.Valid()
  {
    if OpenReply(t, request, auth).Ok?
      then MadeRoom(c, t, request.now)[request.sessionId := FreshSession(request)] else t
  }

  function AcceptReply(c: Config, t: Table, chunk: Chunk, auth: Authenticator): Result<AcceptedChunk, OverlayError> {
    if !auth.verifyChunk(chunk.sessionId, chunk.sequence, chunk.authToken) then Err(AuthFailed)
    else if |chunk.payload| > c.maxPayloadLen then Err(PayloadTooLarge(c.maxPayloadLen, |chunk.payload|))
    else if chunk.sessionId !in t then Err(UnknownSession)
    else
      var s := t[chunk.sessionId];
      if chunk.sequence < s.nextSequence then Err(ReplayDetected(s.nextSequence, chunk.sequence))
      else if chunk.sequence > s.nextSequence then Err(OutOfOrder(s.nextSequence, chunk.sequence))
      else Ok(AcceptedChunk(s.mode, chunk.sequence, |chunk.payload|))
  }

  function AfterAccept(c: Config, t: Table, chunk: Chunk, auth: Authenticator): Table {
    if AcceptReply(c, t, chunk, auth).Ok? then
      var s := t[chunk.sessionId];
      t[chunk.sessionId := s.(nextSequence := SaturatingAdd(s.nextSequence, 1), lastSeenMs := chunk.now)]
    else t
  }

  function AfterMark(t: Table, id: SessionId, mode: TransportMode, now: U64): Table {
    if id in t then t[id := t[id].(mode := mode, lastSeenMs := now)] else t
  }

  class CooperativeOverlay {
    const maxSessions: nat
    const idleTtl: U64
    const maxPayloadLen: nat
    var sessions: Table

    ghost function Limits(): Config { Config(maxSessions, idleTtl, maxPayloadLen) }

    ghost predicate Valid()
      reads this
    {
      Limits().Valid() && |sessions| <= maxSessions
    }

    constructor (maxSessions: nat, idleTtl: U64, maxPayloadLen: nat)
      ensures Valid() && sessions == map[]
      ensures Limits() == Config(if maxSessions == 0 then 1 else maxSessions, if idleTtl == 0 then 1 else idleTtl,
                                 if maxPayloadLen == 0 then 1 else maxPayloadLen)
    {
      this.maxSessions := if maxSessions < 1 then 1 else maxSessions;
      this.idleTtl := if idleTtl < 1 then 1 else idleTtl;
      this.maxPayloadLen := if maxPayloadLen < 1 then 1 else maxPayloadLen;
      sessions := map[];
    }

    method OpenSession(request: OpenRequest, auth: Authenticator) returns (r: Result<(), OverlayError>)
      requires Valid()
      modifies this
      ensures Valid()
      ensures r == OpenReply(old(sessions), request, auth)
      ensures sessions == AfterOpen(Limits(), old(sessions), request, auth)
    {
      if !auth.verifyOpen(request.sessionId, request.authToken) { return Err(AuthFailed); }
      if request.sessionId in sessions { return Err(SessionAlreadyExists); }
      EvictIfNeeded(request.now);
      sessions := sessions[request.sessionId := Session(request.sessionId, request.endpoint, UdpPreferred, 0,
        request.now)];
      r := Ok(());
    }

    method AcceptChunk(chunk: Chunk, auth: Authenticator) returns (r: Result<AcceptedChunk, OverlayError>)
      requires Valid()
      modifies this
      ensures Valid()
      ensures r == AcceptReply(Limits(), old(sessions), chunk, auth)
      ensures sessions == AfterAccept(Limits(), old(sessions), chunk, auth)
    {
      if !auth.verifyChunk(chunk.sessionId, chunk.sequence, chunk.authToken) { return Err(AuthFailed); }
      if |chunk.payload| > maxPayloadLen { return Err(PayloadTooLarge(maxPayloadLen, |chunk.payload|)); }
      if chunk.sessionId !in sessions { return Err(UnknownSession); }
      var session := sessions[chunk.sessionId];
      if chunk.sequence < session.nextSequence { return Err(ReplayDetected(session.nextSequence, chunk.sequence)); }
      if chunk.sequence > session.nextSequence { return Err(OutOfOrder(session.nextSequence, chunk.sequence)); }
      session := session.(nextSequence := SaturatingAdd(session.nextSequence, 1));
      session := session.(lastSeenMs := chunk.now);
      UpdateKeepsSize(sessions, chunk.sessionId, session);
      sessions := sessions[chunk.sessionId := session];
      r := Ok(AcceptedChunk(session.mode, chunk.sequence, |chunk.payload|));
    }

    method MarkUdpPathFailed(id: SessionId, now: U64) returns (r: Result<(), OverlayError>)
      requires Valid()
      modifies this
      ensures Valid()
      ensures r == if id in old(sessions) then Ok(()) else Err(UnknownSession)
      ensures sessions == AfterMark(old(sessions), id, TcpFallback, now)
    {
      if id !in sessions { return Err(UnknownSession); }
      UpdateKeepsSize(sessions, id, sessions[id].(mode := TcpFallback, lastSeenMs := now));
      sessions := sessions[id := sessions[id].(mode := TcpFallback, lastSeenMs := now)];
      r := Ok(());
    }

    method MarkUdpPathValidated(id: SessionId, now: U64) returns (r: Result<(), OverlayError>)
      requires Valid()
      modifies this
      ensures Valid()
      ensures r == if id in old(sessions) then Ok(()) else Err(UnknownSession)
      ensures sessions == AfterMark(old(sessions), id, UdpPreferred, now)
    {
      if id !in sessions { return Err(UnknownSession); }
      UpdateKeepsSize(sessions, id, sessions[id].(mode := UdpPreferred, lastSeenMs := now));
      sessions := sessions[id := sessions[id].(mode := UdpPreferred, lastSeenMs := now)];
      r := Ok(());
    }

    method PruneStale(now: U64) returns (removed: nat)
      requires Valid()
      modifies this
      ensures Valid()
      ensures sessions == Pruned(old(sessions), idleTtl, now)
      ensures removed == |old(sessions)| - |sessions|
    {
      var before := |sessions|;
      SubsetSize(Pruned(sessions, idleTtl, now).Keys, sessions.Keys);
      sessions := map id | id in sessions && SaturatingSub(now, sessions[id].lastSeenMs) <= idleTtl :: sessions[id];
      removed := before - Min(before, |sessions|);
    }

    method EvictIfNeeded(now: U64)
      requires Valid()
      modifies this
      ensures sessions == MadeRoom(Limits(), old(sessions), now)
      ensures |sessions| < maxSessions
    {
      var _ := PruneStale(now);
      ghost var live, room := sessions, maxSessions - 1;
      while |sessions| >= maxSessions
        invariant MostRecent(IdLess, sessions, LastSeen, room) == MostRecent(IdLess, live, LastSeen, room)
        decreases |sessions|
      {
        var oldest := FindOldestSession();
        if oldest.None? { break; }
        assert MostRecent(IdLess, Without(sessions, oldest.value), LastSeen, room) ==
          MostRecent(IdLess, sessions, LastSeen, room) by {
          IdOrder();
          EvictOne(IdLess, sessions, LastSeen, room, oldest.value);
        }
        WithoutShrinks(sessions, oldest.value);
        sessions := Without(sessions, oldest.value);
      }
      assert MostRecent(IdLess, sessions, LastSeen, room) == sessions by {
        IdOrder();
        FewRemain(IdLess, sessions, LastSeen, room);
      }
    }

    method FindOldestSession() returns (oldest: Option<SessionId>)
      ensures oldest.None? <==> sessions == map[]
      ensures oldest.Some? ==> oldest.value in sessions && IsLeastRecent(IdLess, sessions, LastSeen, oldest.value)
    {
      IdOrder();
      oldest := FindLeastRecent(IdLess, sessions, LastSeen);
    }
  }

  lemma {:induction false} UpdateKeepsSize(t: Table, id: SessionId, s: Session)
    requires id in t
    ensures |t[id := s]| == |t|
  {
    assert t[id := s].Keys == t.Keys;
  }
}
