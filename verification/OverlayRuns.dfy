/** What holds of the overlay session table over every sequence of calls. */
module OverlayRuns {
  import opened Common
  import opened Lru
  import opened Overlay

  datatype Op =
    | Open(request: OpenRequest, auth: Authenticator)
    | Accept(chunk: Chunk, auth: Authenticator)
    | MarkFailed(id: SessionId, now: U64)
    | MarkValidated(id: SessionId, now: U64)
    | Prune(now: U64)
  {
    /** The session an operation names. */
    predicate Addresses(s: SessionId) {
      match this
      case Open(request, _) => request.sessionId == s
      case Accept(chunk, _) => chunk.sessionId == s
      case MarkFailed(id, _) => id == s
      case MarkValidated(id, _) => id == s
      case Prune(_) => false
    }
  }

  ghost function Step(c: Config, t: Table, op: Op): Table
    requires c.Valid()
  {
    match op
    case Open(request, auth) => AfterOpen(c, t, request, auth)
    case Accept(chunk, auth) => AfterAccept(c, t, chunk, auth)
    case MarkFailed(id, now) => AfterMark(t, id, TcpFallback, now)
    case MarkValidated(id, now) => AfterMark(t, id, UdpPreferred, now)
    case Prune(now) => Pruned(t, c.idleTtl, now)
  }

  ghost function Run(c: Config, t: Table, ops: seq<Op>): Table
    requires c.Valid()
  {
    if ops == [] then t else Step(c, Run(c, t, Earlier(ops)), Latest(ops))
  }

  /** Making room keeps room for one more and drops at most one session that is not idle. */
  lemma {:induction false} MakingRoom(c: Config, t: Table, now: U64) returns (least: Option<SessionId>)
    requires c.Valid() && |t| <= c.maxSessions
    ensures |MadeRoom(c, t, now)| < c.maxSessions
    ensures var live := Pruned(t, c.idleTtl, now);
            if |live| < c.maxSessions then MadeRoom(c, t, now) == live
            else least.Some? && least.value in live && IsLeastRecent(IdLess, live, LastSeen, least.value)
                 && MadeRoom(c, t, now) == Without(live, least.value)
  {
    var live := Pruned(t, c.idleTtl, now);
    SubsetSize(live.Keys, t.Keys);
    var room := c.maxSessions - 1;
    assert MadeRoom(c, t, now) == MostRecent(IdLess, live, LastSeen, room);
    IdOrder();
    MostRecentSize(IdLess, live, LastSeen, room);
    least := LeastRecentGoes(IdLess, live, LastSeen, room);
  }

  /** The table never holds more than the configured number of sessions. */
  lemma {:induction false} SizeBound(c: Config, ops: seq<Op>)
    requires c.Valid()
    ensures |Run(c, map[], ops)| <= c.maxSessions
  {
    if ops != [] {
      var t := Run(c, map[], Earlier(ops));
      SizeBound(c, Earlier(ops));
      match Latest(ops) {
        case Open(request, auth) => var _ := MakingRoom(c, t, request.now);
        case Accept(chunk, auth) => SubsetSize(AfterAccept(c, t, chunk, auth).Keys, t.Keys);
        case MarkFailed(id, now) => SubsetSize(AfterMark(t, id, TcpFallback, now).Keys, t.Keys);
        case MarkValidated(id, now) => SubsetSize(AfterMark(t, id, UdpPreferred, now).Keys, t.Keys);
        case Prune(now) => SubsetSize(Pruned(t, c.idleTtl, now).Keys, t.Keys);
      }
    }
  }

  /**
    In every run, a successful open leaves the sessions within the idle limit, less the least one if they fill
    the table, plus the new one.
   */
  lemma {:induction false} OpenTable(c: Config, ops: seq<Op>, request: OpenRequest, auth: Authenticator)
    returns (least: Option<SessionId>)
    requires c.Valid() && OpenReply(Run(c, map[], ops), request, auth).Ok?
    ensures var live := Pruned(Run(c, map[], ops), c.idleTtl, request.now);
            var after := Run(c, map[], ops + [Open(request, auth)]);
            if |live| < c.maxSessions then after == live[request.sessionId := FreshSession(request)]
            else least.Some? && least.value in live && IsLeastRecent(IdLess, live, LastSeen, least.value)
                 && after == Without(live, least.value)[request.sessionId := FreshSession(request)]
  {
    SizeBound(c, ops);
    assert Earlier(ops + [Open(request, auth)]) == ops;
    least := MakingRoom(c, Run(c, map[], ops), request.now);
  }

  /** Pruning twice is pruning once at the later time, and the numbers removed add up. */
  lemma {:induction false} PruneTwice(t: Table, idleTtl: U64, t1: U64, t2: U64)
    ensures var latest := if t1 <= t2 then t2 else t1;
            var once := Pruned(t, idleTtl, t1);
            && Pruned(once, idleTtl, t2) == Pruned(t, idleTtl, latest)
            && (|t| - |once|) + (|once| - |Pruned(once, idleTtl, t2)|) == |t| - |Pruned(t, idleTtl, latest)|
  {}

  // ----- one session's lifetime -----

  /** The session stays in the table throughout. */
  ghost predicate Lifetime(c: Config, t: Table, ops: seq<Op>, id: SessionId)
    requires c.Valid()
  {
    forall i :: 0 <= i <= |ops| ==> id in Run(c, t, ops[..i])
  }

  function Addressed(ops: seq<Op>, id: SessionId): seq<Op> {
    if ops == [] then []
    else if Latest(ops).Addresses(id) then Addressed(Earlier(ops), id) + [Latest(ops)]
    else Addressed(Earlier(ops), id)
  }

  /** The chunks accepted for a session, in order. */
  ghost function Transcript(c: Config, t: Table, ops: seq<Op>, id: SessionId): seq<AcceptedChunk>
    requires c.Valid()
  {
    if ops == [] then []
    else
      var earlier := Transcript(c, t, Earlier(ops), id);
      var last := Latest(ops);
      if last.Accept? && last.chunk.sessionId == id
        && AcceptReply(c, Run(c, t, Earlier(ops)), last.chunk, last.auth).Ok?
      then earlier + [AcceptReply(c, Run(c, t, Earlier(ops)), last.chunk, last.auth).value]
      else earlier
  }

  /** The mode set by the last mark, UDP if there is none. */
  function LastMark(ops: seq<Op>): TransportMode {
    if ops == [] then UdpPreferred
    else match Latest(ops)
      case MarkFailed(_, _) => TcpFallback
      case MarkValidated(_, _) => UdpPreferred
      case _ => LastMark(Earlier(ops))
  }

  /** Whether a chunk would be accepted by a session that has accepted `count` of them. */
  predicate Acceptable(c: Config, op: Op, count: nat) {
    && op.Accept?
    && op.auth.verifyChunk(op.chunk.sessionId, op.chunk.sequence, op.chunk.authToken)
    && |op.chunk.payload| <= c.maxPayloadLen
    && op.chunk.sequence == Min(count, U64_MAX)
  }

  /** What one session would accept if it were alone: no table, no other session, no eviction. */
  function SoloTranscript(c: Config, ops: seq<Op>): seq<AcceptedChunk> {
    if ops == [] then []
    else
      var earlier := SoloTranscript(c, Earlier(ops));
      var last := Latest(ops);
      if Acceptable(c, last, |earlier|)
      then earlier + [AcceptedChunk(LastMark(Earlier(ops)), Min(|earlier|, U64_MAX), |last.chunk.payload|)]
      else earlier
  }

  ghost predicate JustOpened(t: Table, id: SessionId) {
    id in t && t[id].mode == UdpPreferred && t[id].nextSequence == 0
  }

  lemma {:induction false} OpenStartsLifetime(c: Config, t: Table, request: OpenRequest, auth: Authenticator)
    requires c.Valid() && OpenReply(t, request, auth).Ok?
    ensures JustOpened(Step(c, t, Open(request, auth)), request.sessionId)
  {}

  /** A step that leaves a session alive changes its mode and counter only if it is addressed to it. */
  lemma {:induction false} OthersDoNotInterfere(c: Config, t: Table, op: Op, id: SessionId)
    requires c.Valid() && id in t && id in Step(c, t, op) && !op.Addresses(id)
    ensures Step(c, t, op)[id].mode == t[id].mode && Step(c, t, op)[id].nextSequence == t[id].nextSequence
    ensures Step(c, t, op)[id].lastSeenMs == t[id].lastSeenMs
  {}

  /** A step addressed to a live session acts on its mode and counter as it would if the session were alone. */
  lemma {:induction false} AddressedStep(c: Config, t: Table, op: Op, id: SessionId, count: nat)
    requires c.Valid() && id in t && id in Step(c, t, op) && op.Addresses(id)
    requires t[id].nextSequence == Min(count, U64_MAX)
    ensures Step(c, t, op)[id].mode ==
            match op case MarkFailed(_, _) => TcpFallback case MarkValidated(_, _) => UdpPreferred case _ => t[id].mode
    ensures op.Accept? ==> (AcceptReply(c, t, op.chunk, op.auth).Ok? <==> Acceptable(c, op, count))
    ensures Acceptable(c, op, count) ==>
            AcceptReply(c, t, op.chunk, op.auth) ==
              Ok(AcceptedChunk(t[id].mode, Min(count, U64_MAX), |op.chunk.payload|))
    ensures Step(c, t, op)[id].nextSequence == Min(if Acceptable(c, op, count) then count + 1 else count, U64_MAX)
  {}

  lemma {:induction false} LifetimeState(c: Config, t: Table, ops: seq<Op>, id: SessionId)
    requires c.Valid() && JustOpened(t, id) && Lifetime(c, t, ops, id)
    ensures id in Run(c, t, ops)
    ensures Run(c, t, ops)[id].mode == LastMark(Addressed(ops, id))
    ensures Run(c, t, ops)[id].nextSequence == Min(|SoloTranscript(c, Addressed(ops, id))|, U64_MAX)
    ensures Transcript(c, t, ops, id) == SoloTranscript(c, Addressed(ops, id))
  {
    assert ops[..|ops|] == ops;
    if ops != [] {
      var before := Earlier(ops);
      var last := Latest(ops);
      forall i | 0 <= i <= |before| ensures id in Run(c, t, before[..i]) {
        assert before[..i] == ops[..i];
      }
      LifetimeState(c, t, before, id);
      if last.Addresses(id) {
        assert Earlier(Addressed(ops, id)) == Addressed(before, id);
        AddressedStep(c, Run(c, t, before), last, id, |SoloTranscript(c, Addressed(before, id))|);
      } else {
        OthersDoNotInterfere(c, Run(c, t, before), last, id);
      }
    }
  }

  lemma {:induction false} SoloNumbering(c: Config, ops: seq<Op>)
    ensures forall i :: 0 <= i < |SoloTranscript(c, ops)| ==> SoloTranscript(c, ops)[i].sequence == Min(i, U64_MAX)
  {
    if ops != [] { SoloNumbering(c, Earlier(ops)); }
  }

  /**
    From a successful open for as long as the session stays in the table: the i-th accepted chunk
    carries sequence i, saturating; what is accepted, and in which mode, is what the session would
    accept alone on the operations addressed to it.
   */
  lemma {:induction false} SessionProtocol(c: Config, t: Table, request: OpenRequest, auth: Authenticator,
    later: seq<Op>)
    requires c.Valid() && OpenReply(t, request, auth).Ok?
    requires Lifetime(c, Step(c, t, Open(request, auth)), later, request.sessionId)
    ensures var id := request.sessionId;
            var accepted := Transcript(c, Step(c, t, Open(request, auth)), later, id);
            && accepted == SoloTranscript(c, Addressed(later, id))
            && (forall i :: 0 <= i < |accepted| ==> accepted[i].sequence == Min(i, U64_MAX))
            && id in Run(c, Step(c, t, Open(request, auth)), later)
            && Run(c, Step(c, t, Open(request, auth)), later)[id].mode == LastMark(Addressed(later, id))
  {
    var start := Step(c, t, Open(request, auth));
    assert later[..|later|] == later;
    OpenStartsLifetime(c, t, request, auth);
    LifetimeState(c, start, later, request.sessionId);
    SoloNumbering(c, Addressed(later, request.sessionId));
  }

  /** The mode reported with an accepted chunk is that of the last mark before it. */
  lemma {:induction false} ReportedMode(c: Config, t: Table, ops: seq<Op>, id: SessionId, k: nat)
    requires c.Valid() && JustOpened(t, id) && Lifetime(c, t, ops, id)
    requires k < |ops| && ops[k].Accept? && ops[k].chunk.sessionId == id
    ensures AcceptReply(c, Run(c, t, ops[..k]), ops[k].chunk, ops[k].auth).Ok? <==>
            Acceptable(c, ops[k], |Transcript(c, t, ops[..k], id)|)
    ensures AcceptReply(c, Run(c, t, ops[..k]), ops[k].chunk, ops[k].auth).Ok? ==>
            AcceptReply(c, Run(c, t, ops[..k]), ops[k].chunk, ops[k].auth).value.mode ==
              LastMark(Addressed(ops[..k], id))
  {
    forall i | 0 <= i <= k ensures id in Run(c, t, ops[..k][..i]) {
      assert ops[..k][..i] == ops[..i];
    }
    LifetimeState(c, t, ops[..k], id);
  }

  /**
    Two lifetimes of a session with the same operations addressed to it accept the same chunks, whatever else
    the tables see.
   */
  lemma {:induction false} LifetimesAgree(c: Config, t1: Table, ops1: seq<Op>, t2: Table, ops2: seq<Op>, id: SessionId)
    requires c.Valid() && JustOpened(t1, id) && JustOpened(t2, id)
    requires Lifetime(c, t1, ops1, id) && Lifetime(c, t2, ops2, id)
    requires Addressed(ops1, id) == Addressed(ops2, id)
    ensures Transcript(c, t1, ops1, id) == Transcript(c, t2, ops2, id)
  {
    LifetimeState(c, t1, ops1, id);
    LifetimeState(c, t2, ops2, id);
  }

  /** Within a lifetime a sequence number is accepted twice exactly when the counter has saturated. */
  lemma {:induction false} ReplayOnlyAtSaturation(c: Config, t: Table, ops: seq<Op>, id: SessionId, i: nat, j: nat)
    requires c.Valid() && JustOpened(t, id) && Lifetime(c, t, ops, id)
    requires i < j < |Transcript(c, t, ops, id)|
    ensures Transcript(c, t, ops, id)[i].sequence == Transcript(c, t, ops, id)[j].sequence <==> i >= U64_MAX
  {
    LifetimeState(c, t, ops, id);
    SoloNumbering(c, Addressed(ops, id));
  }

  // ----- a session that lives long enough to accept a number twice -----

  const EVERYONE := Authenticator((id: SessionId, token: seq<Byte>) => true,
    (id: SessionId, n: U64, token: seq<Byte>) => true)

  /** The first `n` chunks of a session, each with the number that is expected. */
  function Stream(id: SessionId, n: nat): seq<Op> {
    if n == 0 then [] else Stream(id, n - 1) + [Accept(Chunk(id, Min(n - 1, U64_MAX), [], [], 0), EVERYONE)]
  }

  lemma {:induction false} StreamPrefix(id: SessionId, n: nat, i: nat)
    requires i <= n
    ensures |Stream(id, n)| == n && Stream(id, n)[..i] == Stream(id, i)
    decreases n
  {
    if i < n {
      StreamPrefix(id, n - 1, i);
      assert Stream(id, n)[..i] == Stream(id, n - 1)[..i];
    } else if n > 0 {
      StreamPrefix(id, n - 1, n - 1);
    }
  }

  lemma {:induction false} StreamIsAccepted(c: Config, id: SessionId, n: nat)
    ensures Addressed(Stream(id, n), id) == Stream(id, n) && |SoloTranscript(c, Stream(id, n))| == n
  {
    if n > 0 {
      assert Earlier(Stream(id, n)) == Stream(id, n - 1);
      StreamIsAccepted(c, id, n - 1);
    }
  }

  lemma {:induction false} StreamKeepsSession(c: Config, t: Table, id: SessionId, n: nat)
    requires c.Valid() && id in t
    ensures id in Run(c, t, Stream(id, n))
  {
    if n > 0 {
      assert Earlier(Stream(id, n)) == Stream(id, n - 1);
      StreamKeepsSession(c, t, id, n - 1);
    }
  }

  /** All of the stream is accepted by a session that was just opened. */
  lemma {:induction false} StreamTranscript(c: Config, t: Table, id: SessionId, n: nat)
    requires c.Valid() && JustOpened(t, id)
    ensures Lifetime(c, t, Stream(id, n), id) && |Transcript(c, t, Stream(id, n), id)| == n
  {
    forall i | 0 <= i <= |Stream(id, n)| ensures id in Run(c, t, Stream(id, n)[..i]) {
      StreamPrefix(id, n, n);
      StreamPrefix(id, n, i);
      StreamKeepsSession(c, t, id, i);
    }
    LifetimeState(c, t, Stream(id, n), id);
    StreamIsAccepted(c, id, n);
  }

  /** Of 2^64 + 1 accepted chunks of one lifetime, the last two carry the same number. */
  lemma {:induction false} NumberRepeats(c: Config, t: Table, id: SessionId)
    requires c.Valid() && JustOpened(t, id)
    ensures var accepted := Transcript(c, t, Stream(id, U64_MAX + 2), id);
            |accepted| == U64_MAX + 2 && accepted[U64_MAX].sequence == accepted[U64_MAX + 1].sequence
  {
    StreamTranscript(c, t, id, U64_MAX + 2);
    ReplayOnlyAtSaturation(c, t, Stream(id, U64_MAX + 2), id, U64_MAX, U64_MAX + 1);
  }

  // ----- authentication -----

  /**
    In every run an open succeeds exactly if the authenticator accepts it and its id is not in the table; a refused
    token is told so whether or not the id is known, and an open that fails changes nothing.
   */
  lemma {:induction false} OpenNeedsAuthentication(c: Config, ops: seq<Op>, request: OpenRequest, auth: Authenticator)
    requires c.Valid()
    ensures var t := Run(c, map[], ops);
            var reply := OpenReply(t, request, auth);
            && (reply.Ok? <==> auth.verifyOpen(request.sessionId, request.authToken) && request.sessionId !in t)
            && (reply == Err(AuthFailed) <==> !auth.verifyOpen(request.sessionId, request.authToken))
            && (reply.Ok? <==> (request.sessionId !in t
                                && request.sessionId in Run(c, map[], ops + [Open(request, auth)])))
            && (reply.Err? ==> Run(c, map[], ops + [Open(request, auth)]) == t)
  {
    assert Earlier(ops + [Open(request, auth)]) == ops;
  }

  /** Every session stems from an open that its authenticator accepted, and is in the table ever since. */
  lemma {:induction false} StemsFromOpen(c: Config, ops: seq<Op>, id: SessionId) returns (i: nat)
    requires c.Valid() && id in Run(c, map[], ops)
    ensures i < |ops| && ops[i].Open? && ops[i].request.sessionId == id
    ensures ops[i].auth.verifyOpen(id, ops[i].request.authToken)
    ensures id !in Run(c, map[], ops[..i]) && forall j :: i < j <= |ops| ==> id in Run(c, map[], ops[..j])
    ensures Run(c, map[], ops)[id].endpoint == ops[i].request.endpoint
  {
    var before, last := Earlier(ops), Latest(ops);
    assert ops[..|ops|] == ops && ops[..|before|] == before;
    if id in Run(c, map[], before) {
      i := StemsFromOpen(c, before, id);
      StepKeepsEndpoint(c, Run(c, map[], before), last, id);
      assert ops[..i] == before[..i];
      forall j | i < j <= |ops| ensures id in Run(c, map[], ops[..j]) {
        if j <= |before| { assert ops[..j] == before[..j]; }
      }
    } else {
      i := |before|;
      OnlyOpenAdds(c, Run(c, map[], before), last, id);
    }
  }

  lemma {:induction false} StepKeepsEndpoint(c: Config, t: Table, op: Op, id: SessionId)
    requires c.Valid() && id in t && id in Step(c, t, op)
    ensures Step(c, t, op)[id].endpoint == t[id].endpoint
  {}

  lemma {:induction false} OnlyOpenAdds(c: Config, t: Table, op: Op, id: SessionId)
    requires c.Valid() && id !in t && id in Step(c, t, op)
    ensures op.Open? && op.request.sessionId == id && op.auth.verifyOpen(id, op.request.authToken)
    ensures Step(c, t, op)[id] == Session(id, op.request.endpoint, UdpPreferred, 0, op.request.now)
  {}

  // ----- time -----

  /** When a session, opened at `start`, was last marked or last had a chunk accepted. */
  function LastTouched(c: Config, start: U64, ops: seq<Op>): U64 {
    if ops == [] then start
    else match Latest(ops)
      case MarkFailed(_, now) => now
      case MarkValidated(_, now) => now
      case Accept(chunk, _) =>
        if Acceptable(c, Latest(ops), |SoloTranscript(c, Earlier(ops))|) then chunk.now
        else LastTouched(c, start, Earlier(ops))
      case _ => LastTouched(c, start, Earlier(ops))
  }

  lemma {:induction false} TouchedStep(c: Config, t: Table, op: Op, id: SessionId, count: nat)
    requires c.Valid() && id in t && id in Step(c, t, op) && op.Addresses(id)
    requires t[id].nextSequence == Min(count, U64_MAX)
    ensures Step(c, t, op)[id].lastSeenMs ==
            match op
            case MarkFailed(_, now) => now
            case MarkValidated(_, now) => now
            case Accept(chunk, _) => if Acceptable(c, op, count) then chunk.now else t[id].lastSeenMs
            case _ => t[id].lastSeenMs
  {}

  /** During a lifetime, the time stored is a function of the operations addressed to the session. */
  lemma {:induction false} LastSeenIs(c: Config, t: Table, ops: seq<Op>, id: SessionId)
    requires c.Valid() && JustOpened(t, id) && Lifetime(c, t, ops, id)
    ensures id in Run(c, t, ops)
    ensures Run(c, t, ops)[id].lastSeenMs == LastTouched(c, t[id].lastSeenMs, Addressed(ops, id))
  {
    assert ops[..|ops|] == ops;
    if ops != [] {
      var before, last := Earlier(ops), Latest(ops);
      forall i | 0 <= i <= |before| ensures id in Run(c, t, before[..i]) {
        assert before[..i] == ops[..i];
      }
      LastSeenIs(c, t, before, id);
      LifetimeState(c, t, before, id);
      if last.Addresses(id) {
        assert Earlier(Addressed(ops, id)) == Addressed(before, id);
        TouchedStep(c, Run(c, t, before), last, id, |SoloTranscript(c, Addressed(before, id))|);
      } else {
        OthersDoNotInterfere(c, Run(c, t, before), last, id);
      }
    }
  }

  /** A session outlives a prune exactly if the time since it was last touched is within the idle limit. */
  lemma {:induction false} IdleLimit(c: Config, t: Table, ops: seq<Op>, id: SessionId, now: U64)
    requires c.Valid() && JustOpened(t, id) && Lifetime(c, t, ops, id)
    ensures id in Step(c, Run(c, t, ops), Prune(now)) <==>
            now <= LastTouched(c, t[id].lastSeenMs, Addressed(ops, id)) + c.idleTtl
  {
    LastSeenIs(c, t, ops, id);
    SaturatingComparisons(now, Run(c, t, ops)[id].lastSeenMs, c.idleTtl);
  }

  /** The session that makes room for a new one: seen first, and of those seen at once, the one with the least id. */
  lemma {:induction false} LeastRecentIs(t: Table, id: SessionId)
    ensures IsLeastRecent(IdLess, t, LastSeen, id) <==>
            id in t && forall x :: x in t && x != id ==>
              (t[id].lastSeenMs < t[x].lastSeenMs || (t[id].lastSeenMs == t[x].lastSeenMs && IdLess(id, x)))
  {
    var stamps := Stamps(t, LastSeen);
    assert forall x :: x in t ==> stamps[x] == t[x].lastSeenMs;
  }

  /** Ids are compared byte by byte. */
  lemma {:induction false} IdsByBytes(p: seq<Byte>, x: Byte, y: Byte, u: seq<Byte>, v: seq<Byte>)
    requires x != y
    ensures IdLess(SessionId(p + [x] + u), SessionId(p + [y] + v)) <==> x < y
  {
    assert StrictTotalOrder(ByteLess);
    FirstDifference(ByteLess, p, x, y, u, v);
  }

  /**
    Why a chunk is refused during a lifetime: authentication, size, a number that was accepted, or one that is
    ahead.
   */
  lemma {:induction false} RefusalOf(c: Config, t: Table, ops: seq<Op>, chunk: Chunk, auth: Authenticator)
    requires c.Valid() && JustOpened(t, chunk.sessionId) && Lifetime(c, t, ops, chunk.sessionId)
    ensures var expected := Min(|Transcript(c, t, ops, chunk.sessionId)|, 0xffff_ffff_ffff_ffff);
            var reply := AcceptReply(c, Run(c, t, ops), chunk, auth);
            reply.Ok? || reply.error ==
              (if !auth.verifyChunk(chunk.sessionId, chunk.sequence, chunk.authToken) then AuthFailed
               else if |chunk.payload| > c.maxPayloadLen then PayloadTooLarge(c.maxPayloadLen, |chunk.payload|)
               else if chunk.sequence < expected then ReplayDetected(expected, chunk.sequence)
               else OutOfOrder(expected, chunk.sequence))
  {
    LifetimeState(c, t, ops, chunk.sessionId);
  }
}
