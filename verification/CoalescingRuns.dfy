/** What holds of the HTTP/2 coalescing table over every sequence of assertions. */
module CoalescingRuns {
  import opened Common
  import opened Lru
  import opened Coalescing
  import CertCache

  /** One call asserting that a session serves an authority. */
  datatype Op = Op(id: U64, authority: string, family: CertCache.ProviderFamily, now: U64)

  ghost function After(maxSessions: nat, t: Table, op: Op): Table
    requires maxSessions >= 1
  {
    AfterAssert(maxSessions, t, op.id, op.authority, op.family, op.now)
  }

  ghost function Run(maxSessions: nat, ops: seq<Op>): Table
    requires maxSessions >= 1
  {
    if ops == [] then map[]
    else After(maxSessions, Run(maxSessions, Earlier(ops)), Latest(ops))
  }

  /** The latest call names the session and succeeds. */
  ghost predicate LatestSucceeds(maxSessions: nat, ops: seq<Op>, id: U64)
    requires maxSessions >= 1
  {
    ops != [] && Latest(ops).id == id
    && Reply(Run(maxSessions, Earlier(ops)), id, Latest(ops).authority, Latest(ops).family).Ok?
  }

  /** The hosts asserted successfully for the session by the calls after the first `o`. */
  ghost function AssertedAfter(maxSessions: nat, ops: seq<Op>, o: nat, id: U64): set<string>
    requires maxSessions >= 1
  {
    if |ops| <= o then {}
    else if LatestSucceeds(maxSessions, ops, id)
    then AssertedAfter(maxSessions, Earlier(ops), o, id) + {NormalizeAuthority(Latest(ops).authority).value}
    else AssertedAfter(maxSessions, Earlier(ops), o, id)
  }

  lemma {:induction false} MostRecentIsPart(t: Table, n: nat, id: U64)
    ensures id in MostRecent(IdLess, t, LastSeen, n) ==> id in t && MostRecent(IdLess, t, LastSeen, n)[id] == t[id]
  {}

  /** The table never holds more than the configured number of sessions. */
  lemma {:induction false} SizeBound(maxSessions: nat, ops: seq<Op>)
    requires maxSessions >= 1
    ensures |Run(maxSessions, ops)| <= maxSessions
  {
    if ops != [] {
      SizeBound(maxSessions, Earlier(ops));
      StepSize(maxSessions, Run(maxSessions, Earlier(ops)), Latest(ops));
    }
  }

  lemma {:induction false} StepSize(maxSessions: nat, t: Table, op: Op)
    requires maxSessions >= 1 && |t| <= maxSessions
    ensures |After(maxSessions, t, op)| <= maxSessions
  {
    if op.id in t {
      SubsetSize(After(maxSessions, t, op).Keys, t.Keys);
    } else {
      var room := maxSessions - 1;
      MostRecentSize(IdLess, t, LastSeen, room);
    }
  }

  /** A call that fails changes nothing. */
  lemma {:induction false} FailureChangesNothing(maxSessions: nat, ops: seq<Op>, op: Op)
    requires maxSessions >= 1
    requires Reply(Run(maxSessions, ops), op.id, op.authority, op.family).Err?
    ensures Run(maxSessions, ops + [op]) == Run(maxSessions, ops)
  {
    assert Earlier(ops + [op]) == ops;
  }

  /** The session is absent after the first `o` calls and present after each longer prefix. */
  ghost predicate CreatedAfter(maxSessions: nat, ops: seq<Op>, o: nat, id: U64)
    requires maxSessions >= 1
  {
    && o < |ops|
    && id !in Run(maxSessions, ops[..o])
    && forall j :: o < j <= |ops| ==> id in Run(maxSessions, ops[..j])
  }

  /** Every successful call for the session after the first `o` named this provider. */
  ghost predicate OneProvider(maxSessions: nat, ops: seq<Op>, o: nat, id: U64, family: CertCache.ProviderFamily)
    requires maxSessions >= 1
  {
    forall j :: o < j <= |ops| && LatestSucceeds(maxSessions, ops[..j], id) ==> Latest(ops[..j]).family == family
  }

  /**
    A session created after the first `o` calls holds exactly the normalised forms of the successful
    assertions on its id since then, and all of those named its provider.
   */
  ghost predicate History(maxSessions: nat, ops: seq<Op>, o: nat, id: U64, s: SessionContext)
    requires maxSessions >= 1
  {
    && CreatedAfter(maxSessions, ops, o, id)
    && s.authorities == AssertedAfter(maxSessions, ops, o, id)
    && OneProvider(maxSessions, ops, o, id, s.family)
  }

  lemma {:induction false} StillCreated(maxSessions: nat, ops: seq<Op>, o: nat, id: U64)
    requires maxSessions >= 1 && ops != [] && CreatedAfter(maxSessions, Earlier(ops), o, id)
              && id in Run(maxSessions, ops)
    ensures CreatedAfter(maxSessions, ops, o, id)
  {
    var before := Earlier(ops);
    forall j | 0 <= j <= |ops| ensures ops[..j] == if j <= |before| then before[..j] else ops {}
  }

  lemma {:induction false} StillOneProvider(maxSessions: nat, ops: seq<Op>, o: nat, id: U64,
    family: CertCache.ProviderFamily)
    requires maxSessions >= 1 && ops != [] && OneProvider(maxSessions, Earlier(ops), o, id, family)
    requires LatestSucceeds(maxSessions, ops, id) ==> Latest(ops).family == family
    ensures OneProvider(maxSessions, ops, o, id, family)
  {
    var before := Earlier(ops);
    forall j | 0 <= j <= |ops| ensures ops[..j] == if j <= |before| then before[..j] else ops {}
  }

  /** Every session in the table of every run has such a history. */
  lemma {:induction false} AuthoritiesAreTheAsserted(maxSessions: nat, ops: seq<Op>, id: U64) returns (o: nat)
    requires maxSessions >= 1 && id in Run(maxSessions, ops)
    ensures History(maxSessions, ops, o, id, Run(maxSessions, ops)[id])
  {
    if id in Run(maxSessions, Earlier(ops)) {
      o := AuthoritiesAreTheAsserted(maxSessions, Earlier(ops), id);
      HistoryGrows(maxSessions, ops, o, id);
    } else {
      o := |ops| - 1;
      HistoryStarts(maxSessions, ops, id);
    }
  }

  lemma {:induction false} HistoryGrows(maxSessions: nat, ops: seq<Op>, o: nat, id: U64)
    requires maxSessions >= 1 && ops != [] && id in Run(maxSessions, Earlier(ops)) && id in Run(maxSessions, ops)
    requires History(maxSessions, Earlier(ops), o, id, Run(maxSessions, Earlier(ops))[id])
    ensures History(maxSessions, ops, o, id, Run(maxSessions, ops)[id])
  {
    var t := Run(maxSessions, Earlier(ops));
    AssertKeepsSession(maxSessions, t, Latest(ops), id);
    StillCreated(maxSessions, ops, o, id);
    StillOneProvider(maxSessions, ops, o, id, t[id].family);
  }

  lemma {:induction false} HistoryStarts(maxSessions: nat, ops: seq<Op>, id: U64)
    requires maxSessions >= 1 && ops != [] && id !in Run(maxSessions, Earlier(ops)) && id in Run(maxSessions, ops)
    ensures History(maxSessions, ops, |ops| - 1, id, Run(maxSessions, ops)[id])
  {
    assert ops[..|ops|] == ops;
    AssertCreatesSession(maxSessions, Run(maxSessions, Earlier(ops)), Latest(ops), id);
    assert AssertedAfter(maxSessions, Earlier(ops), |ops| - 1, id) == {};
  }

  /** A call keeps a session's provider, and adds its host exactly when it names the session and succeeds. */
  lemma {:induction false} AssertKeepsSession(maxSessions: nat, t: Table, op: Op, id: U64)
    requires maxSessions >= 1 && id in t && id in After(maxSessions, t, op)
    ensures After(maxSessions, t, op)[id].family == t[id].family
    ensures After(maxSessions, t, op)[id].authorities == t[id].authorities
      + (if op.id == id && Reply(t, id, op.authority, op.family).Ok?
        then {NormalizeAuthority(op.authority).value} else {})
    ensures op.id == id && Reply(t, id, op.authority, op.family).Ok? ==> op.family == t[id].family
  {
    MostRecentIsPart(t, maxSessions - 1, id);
  }

  lemma {:induction false} AssertCreatesSession(maxSessions: nat, t: Table, op: Op, id: U64)
    requires maxSessions >= 1 && id !in t && id in After(maxSessions, t, op)
    ensures op.id == id && Reply(t, id, op.authority, op.family).Ok?
    ensures After(maxSessions, t, op)[id].family == op.family
    ensures After(maxSessions, t, op)[id].authorities == {NormalizeAuthority(op.authority).value}
  {
    MostRecentIsPart(t, maxSessions - 1, id);
  }

  // ----- replies, recency and eviction -----

  /** In every run, what a call answers: the authority first, and then the provider of a session that is there. */
  lemma {:induction false} ReplyIs(maxSessions: nat, ops: seq<Op>, op: Op)
    requires maxSessions >= 1
    ensures var t := Run(maxSessions, ops);
            var reply := Reply(t, op.id, op.authority, op.family);
            && (reply.Ok? <==> NormalizeAuthority(op.authority).Ok? && (op.id in t ==> t[op.id].family == op.family))
            && (NormalizeAuthority(op.authority).Err? ==> reply == Err(EmptyAuthority))
            && (NormalizeAuthority(op.authority).Ok? && op.id in t && t[op.id].family != op.family ==>
                  reply == Err(ProviderMismatch(t[op.id].family, op.family)))
  {}

  /** When a call for the session last succeeded. */
  ghost function LastAsserted(maxSessions: nat, ops: seq<Op>, id: U64): U64
    requires maxSessions >= 1
  {
    if ops == [] then 0
    else if LatestSucceeds(maxSessions, ops, id) then Latest(ops).now
    else LastAsserted(maxSessions, Earlier(ops), id)
  }

  /** In every run, the time stored with a session is that of the last call for it that succeeded. */
  lemma {:induction false} LastSeenIs(maxSessions: nat, ops: seq<Op>, id: U64)
    requires maxSessions >= 1 && id in Run(maxSessions, ops)
    ensures Run(maxSessions, ops)[id].lastSeenMs == LastAsserted(maxSessions, ops, id)
  {
    var t := Run(maxSessions, Earlier(ops));
    MostRecentIsPart(t, maxSessions - 1, id);
    if id in t {
      LastSeenIs(maxSessions, Earlier(ops), id);
    }
  }

  /**
    In every run, a new session in a full table takes the place of the one asserted first, with the least id of
    those asserted at once.
   */
  lemma {:induction false} CreatedTable(maxSessions: nat, ops: seq<Op>, op: Op) returns (least: Option<U64>)
    requires maxSessions >= 1 && op.id !in Run(maxSessions, ops) && NormalizeAuthority(op.authority).Ok?
    ensures var t := Run(maxSessions, ops);
            var after := Run(maxSessions, ops + [op]);
            var created := SessionContext(op.id, op.family, {NormalizeAuthority(op.authority).value}, op.now);
            if |t| < maxSessions then after == t[op.id := created]
            else least.Some? && least.value in t && after == Without(t, least.value)[op.id := created]
                 && forall x :: x in t && x != least.value ==>
                      (LastAsserted(maxSessions, ops, least.value) < LastAsserted(maxSessions, ops, x)
                       || (LastAsserted(maxSessions, ops, least.value) ==
                         LastAsserted(maxSessions, ops, x) && least.value < x))
  {
    var t := Run(maxSessions, ops);
    assert Earlier(ops + [op]) == ops && Latest(ops + [op]) == op;
    SizeBound(maxSessions, ops);
    least := LeastRecentGoes(IdLess, t, LastSeen, maxSessions - 1);
    if least.Some? { LeastIsFirstAsserted(maxSessions, ops, least.value); }
  }

  lemma {:induction false} LeastIsFirstAsserted(maxSessions: nat, ops: seq<Op>, least: U64)
    requires maxSessions >= 1
    ensures var t := Run(maxSessions, ops);
            IsLeastRecent(IdLess, t, LastSeen, least) <==>
            (least in t && forall x :: x in t && x != least ==>
               (LastAsserted(maxSessions, ops, least) < LastAsserted(maxSessions, ops, x)
                || (LastAsserted(maxSessions, ops, least) == LastAsserted(maxSessions, ops, x) && least < x)))
  {
    var t := Run(maxSessions, ops);
    forall x | x in t ensures Stamps(t, LastSeen)[x] == LastAsserted(maxSessions, ops, x) {
      LastSeenIs(maxSessions, ops, x);
    }
  }
}
