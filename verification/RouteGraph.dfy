/** The route isolation verifier of scripts/route_graph_verify.py, and what its silence means for routing. */
module RouteGraph {
  import opened Common
  import opened Routing
  import opened Profiles

  datatype RouteError =
    | UnscopedRepack(inbound: string, ruleTag: Option<string>)
    | ScopedDirect(inbound: string, index: nat, ruleTag: Option<string>)
    | GlobalDirect(inbound: string)
    | NoRepack(inbound: string)
    | NoTerminalBlock(inbound: string)

  const DECRYPT_PREFIX: string := "tls-decrypt-"
  const REPACK_PREFIX: string := "tls-repack-"

  predicate IsScoped(rule: Rule) { !rule.criteria.inbound.Absent? }

  /** Whether a rule can apply to connections from an inbound. */
  predicate AppliesTo(rule: Rule, inbound: string) {
    match rule.criteria.inbound
    case Absent => true
    case OneTag(tag) => tag == inbound
    case Tags(tags) => inbound in tags
    case Other => false
  }

  predicate IsRepack(rule: Rule) { rule.outbound.Some? && REPACK_PREFIX <= rule.outbound.value }

  predicate IsScopedBlock(rule: Rule) { rule.outbound == Some("block") && IsScoped(rule) }

  predicate IsScopedDirect(rule: Rule) { rule.outbound == Some("direct") && IsScoped(rule) }

  /** The exact two-CIDR catch-all. */
  predicate IsGlobalDirect(rule: Rule) {
    rule.outbound == Some("direct") && rule.criteria.ip == Some(["0.0.0.0/0", "::/0"])
  }

  predicate IsUnscopedRepack(rule: Rule) { IsRepack(rule) && !IsScoped(rule) }

  /** What lets a connection escape: the three things the verifier reports on the way to the terminal block. */
  predicate IsLeak(rule: Rule) { IsUnscopedRepack(rule) || IsScopedDirect(rule) || IsGlobalDirect(rule) }

  function Decrypted(inbounds: seq<string>): seq<string> {
    if inbounds == [] then []
    else (if DECRYPT_PREFIX <= inbounds[0] then [inbounds[0]] else []) + Decrypted(inbounds[1..])
  }

  /** In order, and as often as they occur, the tags that start with `tls-decrypt-`. */
  lemma {:induction false} DecryptedAppend(a: seq<string>, b: seq<string>)
    ensures Decrypted(a + b) == Decrypted(a) + Decrypted(b)
    ensures forall tag :: Decrypted([tag]) == if "tls-decrypt-" <= tag then [tag] else []
  {
    if a == [] {
      assert a + b == b;
    } else {
      assert (a + b)[1..] == a[1..] + b;
      DecryptedAppend(a[1..], b);
    }
  }

  lemma {:induction false} DecryptedMembers(inbounds: seq<string>, tag: string)
    ensures tag in Decrypted(inbounds) <==> tag in inbounds && "tls-decrypt-" <= tag
    ensures multiset(Decrypted(inbounds))[tag] == if "tls-decrypt-" <= tag then multiset(inbounds)[tag] else 0
  {
    if inbounds != [] {
      DecryptedMembers(inbounds[1..], tag);
      assert inbounds == [inbounds[0]] + inbounds[1..];
    }
  }

  datatype Scan = Scan(errors: seq<RouteError>, repackSeen: bool, blockSeen: bool)

  /** What was reported and seen so far, and what a later scan reports and sees. */
  function Joined(errors: seq<RouteError>, repackSeen: bool, later: Scan): Scan {
    Scan(errors + later.errors, repackSeen || later.repackSeen, later.blockSeen)
  }

  lemma {:induction false} JoinedTwice(e1: seq<RouteError>, r1: bool, e2: seq<RouteError>, r2: bool, later: Scan)
    ensures Joined(e1, r1, Joined(e2, r2, later)) == Joined(e1 + e2, r1 || r2, later)
  {}

  function RepackErrors(inbound: string, rule: Rule): seq<RouteError> {
    if IsScoped(rule) then [] else [UnscopedRepack(inbound, rule.ruleTag)]
  }

  function DirectErrors(inbound: string, index: nat, rule: Rule): seq<RouteError> {
    if IsScopedDirect(rule) then [ScopedDirect(inbound, index, rule.ruleTag)] else []
  }

  /** The scan of the rules from an index on, for one inbound. */
  function ScanFrom(inbound: string, rules: seq<Rule>, index: nat): Scan
    requires index <= |rules|
    decreases |rules| - index
  {
    if index == |rules| then Scan([], false, false)
    else
      var rule := rules[index];
      if !AppliesTo(rule, inbound) then ScanFrom(inbound, rules, index + 1)
      else if IsRepack(rule) then Joined(RepackErrors(inbound, rule), true, ScanFrom(inbound, rules, index + 1))
      else if IsScopedBlock(rule) then Scan([], false, true)
      else if IsGlobalDirect(rule) then Scan(DirectErrors(inbound, index, rule) + [GlobalDirect(inbound)], false, false)
      else Joined(DirectErrors(inbound, index, rule), false, ScanFrom(inbound, rules, index + 1))
  }

  function InboundErrors(inbound: string, rules: seq<Rule>): seq<RouteError> {
    var scan := ScanFrom(inbound, rules, 0);
    scan.errors + (if scan.repackSeen then [] else [NoRepack(inbound)])
    + (if scan.blockSeen then [] else [NoTerminalBlock(inbound)])
  }

  function ErrorsOf(decrypted: seq<string>, rules: seq<Rule>): seq<RouteError> {
    if decrypted == [] then [] else ErrorsOf(Earlier(decrypted), rules) + InboundErrors(Latest(decrypted), rules)
  }

  method ScanRules(inbound: string, rules: seq<Rule>)
    returns (errors: seq<RouteError>, repackSeen: bool, blockSeen: bool)
    ensures Scan(errors, repackSeen, blockSeen) == ScanFrom(inbound, rules, 0)
  {
    errors, repackSeen, blockSeen := [], false, false;
    ghost var goal := ScanFrom(inbound, rules, 0);
    for index := 0 to |rules|
      invariant !blockSeen && goal == Joined(errors, repackSeen, ScanFrom(inbound, rules, index))
    {
      ghost var later := ScanFrom(inbound, rules, index + 1);
      var rule := rules[index];
      if !AppliesTo(rule, inbound) { continue; }
      if IsRepack(rule) {
        JoinedTwice(errors, repackSeen, RepackErrors(inbound, rule), true, later);
        errors := errors + RepackErrors(inbound, rule);
        repackSeen := true;
        continue;
      }
      if IsScopedBlock(rule) {
        blockSeen := true;
        break;
      }
      JoinedTwice(errors, repackSeen, DirectErrors(inbound, index, rule), false, later);
      errors := errors + DirectErrors(inbound, index, rule);
      if IsGlobalDirect(rule) {
        errors := errors + [GlobalDirect(inbound)];
        break;
      }
    }
  }

  method Verify(inbounds: seq<string>, rules: seq<Rule>) returns (errors: seq<RouteError>)
    ensures errors == ErrorsOf(Decrypted(inbounds), rules)
  {
    var decrypted := Decrypted(inbounds);
    errors := [];
    for i := 0 to |decrypted|
      invariant errors == ErrorsOf(decrypted[..i], rules)
    {
      var inbound := decrypted[i];
      var found, repackSeen, blockSeen := ScanRules(inbound, rules);
      assert Earlier(decrypted[..i + 1]) == decrypted[..i];
      if !repackSeen { found := found + [NoRepack(inbound)]; }
      if !blockSeen { found := found + [NoTerminalBlock(inbound)]; }
      errors := errors + found;
    }
    assert decrypted[..|decrypted|] == decrypted;
  }

  // ----- what silence means -----

  /** The first scoped block rule that applies to the inbound is at `b`. */
  predicate IsTerminal(inbound: string, rules: seq<Rule>, b: nat) {
    && b < |rules| && AppliesTo(rules[b], inbound) && IsScopedBlock(rules[b])
    && forall i :: 0 <= i < b ==> !(AppliesTo(rules[i], inbound) && IsScopedBlock(rules[i]))
  }

  /** Up to its terminal block, an inbound meets a repack rule and no leak. */
  ghost predicate Isolated(inbound: string, rules: seq<Rule>) {
    exists b: nat :: IsolatedAt(inbound, rules, b)
  }

  predicate IsolatedAt(inbound: string, rules: seq<Rule>, b: nat) {
    IsTerminal(inbound, rules, b) && GuardedFrom(inbound, rules, 0, b) && MeetsRepack(inbound, rules, 0, b)
  }

  predicate GuardedFrom(inbound: string, rules: seq<Rule>, lo: nat, b: nat)
    requires b <= |rules|
  {
    forall i :: lo <= i < b && AppliesTo(rules[i], inbound) ==> !IsLeak(rules[i])
  }

  predicate MeetsRepack(inbound: string, rules: seq<Rule>, lo: nat, b: nat)
    requires b <= |rules|
  {
    exists i :: lo <= i < b && AppliesTo(rules[i], inbound) && IsRepack(rules[i])
  }

  lemma {:induction false} BlockIsNoRepack(rule: Rule)
    requires IsScopedBlock(rule)
    ensures !IsRepack(rule)
  {
    assert REPACK_PREFIX[0] == 't' && "block"[0] == 'b';
  }

  lemma {:induction false} DirectIsNoRepack(rule: Rule)
    requires rule.outbound == Some("direct")
    ensures !IsRepack(rule)
  {
    assert REPACK_PREFIX[0] == 't' && "direct"[0] == 'd';
  }

  lemma {:induction false} ScanToTerminal(inbound: string, rules: seq<Rule>, index: nat, b: nat)
    requires index <= b && IsTerminal(inbound, rules, b)
    ensures ScanFrom(inbound, rules, index).errors == [] <==> GuardedFrom(inbound, rules, index, b)
    ensures GuardedFrom(inbound, rules, index, b) ==>
              ScanFrom(inbound, rules, index).blockSeen
              && (ScanFrom(inbound, rules, index).repackSeen <==> MeetsRepack(inbound, rules, index, b))
    decreases b - index
  {
    BlockIsNoRepack(rules[b]);
    if index < b {
      if rules[index].outbound == Some("direct") { DirectIsNoRepack(rules[index]); }
      ScanToTerminal(inbound, rules, index + 1, b);
    }
  }

  lemma {:induction false} ScanWithoutTerminal(inbound: string, rules: seq<Rule>, index: nat)
    requires index <= |rules|
    requires forall i :: index <= i < |rules| ==> !(AppliesTo(rules[i], inbound) && IsScopedBlock(rules[i]))
    ensures !ScanFrom(inbound, rules, index).blockSeen
    decreases |rules| - index
  {
    if index < |rules| { ScanWithoutTerminal(inbound, rules, index + 1); }
  }

  lemma {:induction false} FindTerminal(inbound: string, rules: seq<Rule>, n: nat) returns (b: Option<nat>)
    requires n <= |rules| && forall i :: 0 <= i < n ==> !(AppliesTo(rules[i], inbound) && IsScopedBlock(rules[i]))
    ensures b.Some? ==> IsTerminal(inbound, rules, b.value)
    ensures b.None? ==> forall i :: 0 <= i < |rules| ==> !(AppliesTo(rules[i], inbound) && IsScopedBlock(rules[i]))
    decreases |rules| - n
  {
    if n == |rules| {
      b := None;
    } else if AppliesTo(rules[n], inbound) && IsScopedBlock(rules[n]) {
      b := Some(n);
    } else {
      b := FindTerminal(inbound, rules, n + 1);
    }
  }

  lemma {:induction false} SilentInbound(inbound: string, rules: seq<Rule>)
    ensures InboundErrors(inbound, rules) == [] <==> Isolated(inbound, rules)
  {
    var t := FindTerminal(inbound, rules, 0);
    if t.Some? {
      ScanToTerminal(inbound, rules, 0, t.value);
      assert Isolated(inbound, rules) <==> IsolatedAt(inbound, rules, t.value);
    } else {
      ScanWithoutTerminal(inbound, rules, 0);
    }
  }

  /** The verifier reports nothing exactly when every decrypted inbound is isolated. */
  lemma {:induction false} SilenceMeansIsolation(decrypted: seq<string>, rules: seq<Rule>)
    ensures ErrorsOf(decrypted, rules) == [] <==> forall i :: 0 <= i < |decrypted| ==> Isolated(decrypted[i], rules)
  {
    if decrypted != [] {
      var earlier, latest := Earlier(decrypted), Latest(decrypted);
      SilentInbound(latest, rules);
      SilenceMeansIsolation(earlier, rules);
      NothingReported(earlier, latest, rules);
      assert decrypted == earlier + [latest];
      assert forall i :: 0 <= i < |decrypted| ==> decrypted[i] == if i < |earlier| then earlier[i] else latest;
    }
  }

  lemma {:induction false} NothingReported(earlier: seq<string>, latest: string, rules: seq<Rule>)
    ensures ErrorsOf(earlier + [latest], rules) == [] <==>
            ErrorsOf(earlier, rules) == [] && InboundErrors(latest, rules) == []
  {
    assert Earlier(earlier + [latest]) == earlier && Latest(earlier + [latest]) == latest;
  }

  /**
    If the verifier reports nothing, no connection from a decrypted inbound that its terminal block would
    catch leaves by an inbound-scoped direct rule, an unscoped repack rule or the two-CIDR direct rule.
    Matching may be anything that honours the inbound scope.
   */
  lemma {:induction false} NoLeakUnderSilence<C>(matches: (Criteria, C) -> bool, inbounds: seq<string>,
    rules: seq<Rule>, inbound: string, b: nat, conn: C)
    requires ErrorsOf(Decrypted(inbounds), rules) == [] && inbound in inbounds && "tls-decrypt-" <= inbound
    requires IsTerminal(inbound, rules, b) && matches(rules[b].criteria, conn)
    requires forall i :: 0 <= i < |rules| && matches(rules[i].criteria, conn) ==> InScope(rules[i], inbound)
    ensures FirstMatch(matches, rules, conn).Some? && FirstMatch(matches, rules, conn).value <= b
    ensures !IsLeak(rules[FirstMatch(matches, rules, conn).value])
  {
    DecryptedMembers(inbounds, inbound);
    SilenceMeansIsolation(Decrypted(inbounds), rules);
    assert Isolated(inbound, rules);
    TerminalIs(inbound, rules, b);
    forall i | 0 <= i < |rules| && matches(rules[i].criteria, conn) ensures AppliesTo(rules[i], inbound) {
      AppliesInScope(rules[i], inbound);
    }
    IsolatedDoesNotLeak(matches, rules, inbound, b, conn);
  }

  lemma {:induction false} IsolatedDoesNotLeak<C>(matches: (Criteria, C) -> bool, rules: seq<Rule>, inbound: string,
    b: nat, conn: C)
    requires IsolatedAt(inbound, rules, b) && matches(rules[b].criteria, conn)
    requires forall i :: 0 <= i < |rules| && matches(rules[i].criteria, conn) ==> AppliesTo(rules[i], inbound)
    ensures FirstMatch(matches, rules, conn).Some? && FirstMatch(matches, rules, conn).value <= b
    ensures !IsLeak(rules[FirstMatch(matches, rules, conn).value])
  {
    BlockIsNoRepack(rules[b]);
    assert "block"[0] == 'b' && "direct"[0] == 'd';
  }

  /** A rule without an `inboundTag` admits every inbound; one with a tag or a list of tags admits those. */
  ghost predicate InScope(rule: Rule, inbound: string) {
    || rule.criteria.inbound == Absent
    || rule.criteria.inbound == OneTag(inbound)
    || exists tags :: rule.criteria.inbound == Tags(tags) && inbound in tags
  }

  lemma {:induction false} AppliesInScope(rule: Rule, inbound: string)
    ensures AppliesTo(rule, inbound) <==> InScope(rule, inbound)
  {
    if rule.criteria.inbound.Tags? { assert rule.criteria.inbound == Tags(rule.criteria.inbound.tags); }
  }

  /** Under a silent verifier every decrypted inbound has a terminal block, after a repack rule. */
  lemma {:induction false} SilenceMeansTerminal(inbounds: seq<string>, rules: seq<Rule>, inbound: string)
    requires ErrorsOf(Decrypted(inbounds), rules) == [] && inbound in inbounds && "tls-decrypt-" <= inbound
    ensures exists b: nat :: IsTerminal(inbound, rules, b) && MeetsRepack(inbound, rules, 0, b)
  {
    DecryptedMembers(inbounds, inbound);
    SilenceMeansIsolation(Decrypted(inbounds), rules);
    assert Isolated(inbound, rules);
    var b: nat :| IsolatedAt(inbound, rules, b);
    assert IsTerminal(inbound, rules, b) && MeetsRepack(inbound, rules, 0, b);
  }

  // ----- what the reports mean -----

  /** No rule before `i` ends the scan: no scoped block and no two-CIDR direct rule applies. */
  ghost predicate Reached(inbound: string, rules: seq<Rule>, lo: nat, i: nat)
    requires i <= |rules|
  {
    forall j :: lo <= j < i && AppliesTo(rules[j], inbound) ==>
      !(rules[j].outbound == Some("block") && IsScoped(rules[j])) && !IsGlobalDirect(rules[j])
  }

  /** The rule is reached and applies. */
  ghost predicate Met(inbound: string, rules: seq<Rule>, lo: nat, i: nat) {
    lo <= i < |rules| && Reached(inbound, rules, lo, i) && AppliesTo(rules[i], inbound)
  }

  lemma {:induction false} MetLater(inbound: string, rules: seq<Rule>, lo: nat, i: nat)
    requires lo < |rules|
    ensures Met(inbound, rules, lo, i) <==>
            (i == lo && AppliesTo(rules[lo], inbound))
            || (i > lo && Met(inbound, rules, lo + 1, i)
                && !(AppliesTo(rules[lo], inbound) && (IsScopedBlock(rules[lo]) || IsGlobalDirect(rules[lo]))))
  {}

  /** The rule gives rise to the report. */
  ghost predicate Calls(inbound: string, rules: seq<Rule>, i: nat, e: RouteError)
    requires i < |rules|
  {
    var rule := rules[i];
    var unscoped := rule.criteria.inbound == Absent;
    match e
    case UnscopedRepack(x, tag) =>
      x == inbound && tag == rule.ruleTag && unscoped && rule.outbound.Some? && "tls-repack-" <= rule.outbound.value
    case ScopedDirect(x, n, tag) =>
      x == inbound && n == i && tag == rule.ruleTag && !unscoped && rule.outbound == Some("direct")
    case GlobalDirect(x) =>
      x == inbound && rule.outbound == Some("direct") && rule.criteria.ip == Some(["0.0.0.0/0", "::/0"])
    case NoRepack(_) => false
    case NoTerminalBlock(_) => false
  }

  ghost predicate Called(inbound: string, rules: seq<Rule>, lo: nat, e: RouteError) {
    exists i: nat :: Met(inbound, rules, lo, i) && Calls(inbound, rules, i, e)
  }

  ghost predicate MetRepack(inbound: string, rules: seq<Rule>, lo: nat) {
    exists i: nat :: Met(inbound, rules, lo, i) && IsRepack(rules[i])
  }

  ghost predicate MetBlock(inbound: string, rules: seq<Rule>, lo: nat) {
    exists i: nat :: Met(inbound, rules, lo, i) && IsScopedBlock(rules[i])
  }

  lemma {:induction false} CalledLater(inbound: string, rules: seq<Rule>, lo: nat, e: RouteError)
    requires lo < |rules|
    ensures var here := AppliesTo(rules[lo], inbound);
            var ends := here && (IsScopedBlock(rules[lo]) || IsGlobalDirect(rules[lo]));
            && (Called(inbound, rules, lo, e) <==>
                  (here && Calls(inbound, rules, lo, e)) || (!ends && Called(inbound, rules, lo + 1, e)))
            && (MetRepack(inbound, rules, lo) <==>
                  (here && IsRepack(rules[lo])) || (!ends && MetRepack(inbound, rules, lo + 1)))
            && (MetBlock(inbound, rules, lo) <==>
                  (here && IsScopedBlock(rules[lo])) || (!ends && MetBlock(inbound, rules, lo + 1)))
  {
    forall i: nat
      ensures Met(inbound, rules, lo, i) <==>
              (i == lo && AppliesTo(rules[lo], inbound))
              || (i > lo && Met(inbound, rules, lo + 1, i)
                  && !(AppliesTo(rules[lo], inbound) && (IsScopedBlock(rules[lo]) || IsGlobalDirect(rules[lo]))))
    {
      MetLater(inbound, rules, lo, i);
    }
  }

  /** What the rule at hand adds to the reports of the scan. */
  lemma {:induction false} ScanCalls(inbound: string, rules: seq<Rule>, lo: nat, e: RouteError)
    requires lo < |rules| && AppliesTo(rules[lo], inbound)
    ensures e in (if IsRepack(rules[lo]) then RepackErrors(inbound, rules[lo])
                  else DirectErrors(inbound, lo, rules[lo])
                       + (if IsGlobalDirect(rules[lo]) then [GlobalDirect(inbound)] else []))
            <==> Calls(inbound, rules, lo, e)
  {
    if rules[lo].outbound == Some("direct") { DirectIsNoRepack(rules[lo]); }
  }

  /** The scan reports what the rules that it meets call for, and sees the repack rules and the block among them. */
  lemma {:induction false} ScanReports(inbound: string, rules: seq<Rule>, lo: nat, e: RouteError)
    requires lo <= |rules|
    ensures e in ScanFrom(inbound, rules, lo).errors <==> Called(inbound, rules, lo, e)
    ensures ScanFrom(inbound, rules, lo).repackSeen <==> MetRepack(inbound, rules, lo)
    ensures ScanFrom(inbound, rules, lo).blockSeen <==> MetBlock(inbound, rules, lo)
    decreases |rules| - lo
  {
    if lo < |rules| {
      var rule := rules[lo];
      ScanReports(inbound, rules, lo + 1, e);
      CalledLater(inbound, rules, lo, e);
      if AppliesTo(rule, inbound) { ScanCalls(inbound, rules, lo, e); }
      if IsScopedBlock(rule) { BlockIsNoRepack(rule); }
      if rule.outbound == Some("direct") { DirectIsNoRepack(rule); }
      assert "block"[0] == 'b' && "direct"[0] == 'd';
    }
  }

  ghost predicate Reported(inbound: string, rules: seq<Rule>, e: RouteError) {
    || Called(inbound, rules, 0, e)
    || (e == NoRepack(inbound) && !MetRepack(inbound, rules, 0))
    || (e == NoTerminalBlock(inbound) && !MetBlock(inbound, rules, 0))
  }

  lemma {:induction false} ErrorsReported(decrypted: seq<string>, rules: seq<Rule>, e: RouteError)
    ensures e in ErrorsOf(decrypted, rules) <==> exists inbound :: inbound in decrypted && Reported(inbound, rules, e)
  {
    if decrypted != [] {
      var last := Latest(decrypted);
      ErrorsReported(Earlier(decrypted), rules, e);
      ScanReports(last, rules, 0, e);
      assert decrypted == Earlier(decrypted) + [last];
      assert e in InboundErrors(last, rules) <==> Reported(last, rules, e);
    }
  }

  /**
    The verifier reports exactly what a rule that some decrypted inbound meets calls for, and what such an
    inbound misses.
   */
  lemma {:induction false} ReportsExactly(inbounds: seq<string>, rules: seq<Rule>, e: RouteError)
    ensures e in ErrorsOf(Decrypted(inbounds), rules) <==>
            exists inbound :: inbound in inbounds && "tls-decrypt-" <= inbound && Reported(inbound, rules, e)
  {
    ErrorsReported(Decrypted(inbounds), rules, e);
    forall inbound ensures inbound in Decrypted(inbounds) <==> inbound in inbounds && "tls-decrypt-" <= inbound {
      DecryptedMembers(inbounds, inbound);
    }
  }

  // ----- generated profiles -----

  lemma {:induction false} InsertionKeepsIsolation(inbound: string, rules: seq<Rule>, i: nat, rule: Rule, b: nat)
    requires i <= |rules| && IsolatedAt(inbound, rules, b) && !IsScopedBlock(rule) && !IsLeak(rule)
    ensures IsolatedAt(inbound, Inserted(rules, i, rule), if b < i then b else b + 1)
  {
    var more, b' := Inserted(rules, i, rule), if b < i then b else b + 1;
    forall k | i < k < |more| ensures more[k] == rules[k - 1] {}
    var r :| 0 <= r < b && AppliesTo(rules[r], inbound) && IsRepack(rules[r]);
    var r' := if r < i then r else r + 1;
    assert more[r'] == rules[r] && r' < b';
  }

  /**
    What repointing the first r900 rule does to an inbound with its terminal block at `b`: nothing when the
    rule comes after `b` or does not apply; otherwise a scoped rule must become a block that follows a repack
    rule, and an unscoped one must not become the two-CIDR direct rule.
   */
  predicate CatchallIsHarmless(inbound: string, rules: seq<Rule>, outbound: string, b: nat) {
    match FirstCatchall(rules)
    case None => true
    case Some(j) =>
      j < |rules| && AppliesTo(rules[j], inbound) && j <= b ==>
        if IsScoped(rules[j]) then outbound == "block" && MeetsRepack(inbound, rules, 0, j)
        else outbound == "block" || rules[j].criteria.ip != Some(["0.0.0.0/0", "::/0"])
  }

  lemma {:induction false} TerminalIs(inbound: string, rules: seq<Rule>, b: nat)
    requires IsTerminal(inbound, rules, b)
    ensures Isolated(inbound, rules) <==> IsolatedAt(inbound, rules, b)
  {
    if Isolated(inbound, rules) {
      var t: nat :| IsolatedAt(inbound, rules, t);
      assert t == b;
    }
  }

  /** A rule that is made an applicable leak before the terminal block breaks the isolation. */
  lemma {:induction false} LeakBreaksIsolation(inbound: string, rules: seq<Rule>, rule: Rule, j: nat, b: nat)
    requires j <= b && IsTerminal(inbound, rules, b) && AppliesTo(rule, inbound) && IsLeak(rule) && !IsScopedBlock(rule)
    ensures !Isolated(inbound, rules[j := rule])
  {
    var after := rules[j := rule];
    assert forall k :: 0 <= k < j ==> after[k] == rules[k];
    assert after[j] == rule;
  }

  /** An applicable rule up to the terminal block that is made a scoped block becomes the terminal one. */
  lemma {:induction false} BlockMovesTerminal(inbound: string, rules: seq<Rule>, rule: Rule, j: nat, b: nat)
    requires j <= b && IsolatedAt(inbound, rules, b) && AppliesTo(rule, inbound) && IsScopedBlock(rule)
    ensures Isolated(inbound, rules[j := rule]) <==> MeetsRepack(inbound, rules, 0, j)
  {
    var after := rules[j := rule];
    assert forall k :: 0 <= k < j ==> after[k] == rules[k];
    TerminalIs(inbound, after, j);
    if MeetsRepack(inbound, rules, 0, j) {
      var r :| 0 <= r < j && AppliesTo(rules[r], inbound) && IsRepack(rules[r]);
      assert IsRepack(after[r]);
    }
  }

  /** A change to a rule that is no repack rule, neither before nor after, and no leak or scoped block, is harmless. */
  lemma {:induction false} HarmlessChange(inbound: string, rules: seq<Rule>, rule: Rule, j: nat, b: nat)
    requires j < |rules| && IsolatedAt(inbound, rules, b) && rule.criteria == rules[j].criteria
    requires j > b || !AppliesTo(rule, inbound)
              || (j < b && !IsRepack(rules[j]) && !IsLeak(rule) && !IsScopedBlock(rule))
    ensures IsolatedAt(inbound, rules[j := rule], b)
  {
    var after := rules[j := rule];
    assert forall k :: 0 <= k < |rules| && k != j ==> after[k] == rules[k];
    var r :| 0 <= r < b && AppliesTo(rules[r], inbound) && IsRepack(rules[r]);
    assert AppliesTo(after[r], inbound) && IsRepack(after[r]);
  }

  lemma {:induction false} CatchallIsolation(inbound: string, rules: seq<Rule>, outbound: string, b: nat)
    requires IsolatedAt(inbound, rules, b) && (outbound == "block" || outbound == "direct")
    ensures Isolated(inbound, AfterCatchall(rules, outbound)) <==> CatchallIsHarmless(inbound, rules, outbound, b)
  {
    if FirstCatchall(rules).Some? {
      var j := FirstCatchall(rules).value;
      var rule := Repointed(rules[j], outbound);
      assert "block"[0] == 'b' && "direct"[0] == 'd' && REPACK_PREFIX[0] == 't';
      if j > b || !AppliesTo(rule, inbound) {
        HarmlessChange(inbound, rules, rule, j, b);
      } else if IsScoped(rule) && outbound == "block" {
        BlockMovesTerminal(inbound, rules, rule, j, b);
      } else if IsLeak(rule) {
        LeakBreaksIsolation(inbound, rules, rule, j, b);
      } else {
        HarmlessChange(inbound, rules, rule, j, b);
      }
    }
  }

  lemma {:induction false} UdpRuleIsHarmless(p: Profile)
    ensures var rule := UdpRule(PolicyOf(p).udp443, PolicyOf(p).udpRuleTag);
            !IsScopedBlock(rule) && !IsLeak(rule) && !IsRepack(rule)
  {
    assert REPACK_PREFIX[0] == 't' && "direct"[0] == 'd' && "block"[0] == 'b';
  }

  lemma {:induction false} InsertionKeepsHarm(inbound: string, rules: seq<Rule>, i: nat, rule: Rule,
    outbound: string, b: nat)
    requires i <= |rules| && !IsRepack(rule) && !IsCatchall(rule)
    ensures CatchallIsHarmless(inbound, Inserted(rules, i, rule), outbound, if b < i then b else b + 1)
            <==> CatchallIsHarmless(inbound, rules, outbound, b)
  {
    FirstAfterInsertion(IsCatchall, rules, i, rule);
    if FirstCatchall(rules).Some? {
      InsertionKeepsRepack(inbound, rules, i, rule, FirstCatchall(rules).value);
    }
  }

  lemma {:induction false} InsertionKeepsRepack(inbound: string, rules: seq<Rule>, i: nat, rule: Rule, j: nat)
    requires i <= |rules| && j < |rules| && !IsRepack(rule)
    ensures MeetsRepack(inbound, Inserted(rules, i, rule), 0, if j < i then j else j + 1) <==>
              MeetsRepack(inbound, rules, 0, j)
  {
    var more, j' := Inserted(rules, i, rule), if j < i then j else j + 1;
    forall k | i < k < |more| ensures more[k] == rules[k - 1] {}
    if MeetsRepack(inbound, rules, 0, j) {
      var r :| 0 <= r < j && AppliesTo(rules[r], inbound) && IsRepack(rules[r]);
      assert IsRepack(more[if r < i then r else r + 1]);
    }
  }

  lemma {:induction false} ProfileIsolation(inbound: string, base: seq<Rule>, p: Profile, b: nat)
    requires IsolatedAt(inbound, base, b)
    ensures Isolated(inbound, ProfileRules(base, p)) <==> CatchallIsHarmless(inbound, base, PolicyOf(p).catchall, b)
  {
    var policy := PolicyOf(p);
    if HasTag(base, policy.udpRuleTag) {
      CatchallIsolation(inbound, base, policy.catchall, b);
    } else {
      var i, rule := InsertionPoint(base), UdpRule(policy.udp443, policy.udpRuleTag);
      UdpRuleIsHarmless(p);
      UdpRuleIsNoCatchall(p);
      InsertionKeepsIsolation(inbound, base, i, rule, b);
      InsertionKeepsHarm(inbound, base, i, rule, policy.catchall, b);
      CatchallIsolation(inbound, Inserted(base, i, rule), policy.catchall, if b < i then b else b + 1);
    }
  }

  ghost predicate CatchallHarmsNone(decrypted: seq<string>, rules: seq<Rule>, outbound: string) {
    forall i, b: nat :: 0 <= i < |decrypted| && IsTerminal(decrypted[i], rules, b) ==>
      CatchallIsHarmless(decrypted[i], rules, outbound, b)
  }

  /**
    From a base on which the verifier is silent, it is silent on a profile exactly when the new r900 rule harms
    no inbound.
   */
  lemma {:induction false} ProfileSilence(inbounds: seq<string>, base: seq<Rule>, p: Profile)
    requires ErrorsOf(Decrypted(inbounds), base) == []
    ensures ErrorsOf(Decrypted(inbounds), ProfileRules(base, p)) == []
            <==> CatchallHarmsNone(Decrypted(inbounds), base, PolicyOf(p).catchall)
  {
    var decrypted := Decrypted(inbounds);
    SilenceMeansIsolation(decrypted, base);
    SilenceMeansIsolation(decrypted, ProfileRules(base, p));
    forall i, b: nat | 0 <= i < |decrypted| && IsTerminal(decrypted[i], base, b)
      ensures Isolated(decrypted[i], ProfileRules(base, p))
              <==> CatchallIsHarmless(decrypted[i], base, PolicyOf(p).catchall, b)
    {
      assert Isolated(decrypted[i], base);
      TerminalIs(decrypted[i], base, b);
      ProfileIsolation(decrypted[i], base, p, b);
    }
    forall i | 0 <= i < |decrypted| ensures exists b: nat :: IsTerminal(decrypted[i], base, b) {
      assert Isolated(decrypted[i], base);
      var b: nat :| IsolatedAt(decrypted[i], base, b);
      assert IsTerminal(decrypted[i], base, b);
    }
  }

  /** The first r900 rule comes after the terminal block of every decrypted inbound. */
  ghost predicate CatchallFollowsBlocks(decrypted: seq<string>, rules: seq<Rule>) {
    FirstCatchall(rules).Some? ==>
      forall i, b: nat :: 0 <= i < |decrypted| && IsTerminal(decrypted[i], rules, b) ==> FirstCatchall(rules).value > b
  }

  /** A silent verifier stays silent on every generated profile when the first r900 rule follows the terminal blocks. */
  lemma {:induction false} ProfileStaysSilent(inbounds: seq<string>, base: seq<Rule>, p: Profile)
    requires ErrorsOf(Decrypted(inbounds), base) == [] && CatchallFollowsBlocks(Decrypted(inbounds), base)
    ensures ErrorsOf(Decrypted(inbounds), ProfileRules(base, p)) == []
  {
    ProfileSilence(inbounds, base, p);
  }

  /**
    A base that passes, with the two-CIDR catch-all in front of the terminal block: on its balanced profile it
    is reported.
   */
  lemma {:induction false} ProfileIsReported()
    ensures var base := [Rule(None, Some("tls-repack-a"), Criteria(OneTag("tls-decrypt-a"), None, map[])),
                         Rule(Some(R900_BLOCK), Some("block"), Criteria(Absent, Some(["0.0.0.0/0", "::/0"]), map[])),
                         Rule(None, Some("block"), Criteria(OneTag("tls-decrypt-a"), None, map[]))];
            && ErrorsOf(Decrypted(["tls-decrypt-a"]), base) == []
            && ErrorsOf(Decrypted(["tls-decrypt-a"]), ProfileRules(base, Balanced)) != []
  {
    var inbound := "tls-decrypt-a";
    var repack := Rule(None, Some("tls-repack-a"), Criteria(OneTag(inbound), None, map[]));
    var catchall := Rule(Some(R900_BLOCK), Some("block"), Criteria(Absent, Some(["0.0.0.0/0", "::/0"]), map[]));
    var block := Rule(None, Some("block"), Criteria(OneTag(inbound), None, map[]));
    var base := [repack, catchall, block];
    RulesOfExample(inbound, repack, catchall, block);
    SoleDecrypted(inbound);
    assert AppliesTo(base[0], inbound) && IsRepack(base[0]);
    assert IsTerminal(inbound, base, 2) && MeetsRepack(inbound, base, 0, 2);
    assert IsolatedAt(inbound, base, 2);
    SilenceMeansIsolation([inbound], base);
    FirstIs(IsCatchall, base, Some(1));
    assert "direct"[0] == 'd' && "block"[0] == 'b';
    assert !CatchallIsHarmless(inbound, base, PolicyOf(Balanced).catchall, 2);
    ProfileSilence([inbound], base, Balanced);
    assert !CatchallHarmsNone([inbound], base, PolicyOf(Balanced).catchall) by { assert [inbound][0] == inbound; }
  }

  lemma {:induction false} SoleDecrypted(inbound: string)
    requires DECRYPT_PREFIX <= inbound
    ensures Decrypted([inbound]) == [inbound]
  {
    assert [inbound][1..] == [];
  }

  lemma {:induction false} RulesOfExample(inbound: string, repack: Rule, catchall: Rule, block: Rule)
    requires repack == Rule(None, Some("tls-repack-a"), Criteria(OneTag(inbound), None, map[]))
    requires catchall == Rule(Some(R900_BLOCK), Some("block"), Criteria(Absent, Some(["0.0.0.0/0", "::/0"]), map[]))
    requires block == Rule(None, Some("block"), Criteria(OneTag(inbound), None, map[]))
    ensures IsRepack(repack) && !IsLeak(repack) && !IsScopedBlock(repack) && !IsCatchall(repack)
    ensures IsCatchall(catchall) && !IsLeak(catchall) && !IsScopedBlock(catchall)
    ensures IsScopedBlock(block)
  {
    assert "direct"[0] == 'd' && "block"[0] == 'b' && REPACK_PREFIX[0] == 't' && "tls-repack-a"[0] == 't';
  }
}
