/** The documented rule order of scripts/route_intent_sync.py, against the generated profiles. */
module RouteIntent {
  import opened Common
  import opened Routing
  import opened Profiles
  import opened RouteOrder

  const R999: string := "r999_block_final"

  /** The profile named by a configuration: none, one of the four, or a name that the tables do not list. */
  datatype ProfileName = BaseProfile | Named(profile: Profile) | Unlisted(name: string)

  /** The lookup in the table of UDP rules, which yields nothing for other names. */
  function ProfileUdpRule(name: ProfileName): Option<string> {
    match name
    case Named(Strict) => Some(R050_BLOCK)
    case Named(Debug) => Some(R050_BLOCK)
    case Named(Balanced) => Some(R050_DIRECT)
    case Named(Compatibility) => Some(R050_DIRECT)
    case _ => None
  }

  /** The lookup in the table of catch-all rules, with its default. */
  function ProfileCatchallRule(name: ProfileName): string {
    match name
    case Named(Strict) => R900_BLOCK
    case Named(Balanced) => R900_DIRECT
    case Named(Compatibility) => R900_DIRECT
    case Named(Debug) => R900_DIRECT
    case _ => R900_DIRECT
  }

  function ExpectedOrder(base: seq<string>, name: ProfileName): seq<string> {
    if name.BaseProfile? then base
    else
      var head, tail := base[..Min(5, |base|)], base[Min(5, |base|)..];
      (head + (match ProfileUdpRule(name) case Some(udp) => [udp] case None => [])) +
      (if ProfileCatchallRule(name) == R900_BLOCK then Moved(tail, R900_DIRECT, R900_BLOCK, R999) else tail)
  }

  method ComputeExpectedOrder(base: seq<string>, name: ProfileName) returns (ordered: seq<string>)
    ensures ordered == ExpectedOrder(base, name)
  {
    if name.BaseProfile? { return base; }
    var udp := ProfileUdpRule(name);
    var catchall := ProfileCatchallRule(name);
    ordered := base[..Min(5, |base|)];
    if udp.Some? { ordered := ordered + [udp.value]; }
    var tail := base[Min(5, |base|)..];
    if catchall == R900_BLOCK {
      var kept: seq<string> := [];
      for i := 0 to |tail|
        invariant kept == KeptTags(tail[..i], {R900_DIRECT, R999})
      {
        assert Earlier(tail[..i + 1]) == tail[..i] && Latest(tail[..i + 1]) == tail[i];
        if tail[i] !in {R900_DIRECT, R999} { kept := kept + [tail[i]]; }
      }
      assert tail[..|tail|] == tail;
      ordered := ordered + kept;
      ordered := ordered + [R900_BLOCK, R999];
    } else {
      ordered := ordered + tail;
    }
  }

  /** A name that the tables do not list leaves the documented order as it is. */
  lemma {:induction false} UnlistedIsBase(base: seq<string>, name: ProfileName)
    requires !name.Named?
    ensures ExpectedOrder(base, name) == base
  {
    assert R900_DIRECT[5] == 'd' && R900_BLOCK[5] == 'b';
    assert base[..Min(5, |base|)] + [] + base[Min(5, |base|)..] == base;
  }

  // ----- agreement with the generator -----

  /** The tags of rules that all have one. */
  function TagsOf(rules: seq<Rule>): seq<string>
    requires forall i :: 0 <= i < |rules| ==> rules[i].ruleTag.Some?
  {
    seq(|rules|, i requires 0 <= i < |rules| && (forall j :: 0 <= j < |rules| ==> rules[j].ruleTag.Some?)
      => rules[i].ruleTag.value)
  }

  ghost predicate Tagged(rules: seq<Rule>) { forall i :: 0 <= i < |rules| ==> rules[i].ruleTag.Some? }

  /**
    A base table as documented: distinct tags, r040 at index 4, no r050 or blocking r900 rule, and the direct
    r900 and r999 last.
   */
  ghost predicate IsDocumentedOrder(tags: seq<string>) {
    && |tags| >= 7 && tags[4] == "r040_direct_private_regional"
    && (forall i, j :: 0 <= i < j < |tags| ==> tags[i] != tags[j])
    && "r050_block_quic_udp443" !in tags && "r050_direct_quic_udp443" !in tags
    && "r900_block_global_catchall" !in tags
    && tags[|tags| - 2] == "r900_direct_global_catchall" && tags[|tags| - 1] == "r999_block_final"
  }

  lemma {:induction false} InsertionPointIsFive(base: seq<Rule>)
    requires Tagged(base) && IsDocumentedOrder(TagsOf(base))
    ensures InsertionPoint(base) == 5
  {
    assert TagsOf(base)[4] == R040;
    forall k | 0 <= k < 4 ensures !IsR040(base[k]) { assert TagsOf(base)[k] != TagsOf(base)[4]; }
    FirstIs(IsR040, base, Some(4));
  }

  lemma {:induction false} NoUdpTag(base: seq<Rule>, p: Profile)
    requires Tagged(base) && IsDocumentedOrder(TagsOf(base))
    ensures PolicyOf(p).udpRuleTag !in TagsOf(base)
  {}

  function CatchallTag(p: Profile): string { if p.Strict? then R900_BLOCK else R900_DIRECT }

  lemma {:induction false} TagNames(p: Profile)
    ensures R900_BLOCK !in {R900_DIRECT, R999} && R900_DIRECT != R999
    ensures PolicyOf(p).udpRuleTag !in {R900_DIRECT, R900_BLOCK, R999}
    ensures PolicyOf(p).catchall == if p.Strict? then "block" else "direct"
    ensures "block" != "direct"
  {
    assert R900_DIRECT[5] == 'd' && R900_BLOCK[5] == 'b' && R999[2] == '9'
      && R900_DIRECT[2] == '0' && R900_BLOCK[2] == '0';
    assert R050_DIRECT[1] == '0' && R050_BLOCK[1] == '0' && R900_DIRECT[1] == '9'
      && R900_BLOCK[1] == '9' && R999[1] == '9';
    assert "block"[0] == 'b' && "direct"[0] == 'd';
  }

  /** The tags after the catch-all rule has its new outbound. */
  lemma {:induction false} CatchallTags(rules: seq<Rule>, p: Profile)
    requires Tagged(rules)
    ensures var after := AfterCatchall(rules, PolicyOf(p).catchall);
            Tagged(after) && TagsOf(after) == FirstRenamed(TagsOf(rules), R900_DIRECT, R900_BLOCK, CatchallTag(p))
  {
    var tags, to := TagsOf(rules), CatchallTag(p);
    TagNames(p);
    assert forall k :: 0 <= k < |rules| ==> (IsCatchall(rules[k]) <==> tags[k] in {R900_DIRECT, R900_BLOCK});
    match FirstCatchall(rules)
    case None => NothingRenamed(tags, R900_DIRECT, R900_BLOCK, to);
    case Some(j) =>
      RenamedAt(tags, R900_DIRECT, R900_BLOCK, to, j);
      assert Repointed(rules[j], PolicyOf(p).catchall).ruleTag == Some(to);
  }

  /** The tags of a generated profile. */
  lemma {:induction false} GeneratedTags(base: seq<Rule>, p: Profile)
    requires Tagged(base)
    ensures Tagged(ProfileRules(base, p))
    ensures TagsOf(ProfileRules(base, p)) ==
            Generated(TagsOf(base), InsertionPoint(base), PolicyOf(p).udpRuleTag, R900_DIRECT, R900_BLOCK,
              CatchallTag(p))
  {
    var policy, tags, i := PolicyOf(p), TagsOf(base), InsertionPoint(base);
    var inserted := AfterUdpPolicy(base, policy.udp443, policy.udpRuleTag);
    assert HasTag(base, policy.udpRuleTag) <==> policy.udpRuleTag in tags by {
      if policy.udpRuleTag in tags {
        var k :| 0 <= k < |tags| && tags[k] == policy.udpRuleTag;
        assert base[k].ruleTag == Some(policy.udpRuleTag);
      }
      if HasTag(base, policy.udpRuleTag) {
        var k :| 0 <= k < |base| && base[k].ruleTag == Some(policy.udpRuleTag);
        assert tags[k] == policy.udpRuleTag;
      }
    }
    if !HasTag(base, policy.udpRuleTag) { InsertedTags(base, i, UdpRule(policy.udp443, policy.udpRuleTag)); }
    CatchallTags(inserted, p);
  }

  lemma {:induction false} InsertedTags(rules: seq<Rule>, i: nat, rule: Rule)
    requires Tagged(rules) && i <= |rules| && rule.ruleTag.Some?
    ensures Tagged(Inserted(rules, i, rule))
    ensures TagsOf(Inserted(rules, i, rule)) == (TagsOf(rules)[..i] + [rule.ruleTag.value]) + TagsOf(rules)[i..]
  {
    var more := Inserted(rules, i, rule);
    forall k | 0 <= k < |more| ensures more[k] == if k < i then rules[k] else if k == i then rule else rules[k - 1] {}
  }

  /**
    A base on which generator and checker agree: no rule has the UDP policy tag, the insertion point is after the
    fifth rule, or after the last of fewer, and the first r900 rule, if any, is the direct one. For the strict
    profile there must be one, after the fifth rule, followed by nothing but blocking r900 rules and then the final
    rule, with no final rule between the fifth rule and it.
   */
  ghost predicate AgreesOn(base: seq<Rule>, p: Profile)
    requires Tagged(base)
  {
    var tags, m := TagsOf(base), Min(5, |base|);
    && PolicyOf(p).udpRuleTag !in tags
    && InsertionPoint(base) == m
    && (if p.Strict?
        then !HasAny(tags[..m], {R900_DIRECT, R900_BLOCK}) && EndsInCatchall(tags[m..], R900_DIRECT, R900_BLOCK, R999)
        else DirectFirst(tags, R900_DIRECT, R900_BLOCK))
  }

  /** On fully tagged bases, the tags of a generated profile are in the order expected for it exactly there. */
  lemma {:induction false} OrderIsExpected(base: seq<Rule>, p: Profile)
    requires Tagged(base)
    ensures Tagged(ProfileRules(base, p))
    ensures TagsOf(ProfileRules(base, p)) == ExpectedOrder(TagsOf(base), Named(p)) <==> AgreesOn(base, p)
  {
    var tags, i, m, u := TagsOf(base), InsertionPoint(base), Min(5, |base|), PolicyOf(p).udpRuleTag;
    GeneratedTags(base, p);
    TagNames(p);
    if p.Strict? {
      GeneratedMoved(tags, i, m, u, R900_DIRECT, R900_BLOCK, R999);
    } else {
      GeneratedAsIs(tags, i, m, u, R900_DIRECT, R900_BLOCK);
    }
  }

  // ----- the documented order -----

  lemma {:induction false} DocumentedEnd<T>(tags: seq<T>, direct: T, block: T, final: T)
    requires |tags| >= 2 && tags[|tags| - 2] == direct && tags[|tags| - 1] == final
    requires forall k :: 0 <= k < |tags| - 2 ==> tags[k] !in {direct, block, final}
    ensures EndsInCatchall(tags, direct, block, final)
    decreases |tags|
  {
    if |tags| > 2 { DocumentedEnd(tags[1..], direct, block, final); }
  }

  lemma {:induction false} NoBlockTag<T>(tags: seq<T>, direct: T, block: T)
    requires block !in tags
    ensures DirectFirst(tags, direct, block)
  {
    if tags != [] { NoBlockTag(tags[1..], direct, block); }
  }

  /** Generator and checker agree: the tags of each generated profile are in the order expected for it. */
  lemma {:induction false} GeneratedOrderIsExpected(base: seq<Rule>, p: Profile)
    requires Tagged(base) && IsDocumentedOrder(TagsOf(base))
    ensures Tagged(ProfileRules(base, p)) && TagsOf(ProfileRules(base, p)) == ExpectedOrder(TagsOf(base), Named(p))
  {
    var tags := TagsOf(base);
    var n := |tags| - 2;
    NoUdpTag(base, p);
    InsertionPointIsFive(base);
    forall k | 0 <= k < n ensures tags[k] !in {R900_DIRECT, R900_BLOCK, R999} {
      assert tags[k] in tags && tags[k] != tags[n] && tags[k] != tags[n + 1];
    }
    DocumentedEnd(tags[5..], R900_DIRECT, R900_BLOCK, R999);
    NoBlockTag(tags, R900_DIRECT, R900_BLOCK);
    OrderIsExpected(base, p);
  }

  /** Of two rules with r040 first, the generator puts the UDP rule second and the checker expects it last. */
  lemma {:induction false} OrderDiffers(criteria: Criteria)
    ensures var base := [Rule(Some(R040), Some("direct"), criteria), Rule(Some(R900_DIRECT), Some("direct"), criteria)];
            Tagged(base) && Tagged(ProfileRules(base, Balanced))
            && TagsOf(ProfileRules(base, Balanced)) != ExpectedOrder(TagsOf(base), Named(Balanced))
  {
    var base := [Rule(Some(R040), Some("direct"), criteria), Rule(Some(R900_DIRECT), Some("direct"), criteria)];
    FirstIs(IsR040, base, Some(0));
    OrderIsExpected(base, Balanced);
  }
}
