/** The operating profiles of scripts/generate_profiles.py: their effect on the routing table. */
module Profiles {
  import opened Common
  import opened Routing

  datatype Profile = Strict | Balanced | Compatibility | Debug

  const R040: string := "r040_direct_private_regional"
  const R050_BLOCK: string := "r050_block_quic_udp443"
  const R050_DIRECT: string := "r050_direct_quic_udp443"
  const R900_DIRECT: string := "r900_direct_global_catchall"
  const R900_BLOCK: string := "r900_block_global_catchall"

  datatype Policy = Policy(catchall: string, udp443: string, udpRuleTag: string)

  function PolicyOf(p: Profile): Policy {
    match p
    case Strict => Policy("block", "block", R050_BLOCK)
    case Balanced => Policy("direct", "direct", R050_DIRECT)
    case Compatibility => Policy("direct", "direct", R050_DIRECT)
    case Debug => Policy("direct", "block", R050_BLOCK)
  }

  const UDP443 := Criteria(Absent, None, map["network" := "\"udp\"", "port" := "443"])

  predicate HasTag(rules: seq<Rule>, tag: string) {
    exists i :: 0 <= i < |rules| && rules[i].ruleTag == Some(tag)
  }

  predicate IsR040(rule: Rule) { rule.ruleTag == Some(R040) }

  /** Right after the first r040 rule, or at the front when there is none. */
  function InsertionPoint(rules: seq<Rule>): (i: nat)
    ensures i <= |rules|
  {
    match First(IsR040, rules)
    case None => 0
    case Some(k) => k + 1
  }

  function UdpRule(outbound: string, tag: string): Rule { Rule(Some(tag), Some(outbound), UDP443) }

  function AfterUdpPolicy(rules: seq<Rule>, outbound: string, tag: string): seq<Rule> {
    if HasTag(rules, tag) then rules
    else Inserted(rules, InsertionPoint(rules), UdpRule(outbound, tag))
  }

  predicate IsCatchall(rule: Rule) { rule.ruleTag == Some(R900_DIRECT) || rule.ruleTag == Some(R900_BLOCK) }

  /** The first r900 rule of either name. */
  function FirstCatchall(rules: seq<Rule>): Option<nat> { First(IsCatchall, rules) }

  /** The catch-all rule with its new outbound, and the name that goes with it. */
  function Repointed(rule: Rule, outbound: string): Rule {
    Rule(if rule.ruleTag == Some(R900_DIRECT) && outbound == "block" then Some(R900_BLOCK)
         else if rule.ruleTag == Some(R900_BLOCK) && outbound == "direct" then Some(R900_DIRECT)
         else rule.ruleTag,
         Some(outbound), rule.criteria)
  }

  function AfterCatchall(rules: seq<Rule>, outbound: string): seq<Rule> {
    match FirstCatchall(rules)
    case None => rules
    case Some(j) => rules[j := Repointed(rules[j], outbound)]
  }

  /** The routing rules of a profile. */
  function ProfileRules(base: seq<Rule>, p: Profile): seq<Rule> {
    AfterCatchall(AfterUdpPolicy(base, PolicyOf(p).udp443, PolicyOf(p).udpRuleTag), PolicyOf(p).catchall)
  }

  /** The rule list of a configuration, edited in place. */
  class RuleList {
    var rules: seq<Rule>

    constructor (rules: seq<Rule>)
      ensures this.rules == rules
    {
      this.rules := rules;
    }

    method InsertUdpPolicy(outboundTag: string, ruleTag: string)
      modifies this
      ensures rules == AfterUdpPolicy(old(rules), outboundTag, ruleTag)
    {
      if exists i :: 0 <= i < |rules| && rules[i].ruleTag == Some(ruleTag) { return; }
      var rule := Rule(Some(ruleTag), Some(outboundTag), UDP443);
      var insertAt: nat := 0;
      for index := 0 to |rules|
        invariant insertAt == 0 && forall k :: 0 <= k < index ==> rules[k].ruleTag != Some(R040)
        invariant rules == old(rules)
      {
        if rules[index].ruleTag == Some(R040) {
          insertAt := index + 1;
          break;
        }
      }
      rules := Inserted(rules, insertAt, rule);
    }

    method SetGlobalCatchall(outboundTag: string)
      modifies this
      ensures rules == AfterCatchall(old(rules), outboundTag)
    {
      for index := 0 to |rules|
        invariant rules == old(rules) && forall k :: 0 <= k < index ==> !IsCatchall(rules[k])
      {
        var rule := rules[index];
        if rule.ruleTag == Some(R900_DIRECT) {
          rule := rule.(outbound := Some(outboundTag));
          if outboundTag == "block" { rule := rule.(ruleTag := Some(R900_BLOCK)); }
          rules := rules[index := rule];
          return;
        }
        if rule.ruleTag == Some(R900_BLOCK) {
          rule := rule.(outbound := Some(outboundTag));
          if outboundTag == "direct" { rule := rule.(ruleTag := Some(R900_DIRECT)); }
          rules := rules[index := rule];
          return;
        }
      }
    }
  }

  /** A profile is an edited copy of the base rules. */
  method MakeProfile(base: seq<Rule>, p: Profile) returns (config: RuleList)
    ensures fresh(config) && config.rules == ProfileRules(base, p)
  {
    var policy := PolicyOf(p);
    config := new RuleList(base);
    config.InsertUdpPolicy(policy.udp443, policy.udpRuleTag);
    config.SetGlobalCatchall(policy.catchall);
  }

  // ----- what a profile does to every routing decision -----

  lemma {:induction false} SameCriteriaSameMatch<C>(matches: (Criteria, C) -> bool, x: seq<Rule>, y: seq<Rule>, conn: C)
    requires |x| == |y| && forall k :: 0 <= k < |x| ==> x[k].criteria == y[k].criteria
    ensures FirstMatch(matches, x, conn) == FirstMatch(matches, y, conn)
  {
    var p := (r: Rule) => matches(r.criteria, conn);
    if First(p, x).Some? {
      assert IsFirst(p, y, First(p, x).value);
    }
  }

  lemma {:induction false} CatchallRouting<C>(matches: (Criteria, C) -> bool, rules: seq<Rule>, outbound: string,
    conn: C)
    ensures Route(matches, AfterCatchall(rules, outbound), conn) ==
            if FirstMatch(matches, rules, conn).Some? && FirstMatch(matches, rules, conn) == FirstCatchall(rules)
            then To(Some(outbound)) else Route(matches, rules, conn)
  {
    SameCriteriaSameMatch(matches, AfterCatchall(rules, outbound), rules, conn);
  }

  lemma {:induction false} UdpRuleIsNoCatchall(p: Profile)
    ensures !IsCatchall(UdpRule(PolicyOf(p).udp443, PolicyOf(p).udpRuleTag))
  {
    assert R900_DIRECT[1] == '9' && R900_BLOCK[1] == '9' && R050_DIRECT[1] == '0' && R050_BLOCK[1] == '0';
  }

  /** Where the decision of a connection is found once a rule is inserted, and whether it is the catch-all rule. */
  lemma {:induction false} InsertionRouting<C>(matches: (Criteria, C) -> bool, rules: seq<Rule>, i: nat, rule: Rule,
    conn: C)
    requires i <= |rules| && !IsCatchall(rule)
    ensures var f := FirstMatch(matches, rules, conn);
            var more := Inserted(rules, i, rule);
            var taken := matches(rule.criteria, conn) && (f.None? || f.value >= i);
            && Route(matches, more, conn) == (if taken then To(rule.outbound) else Route(matches, rules, conn))
            && ((FirstMatch(matches, more, conn).Some? && FirstMatch(matches, more, conn) == FirstCatchall(more)) <==>
                (!taken && f.Some? && f == FirstCatchall(rules)))
  {
    MatchAfterInsertion(matches, rules, i, rule, conn);
    FirstAfterInsertion(IsCatchall, rules, i, rule);
  }

  lemma {:induction false} MatchAfterInsertion<C>(matches: (Criteria, C) -> bool, rules: seq<Rule>, i: nat,
    rule: Rule, conn: C)
    requires i <= |rules|
    ensures FirstMatch(matches, Inserted(rules, i, rule), conn) ==
            var f := FirstMatch(matches, rules, conn);
            if f.Some? && f.value < i then f
            else if matches(rule.criteria, conn) then Some(i)
            else if f.Some? then Some(f.value + 1)
            else None
  {
    FirstAfterInsertion((r: Rule) => matches(r.criteria, conn), rules, i, rule);
  }

  /**
    Every connection goes where the base sends it, with two exceptions: those first matched by the first
    r900 rule go to the catch-all policy; and, when the base has no rule with the UDP policy tag, UDP to
    port 443 not decided before the insertion point goes to the UDP policy.
   */
  lemma {:induction false} ProfileRouting<C>(matches: (Criteria, C) -> bool, base: seq<Rule>, p: Profile, conn: C)
    ensures var f := FirstMatch(matches, base, conn);
            Route(matches, ProfileRules(base, p), conn) ==
            if !HasTag(base, PolicyOf(p).udpRuleTag) && matches(UDP443, conn)
              && (f.None? || f.value >= InsertionPoint(base))
            then To(Some(PolicyOf(p).udp443))
            else if f.Some? && f == FirstCatchall(base) then To(Some(PolicyOf(p).catchall))
            else Route(matches, base, conn)
  {
    var policy := PolicyOf(p);
    CatchallRouting(matches, AfterUdpPolicy(base, policy.udp443, policy.udpRuleTag), policy.catchall, conn);
    UdpRuleIsNoCatchall(p);
    InsertionRouting(matches, base, InsertionPoint(base), UdpRule(policy.udp443, policy.udpRuleTag), conn);
  }

  /** Generating a profile a second time from the profile changes nothing. */
  lemma {:induction false} ProfileTwice(base: seq<Rule>, p: Profile)
    ensures ProfileRules(ProfileRules(base, p), p) == ProfileRules(base, p)
  {
    var policy := PolicyOf(p);
    var inserted := AfterUdpPolicy(base, policy.udp443, policy.udpRuleTag);
    var once := ProfileRules(base, p);
    if !HasTag(base, policy.udpRuleTag) {
      assert inserted[InsertionPoint(base)].ruleTag == Some(policy.udpRuleTag);
    }
    var i :| 0 <= i < |inserted| && inserted[i].ruleTag == Some(policy.udpRuleTag);
    assert once[i].ruleTag == Some(policy.udpRuleTag);
    if FirstCatchall(inserted).Some? {
      var j := FirstCatchall(inserted).value;
      FirstIs(IsCatchall, once, Some(j));
      assert once[j := once[j]] == once;
    }
  }

  // ----- the four profiles, spelled out -----

  /** The rule that each profile inserts for UDP to port 443, and where it sends the rest. */
  lemma {:induction false} FourPolicies(p: Profile)
    ensures var udp443 := Criteria(Absent, None, map["network" := "\"udp\"", "port" := "443"]);
            UdpRule(PolicyOf(p).udp443, PolicyOf(p).udpRuleTag) ==
            match p
            case Strict => Rule(Some("r050_block_quic_udp443"), Some("block"), udp443)
            case Balanced => Rule(Some("r050_direct_quic_udp443"), Some("direct"), udp443)
            case Compatibility => Rule(Some("r050_direct_quic_udp443"), Some("direct"), udp443)
            case Debug => Rule(Some("r050_block_quic_udp443"), Some("block"), udp443)
    ensures PolicyOf(p).catchall == if p == Strict then "block" else "direct"
  {}

  /** The UDP rule comes right after the first rule tagged r040. */
  lemma {:induction false} InsertedAfterR040(a: seq<Rule>, r040: Rule, b: seq<Rule>, p: Profile)
    requires r040.ruleTag == Some("r040_direct_private_regional")
    requires forall i :: 0 <= i < |a| ==> a[i].ruleTag != Some("r040_direct_private_regional")
    requires !HasTag(a + [r040] + b, PolicyOf(p).udpRuleTag)
    ensures var rule := UdpRule(PolicyOf(p).udp443, PolicyOf(p).udpRuleTag);
            AfterUdpPolicy(a + [r040] + b, PolicyOf(p).udp443, PolicyOf(p).udpRuleTag) == a + [r040, rule] + b
  {
    var base, rule := a + [r040] + b, UdpRule(PolicyOf(p).udp443, PolicyOf(p).udpRuleTag);
    assert base[|a|] == r040;
    FirstIs(IsR040, base, Some(|a|));
    assert base[..|a| + 1] == a + [r040] && base[|a| + 1..] == b;
    assert (a + [r040]) + [rule] + b == a + [r040, rule] + b;
  }

  /** The first rule tagged r900, under either name, gets the outbound and the name that goes with it. */
  lemma {:induction false} CatchallRenamed(a: seq<Rule>, r900: Rule, b: seq<Rule>)
    requires r900.ruleTag in {Some("r900_direct_global_catchall"), Some("r900_block_global_catchall")}
    requires forall i :: 0 <= i < |a| ==>
               a[i].ruleTag !in {Some("r900_direct_global_catchall"), Some("r900_block_global_catchall")}
    ensures AfterCatchall(a + [r900] + b, "block") ==
            a + [Rule(Some("r900_block_global_catchall"), Some("block"), r900.criteria)] + b
    ensures AfterCatchall(a + [r900] + b, "direct") ==
            a + [Rule(Some("r900_direct_global_catchall"), Some("direct"), r900.criteria)] + b
  {
    var base := a + [r900] + b;
    assert base[|a|] == r900;
    FirstIs(IsCatchall, base, Some(|a|));
    assert "block"[0] == 'b' && "direct"[0] == 'd' && R900_DIRECT[5] == 'd' && R900_BLOCK[5] == 'b';
    forall rule ensures base[|a| := rule] == a + [rule] + b {}
  }
}
