/** Routing rules and first-match routing. */
module Routing {
  import opened Common

  /** The `inboundTag` of a rule: absent, one tag, a list of tags, or something else. */
  datatype Inbound = Absent | OneTag(tag: string) | Tags(tags: seq<string>) | Other

  /**
    What a rule matches on: everything but its own tag and its outbound. `others` holds the remaining keys as
    JSON text.
   */
  datatype Criteria = Criteria(inbound: Inbound, ip: Option<seq<string>>, others: map<string, string>)

  /** A rule; a tag or an outbound that is missing or not a string is `None`. */
  datatype Rule = Rule(ruleTag: Option<string>, outbound: Option<string>, criteria: Criteria)

  /** Where a connection goes: to the outbound of the rule that decides, or to the default when none does. */
  datatype Decision = Default | To(outbound: Option<string>)

  /** The first rule with a property. */
  function First(p: Rule -> bool, rules: seq<Rule>): (r: Option<nat>)
    ensures r.Some? ==> IsFirst(p, rules, r.value)
    ensures r.None? ==> forall k :: 0 <= k < |rules| ==> !p(rules[k])
  {
    if rules == [] then None
    else if p(rules[0]) then Some(0)
    else match First(p, rules[1..])
      case None => None
      case Some(k) => Some(k + 1)
  }

  predicate IsFirst(p: Rule -> bool, rules: seq<Rule>, i: nat) {
    i < |rules| && p(rules[i]) && forall k :: 0 <= k < i ==> !p(rules[k])
  }

  /** The first rule that matches, for any notion of matching that looks at the criteria only. */
  function FirstMatch<C>(matches: (Criteria, C) -> bool, rules: seq<Rule>, conn: C): Option<nat> {
    First((r: Rule) => matches(r.criteria, conn), rules)
  }

  function Route<C>(matches: (Criteria, C) -> bool, rules: seq<Rule>, conn: C): (d: Decision)
  {
    match FirstMatch(matches, rules, conn)
    case None => Default
    case Some(k) => if k < |rules| then To(rules[k].outbound) else Default
  }

  function Inserted(rules: seq<Rule>, i: nat, rule: Rule): (r: seq<Rule>)
    requires i <= |rules|
    ensures |r| == |rules| + 1 && r[i] == rule
    ensures forall k :: 0 <= k < i ==> r[k] == rules[k]
    ensures forall k :: i <= k < |rules| ==> r[k + 1] == rules[k]
  {
    rules[..i] + [rule] + rules[i..]
  }

  /** What `First` answers. */
  predicate Answers(p: Rule -> bool, rules: seq<Rule>, f: Option<nat>) {
    match f
    case Some(i) => IsFirst(p, rules, i)
    case None => forall k :: 0 <= k < |rules| ==> !p(rules[k])
  }

  lemma {:induction false} FirstIs(p: Rule -> bool, rules: seq<Rule>, f: Option<nat>)
    requires Answers(p, rules, f)
    ensures First(p, rules) == f
  {}

  function Shifted(p: Rule -> bool, f: Option<nat>, i: nat, rule: Rule): Option<nat> {
    if f.Some? && f.value < i then f
    else if p(rule) then Some(i)
    else if f.Some? then Some(f.value + 1)
    else None
  }

  lemma {:induction false} ShiftedAnswers(p: Rule -> bool, rules: seq<Rule>, i: nat, rule: Rule, f: Option<nat>)
    requires i <= |rules| && Answers(p, rules, f)
    ensures Answers(p, Inserted(rules, i, rule), Shifted(p, f, i, rule))
  {
    var more := Inserted(rules, i, rule);
    forall k | i < k < |more| ensures more[k] == rules[k - 1] {}
  }

  lemma {:induction false} FirstAfterInsertion(p: Rule -> bool, rules: seq<Rule>, i: nat, rule: Rule)
    requires i <= |rules|
    ensures First(p, Inserted(rules, i, rule)) == Shifted(p, First(p, rules), i, rule)
  {
    ShiftedAnswers(p, rules, i, rule, First(p, rules));
    FirstIs(p, Inserted(rules, i, rule), Shifted(p, First(p, rules), i, rule));
  }
}
