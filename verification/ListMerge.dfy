/**
  The list strategies of scripts/config_src_merge.py, for items of any type and any tagging: what they
  keep, and the laws that make repeated and nested merging predictable.
 */
module ListMerge {
  import opened Common

  /** The distinct elements, in order of first occurrence. */
  function Dedup<T(==)>(s: seq<T>): seq<T> {
    if s == [] then []
    else if Latest(s) in Earlier(s) then Dedup(Earlier(s))
    else Dedup(Earlier(s)) + [Latest(s)]
  }

  /** The tags of the tagged items, in order. */
  function Tags<T>(tag: T -> Option<string>, s: seq<T>): seq<string> {
    if s == [] then []
    else Tags(tag, Earlier(s)) + (match tag(Latest(s)) case Some(t) => [t] case None => [])
  }

  function Untagged<T>(tag: T -> Option<string>, s: seq<T>): seq<T> {
    if s == [] then []
    else Untagged(tag, Earlier(s)) + (if tag(Latest(s)).None? then [Latest(s)] else [])
  }

  /** The last item that carries the tag. */
  function LastWith<T>(tag: T -> Option<string>, s: seq<T>, t: string): (r: T)
    requires t in Tags(tag, s)
    ensures tag(r) == Some(t)
  {
    if tag(Latest(s)) == Some(t) then Latest(s)
    else
      assert t in Tags(tag, Earlier(s));
      LastWith(tag, Earlier(s), t)
  }

  function Winners<T>(tag: T -> Option<string>, s: seq<T>, ts: seq<string>): seq<T>
    requires forall t :: t in ts ==> t in Tags(tag, s)
  {
    seq(|ts|, i requires 0 <= i < |ts| && (forall t :: t in ts ==> t in Tags(tag, s)) => LastWith(tag, s, ts[i]))
  }

  /**
    What `append_unique_by_tag` makes of all the items end to end: per tag, in order of first occurrence,
    the last item that carries it; then the distinct untagged items.
   */
  function ByTag<T(==)>(tag: T -> Option<string>, s: seq<T>): seq<T> {
    DedupMembers(Tags(tag, s));
    Winners(tag, s, Dedup(Tags(tag, s))) + Dedup(Untagged(tag, s))
  }

  // ----- distinct elements -----

  lemma {:induction false} DedupMembers<T>(s: seq<T>)
    ensures forall x :: x in Dedup(s) <==> x in s
  {
    if s != [] {
      DedupMembers(Earlier(s));
      assert s == Earlier(s) + [Latest(s)];
    }
  }

  lemma {:induction false} DedupMember<T>(s: seq<T>, x: T)
    ensures x in Dedup(s) <==> x in s
  {
    DedupMembers(s);
  }

  lemma {:induction false} DedupTwice<T>(s: seq<T>)
    ensures Dedup(Dedup(s)) == Dedup(s)
  {
    if s != [] {
      DedupTwice(Earlier(s));
      DedupMembers(Earlier(s));
      var d := Dedup(Earlier(s));
      assert Earlier(d + [Latest(s)]) == d;
    }
  }

  lemma {:induction false} DedupLeft<T>(x: seq<T>, y: seq<T>)
    ensures Dedup(Dedup(x) + y) == Dedup(x + y)
  {
    if y == [] {
      assert Dedup(x) + y == Dedup(x) && x + y == x;
      DedupTwice(x);
    } else {
      DedupLeft(x, Earlier(y));
      DedupMembers(x);
      assert Earlier(x + y) == x + Earlier(y) && Earlier(Dedup(x) + y) == Dedup(x) + Earlier(y);
      assert Latest(x + y) == Latest(y) == Latest(Dedup(x) + y);
    }
  }

  lemma {:induction false} DedupRight<T>(x: seq<T>, y: seq<T>)
    ensures Dedup(x + Dedup(y)) == Dedup(x + y)
  {
    if y == [] {
    } else {
      var l, e := Latest(y), Earlier(y);
      DedupRight(x, e);
      DedupMembers(e);
      assert Earlier(x + y) == x + e && Latest(x + y) == l;
      if l !in e {
        assert Earlier(x + (Dedup(e) + [l])) == x + Dedup(e) && Latest(x + (Dedup(e) + [l])) == l;
      }
    }
  }

  lemma {:induction false} DedupAbsorbs<T>(x: seq<T>, y: seq<T>)
    requires forall e :: e in y ==> e in x
    ensures Dedup(x + y) == Dedup(x)
  {
    if y == [] {
      assert x + y == x;
    } else {
      assert Latest(y) in y;
      DedupAbsorbs(x, Earlier(y));
      assert Earlier(x + y) == x + Earlier(y) && Latest(x + y) == Latest(y);
    }
  }

  // ----- tags -----

  lemma {:induction false} TagsAppend<T>(tag: T -> Option<string>, x: seq<T>, y: seq<T>)
    ensures Tags(tag, x + y) == Tags(tag, x) + Tags(tag, y)
    ensures Untagged(tag, x + y) == Untagged(tag, x) + Untagged(tag, y)
  {
    if y == [] {
      assert x + y == x;
    } else {
      TagsAppend(tag, x, Earlier(y));
      assert Earlier(x + y) == x + Earlier(y) && Latest(x + y) == Latest(y);
    }
  }

  lemma {:induction false} LastWithAppend<T>(tag: T -> Option<string>, x: seq<T>, y: seq<T>, t: string)
    requires t in Tags(tag, x) || t in Tags(tag, y)
    ensures t in Tags(tag, x + y)
    ensures LastWith(tag, x + y, t) == if t in Tags(tag, y) then LastWith(tag, y, t) else LastWith(tag, x, t)
  {
    TagsAppend(tag, x, y);
    if y == [] {
      assert x + y == x;
    } else {
      assert Earlier(x + y) == x + Earlier(y) && Latest(x + y) == Latest(y);
      if tag(Latest(y)) != Some(t) { LastWithAppend(tag, x, Earlier(y), t); }
    }
  }

  lemma {:induction false} TagsOfTagged<T>(tag: T -> Option<string>, s: seq<T>, ts: seq<string>)
    requires |s| == |ts| && forall i :: 0 <= i < |s| ==> tag(s[i]) == Some(ts[i])
    ensures Tags(tag, s) == ts && Untagged(tag, s) == []
  {
    if s != [] {
      TagsOfTagged(tag, Earlier(s), Earlier(ts));
      assert ts == Earlier(ts) + [Latest(ts)];
    }
  }

  lemma {:induction false} UntaggedOfUntagged<T>(tag: T -> Option<string>, s: seq<T>)
    requires forall x :: x in s ==> tag(x).None?
    ensures Tags(tag, s) == [] && Untagged(tag, s) == s
  {
    if s != [] {
      assert Latest(s) in s && s == Earlier(s) + [Latest(s)];
      UntaggedOfUntagged(tag, Earlier(s));
    }
  }

  lemma {:induction false} UntaggedHaveNoTag<T>(tag: T -> Option<string>, s: seq<T>)
    ensures forall x :: x in Untagged(tag, s) ==> tag(x).None?
  {
    if s != [] { UntaggedHaveNoTag(tag, Earlier(s)); }
  }

  lemma {:induction false} LastWithOfDistinct<T>(tag: T -> Option<string>, s: seq<T>, ts: seq<string>, i: nat)
    requires |s| == |ts| && forall k :: 0 <= k < |s| ==> tag(s[k]) == Some(ts[k])
    requires i < |ts| && forall k :: i < k < |ts| ==> ts[k] != ts[i]
    ensures ts[i] in Tags(tag, s) && LastWith(tag, s, ts[i]) == s[i]
  {
    TagsOfTagged(tag, s, ts);
    if i < |s| - 1 {
      LastWithOfDistinct(tag, Earlier(s), Earlier(ts), i);
    }
  }

  lemma {:induction false} DedupDistinct<T>(s: seq<T>)
    ensures forall i, j :: 0 <= i < j < |Dedup(s)| ==> Dedup(s)[i] != Dedup(s)[j]
  {
    if s != [] {
      DedupDistinct(Earlier(s));
      DedupMembers(Earlier(s));
    }
  }

  /** The tags, untagged items and winners of a list merged by tag are those of the list. */
  lemma {:induction false} ByTagKeeps<T>(tag: T -> Option<string>, s: seq<T>)
    ensures Tags(tag, ByTag(tag, s)) == Dedup(Tags(tag, s))
    ensures Untagged(tag, ByTag(tag, s)) == Dedup(Untagged(tag, s))
    ensures forall t :: t in Tags(tag, s) ==>
              t in Tags(tag, ByTag(tag, s)) && LastWith(tag, ByTag(tag, s), t) == LastWith(tag, s, t)
  {
    DedupMembers(Tags(tag, s));
    DedupMembers(Untagged(tag, s));
    UntaggedHaveNoTag(tag, s);
    var ts, us := Dedup(Tags(tag, s)), Dedup(Untagged(tag, s));
    var ws := Winners(tag, s, ts);
    TagsOfTagged(tag, ws, ts);
    forall x | x in us ensures tag(x).None? { DedupMember(Untagged(tag, s), x); }
    UntaggedOfUntagged(tag, us);
    TagsAppend(tag, ws, us);
    forall t | t in Tags(tag, s)
      ensures t in Tags(tag, ByTag(tag, s)) && LastWith(tag, ByTag(tag, s), t) == LastWith(tag, s, t)
    {
      WinnerIsLast(tag, s, t);
      LastWithAppend(tag, ws, us, t);
    }
  }

  lemma {:induction false} WinnerIsLast<T>(tag: T -> Option<string>, s: seq<T>, t: string)
    requires t in Tags(tag, s) && forall u :: u in Dedup(Tags(tag, s)) ==> u in Tags(tag, s)
    ensures var ws := Winners(tag, s, Dedup(Tags(tag, s)));
            t in Tags(tag, ws) && LastWith(tag, ws, t) == LastWith(tag, s, t)
  {
    var ts := Dedup(Tags(tag, s));
    DedupMember(Tags(tag, s), t);
    DedupDistinct(Tags(tag, s));
    var i :| 0 <= i < |ts| && ts[i] == t;
    LastWithOfDistinct(tag, Winners(tag, s, ts), ts, i);
  }

  /** Lists with the same distinct tags, winners and distinct untagged items merge alike. */
  lemma {:induction false} SameByTag<T>(tag: T -> Option<string>, x: seq<T>, y: seq<T>)
    requires Dedup(Tags(tag, x)) == Dedup(Tags(tag, y)) && Dedup(Untagged(tag, x)) == Dedup(Untagged(tag, y))
    requires forall t :: t in Tags(tag, x) && t in Tags(tag, y) ==> LastWith(tag, x, t) == LastWith(tag, y, t)
    ensures ByTag(tag, x) == ByTag(tag, y)
  {
    DedupMembers(Tags(tag, x));
    DedupMembers(Tags(tag, y));
    SameWinners(tag, x, y, Dedup(Tags(tag, x)));
  }

  lemma {:induction false} SameWinners<T>(tag: T -> Option<string>, x: seq<T>, y: seq<T>, ts: seq<string>)
    requires forall t :: t in ts ==>
               t in Tags(tag, x) && t in Tags(tag, y) && LastWith(tag, x, t) == LastWith(tag, y, t)
    ensures Winners(tag, x, ts) == Winners(tag, y, ts)
  {
    assert forall i :: 0 <= i < |ts| ==> ts[i] in ts;
  }

  lemma {:induction false} ByTagLeft<T>(tag: T -> Option<string>, x: seq<T>, y: seq<T>)
    ensures ByTag(tag, ByTag(tag, x) + y) == ByTag(tag, x + y)
  {
    ByTagKeeps(tag, x);
    var n := ByTag(tag, x);
    TagsAppend(tag, n, y);
    TagsAppend(tag, x, y);
    DedupLeft(Tags(tag, x), Tags(tag, y));
    DedupLeft(Untagged(tag, x), Untagged(tag, y));
    DedupMembers(Tags(tag, x));
    forall t | t in Tags(tag, n + y) && t in Tags(tag, x + y)
      ensures LastWith(tag, n + y, t) == LastWith(tag, x + y, t)
    {
      LastWithAppend(tag, n, y, t);
      LastWithAppend(tag, x, y, t);
    }
    SameByTag(tag, n + y, x + y);
  }

  lemma {:induction false} ByTagRight<T>(tag: T -> Option<string>, x: seq<T>, y: seq<T>)
    ensures ByTag(tag, x + ByTag(tag, y)) == ByTag(tag, x + y)
  {
    ByTagKeeps(tag, y);
    var n := ByTag(tag, y);
    TagsAppend(tag, x, n);
    TagsAppend(tag, x, y);
    DedupRight(Tags(tag, x), Tags(tag, y));
    DedupRight(Untagged(tag, x), Untagged(tag, y));
    DedupMembers(Tags(tag, y));
    forall t | t in Tags(tag, x + n) && t in Tags(tag, x + y)
      ensures LastWith(tag, x + n, t) == LastWith(tag, x + y, t)
    {
      LastWithAppend(tag, x, n, t);
      LastWithAppend(tag, x, y, t);
    }
    SameByTag(tag, x + n, x + y);
  }

  /** Appending the same items once more changes nothing. */
  lemma {:induction false} ByTagAbsorbs<T>(tag: T -> Option<string>, x: seq<T>, y: seq<T>)
    ensures ByTag(tag, (x + y) + y) == ByTag(tag, x + y)
  {
    TagsAppend(tag, x, y);
    TagsAppend(tag, x + y, y);
    DedupAbsorbs(Tags(tag, x + y), Tags(tag, y));
    DedupAbsorbs(Untagged(tag, x + y), Untagged(tag, y));
    forall t | t in Tags(tag, (x + y) + y) && t in Tags(tag, x + y)
      ensures LastWith(tag, (x + y) + y, t) == LastWith(tag, x + y, t)
    {
      LastWithAppend(tag, x + y, y, t);
      LastWithAppend(tag, x, y, t);
    }
    SameByTag(tag, (x + y) + y, x + y);
  }

  // ----- the four strategies -----

  datatype Strategy = Append | Replace | AppendUnique | AppendUniqueByTag

  function Merge<T(==)>(tag: T -> Option<string>, base: seq<T>, overlay: seq<T>, strategy: Strategy): seq<T> {
    match strategy
    case Append => base + overlay
    case Replace => overlay
    case AppendUnique => Dedup(base + overlay)
    case AppendUniqueByTag => ByTag(tag, base + overlay)
  }

  /** Under each strategy, merging is associative. */
  lemma {:induction false} MergeAssociates<T>(tag: T -> Option<string>, a: seq<T>, b: seq<T>, c: seq<T>,
    strategy: Strategy)
    ensures Merge(tag, Merge(tag, a, b, strategy), c, strategy) == Merge(tag, a, Merge(tag, b, c, strategy), strategy)
  {
    assert (a + b) + c == a + (b + c);
    match strategy {
      case Append =>
      case Replace =>
      case AppendUnique =>
        DedupLeft(a + b, c);
        DedupRight(a, b + c);
      case AppendUniqueByTag =>
        ByTagLeft(tag, a + b, c);
        ByTagRight(tag, a, b + c);
    }
  }

  /** Merging the same overlay twice is merging it once, except that `append` repeats a nonempty overlay. */
  lemma {:induction false} MergeTwice<T>(tag: T -> Option<string>, base: seq<T>, overlay: seq<T>, strategy: Strategy)
    ensures Merge(tag, Merge(tag, base, overlay, strategy), overlay, strategy)
            == Merge(tag, base, overlay, strategy) <==>
            (strategy != Append || overlay == [])
  {
    match strategy {
      case Append => assert |base + overlay + overlay| == |base + overlay| + |overlay|;
      case Replace =>
      case AppendUnique =>
        DedupLeft(base + overlay, overlay);
        DedupAbsorbs(base + overlay, overlay);
      case AppendUniqueByTag =>
        ByTagLeft(tag, base + overlay, overlay);
        ByTagAbsorbs(tag, base, overlay);
    }
  }

  // ----- lists that merging leaves alone -----

  predicate Distinct<T(==)>(s: seq<T>) { forall i, j :: 0 <= i < j < |s| ==> s[i] != s[j] }

  /** Tagged items come first, and no tag is repeated. */
  predicate TaggedFirst<T>(tag: T -> Option<string>, s: seq<T>) {
    forall i, j :: 0 <= i < j < |s| ==>
      (tag(s[j]).Some? ==> tag(s[i]).Some?) && (tag(s[i]).Some? ==> tag(s[i]) != tag(s[j]))
  }

  /** A list in the form that a strategy produces. */
  predicate Neat<T(==)>(tag: T -> Option<string>, s: seq<T>, strategy: Strategy) {
    match strategy
    case Append => true
    case Replace => true
    case AppendUnique => Distinct(s)
    case AppendUniqueByTag => Distinct(s) && TaggedFirst(tag, s)
  }

  lemma {:induction false} DedupOfDistinct<T>(s: seq<T>)
    ensures Dedup(s) == s <==> Distinct(s)
  {
    DedupDistinct(s);
    if s != [] && Distinct(s) {
      DedupOfDistinct(Earlier(s));
      assert Latest(s) == s[|s| - 1];
    }
  }

  lemma {:induction false} TaggedPrefix<T>(tag: T -> Option<string>, s: seq<T>) returns (n: nat)
    requires TaggedFirst(tag, s)
    ensures n <= |s| && (forall i :: 0 <= i < n ==> tag(s[i]).Some?) && forall i :: n <= i < |s| ==> tag(s[i]).None?
  {
    n := 0;
    if s != [] {
      n := TaggedPrefix(tag, Earlier(s));
      if tag(Latest(s)).Some? {
        if n < |s| - 1 { assert tag(s[n]).Some?; }
        n := |s|;
      }
    }
  }

  lemma {:induction false} NeatByTag<T>(tag: T -> Option<string>, s: seq<T>)
    requires Distinct(s) && TaggedFirst(tag, s)
    ensures ByTag(tag, s) == s
  {
    var n := TaggedPrefix(tag, s);
    var p, u := s[..n], s[n..];
    var ts := seq(n, i requires 0 <= i < n && n <= |s| && (forall k :: 0 <= k < n ==> tag(s[k]).Some?)
      => tag(s[i]).value);
    assert s == p + u;
    forall i, j | 0 <= i < j < n ensures ts[i] != ts[j] { assert tag(s[i]) != tag(s[j]); }
    ByTagOfParts(tag, p, ts, u);
  }

  /** Tagged items with distinct tags, then distinct untagged items. */
  lemma {:induction false} ByTagOfParts<T>(tag: T -> Option<string>, p: seq<T>, ts: seq<string>, u: seq<T>)
    requires |p| == |ts| && (forall i :: 0 <= i < |p| ==> tag(p[i]) == Some(ts[i])) && Distinct(ts)
    requires (forall x :: x in u ==> tag(x).None?) && Distinct(u)
    ensures ByTag(tag, p + u) == p + u
  {
    TagsOfTagged(tag, p, ts);
    UntaggedOfUntagged(tag, u);
    TagsAppend(tag, p, u);
    DedupOfDistinct(ts);
    DedupOfDistinct(u);
    assert ts + [] == ts && [] + u == u;
    WinnersOfParts(tag, p, ts, u);
  }

  lemma {:induction false} WinnersOfParts<T>(tag: T -> Option<string>, p: seq<T>, ts: seq<string>, u: seq<T>)
    requires |p| == |ts| && (forall i :: 0 <= i < |p| ==> tag(p[i]) == Some(ts[i])) && Distinct(ts)
    requires Tags(tag, p) == ts && Tags(tag, u) == []
    ensures (forall t :: t in ts ==> t in Tags(tag, p + u)) && Winners(tag, p + u, ts) == p
  {
    TagsAppend(tag, p, u);
    forall i | 0 <= i < |ts| ensures LastWith(tag, p + u, ts[i]) == p[i] {
      LastWithOfDistinct(tag, p, ts, i);
      LastWithAppend(tag, p, u, ts[i]);
    }
  }

  lemma {:induction false} ByTagIsNeat<T>(tag: T -> Option<string>, s: seq<T>)
    ensures Distinct(ByTag(tag, s)) && TaggedFirst(tag, ByTag(tag, s))
  {
    DedupMembers(Tags(tag, s));
    DedupDistinct(Tags(tag, s));
    DedupDistinct(Untagged(tag, s));
    UntaggedHaveNoTag(tag, s);
    var ts, us := Dedup(Tags(tag, s)), Dedup(Untagged(tag, s));
    var ws := Winners(tag, s, ts);
    forall i | 0 <= i < |us| ensures tag(us[i]).None? { DedupMember(Untagged(tag, s), us[i]); }
    forall i | 0 <= i < |ws| ensures tag(ws[i]) == Some(ts[i]) {}
  }

  /** Merged onto the empty list, a list stays as it is exactly when it is neat. */
  lemma {:induction false} NeatMergesToItself<T>(tag: T -> Option<string>, s: seq<T>, strategy: Strategy)
    ensures Merge(tag, [], s, strategy) == s <==> Neat(tag, s, strategy)
  {
    assert [] + s == s;
    match strategy {
      case Append =>
      case Replace =>
      case AppendUnique => DedupOfDistinct(s);
      case AppendUniqueByTag =>
        if Neat(tag, s, strategy) { NeatByTag(tag, s); }
        ByTagIsNeat(tag, s);
    }
  }

  /** What it takes for a list to swallow the one it is merged onto. */
  predicate Absorbs<T(==)>(tag: T -> Option<string>, base: seq<T>, overlay: seq<T>, strategy: Strategy) {
    match strategy
    case Append => base == []
    case Replace => true
    case AppendUnique => Distinct(overlay) && Dedup(base) <= overlay
    case AppendUniqueByTag =>
      && Distinct(overlay) && TaggedFirst(tag, overlay)
      && Dedup(Tags(tag, base)) <= Tags(tag, overlay) && Dedup(Untagged(tag, base)) <= Untagged(tag, overlay)
  }

  lemma {:induction false} DedupStarts<T>(x: seq<T>, y: seq<T>)
    ensures Dedup(x) <= Dedup(x + y)
  {
    if y == [] {
      assert x + y == x;
    } else {
      DedupStarts(x, Earlier(y));
      assert Earlier(x + y) == x + Earlier(y);
    }
  }

  /** A distinct list swallows another exactly when it starts with the distinct elements of that one. */
  lemma {:induction false} DedupSwallows<T>(x: seq<T>, y: seq<T>)
    requires Distinct(y)
    ensures Dedup(x + y) == y <==> Dedup(x) <= y
  {
    DedupStarts(x, y);
    if Dedup(x) <= y {
      var d, more := Dedup(x), y[|Dedup(x)|..];
      assert y == d + more && d + y == (d + d) + more;
      DedupLeft(x, y);
      DedupLeft(d + d, more);
      DedupAbsorbs(d, d);
      DedupTwice(x);
      DedupOfDistinct(y);
    }
  }

  lemma {:induction false} AbsorbsByTag<T>(tag: T -> Option<string>, base: seq<T>, overlay: seq<T>)
    requires Distinct(overlay) && TaggedFirst(tag, overlay)
    ensures ByTag(tag, base + overlay) == overlay <==> Absorbs(tag, base, overlay, AppendUniqueByTag)
  {
    NeatByTag(tag, overlay);
    ByTagKeeps(tag, overlay);
    ByTagKeeps(tag, base + overlay);
    TagsAppend(tag, base, overlay);
    var ts, us := Tags(tag, overlay), Untagged(tag, overlay);
    DedupOfDistinct(ts);
    DedupOfDistinct(us);
    DedupSwallows(Tags(tag, base), ts);
    DedupSwallows(Untagged(tag, base), us);
    if Absorbs(tag, base, overlay, AppendUniqueByTag) {
      DedupMembers(Tags(tag, base + overlay));
      forall t | t in Tags(tag, base + overlay) && t in ts
        ensures LastWith(tag, base + overlay, t) == LastWith(tag, overlay, t)
      {
        LastWithAppend(tag, base, overlay, t);
      }
      SameByTag(tag, base + overlay, overlay);
    }
  }

  /** Merging an overlay onto a list gives the overlay back exactly when it absorbs the list. */
  lemma {:induction false} MergeAbsorbs<T>(tag: T -> Option<string>, base: seq<T>, overlay: seq<T>, strategy: Strategy)
    ensures Merge(tag, base, overlay, strategy) == overlay <==> Absorbs(tag, base, overlay, strategy)
  {
    match strategy {
      case Append => assert |base + overlay| == |base| + |overlay|;
      case Replace =>
      case AppendUnique =>
        DedupDistinct(base + overlay);
        if Distinct(overlay) { DedupSwallows(base, overlay); }
      case AppendUniqueByTag =>
        ByTagIsNeat(tag, base + overlay);
        if Distinct(overlay) && TaggedFirst(tag, overlay) { AbsorbsByTag(tag, base, overlay); }
    }
  }

  // ----- the loops -----

  /** The loop of `append_unique`. */
  method AppendUniqueLoop<T(==)>(items: seq<T>) returns (merged: seq<T>)
    ensures merged == Dedup(items)
  {
    var seen: set<T> := {};
    merged := [];
    for i := 0 to |items|
      invariant merged == Dedup(items[..i])
      invariant forall x :: x in seen <==> x in items[..i]
    {
      var item := items[i];
      assert Earlier(items[..i + 1]) == items[..i] && Latest(items[..i + 1]) == item;
      assert items[..i + 1] == items[..i] + [item];
      if item in seen { continue; }
      seen := seen + {item};
      merged := merged + [item];
    }
    assert items[..|items|] == items;
  }

  /** The insertion-ordered table of tagged items, and the distinct untagged ones. */
  datatype Sorted<T> = Sorted(order: seq<string>, tagged: map<string, T>, untagged: seq<T>, seen: set<T>)

  /** The table holds each tag so far with the last item that carries it. */
  ghost predicate HoldsTagged<T(!new)>(tag: T -> Option<string>, order: seq<string>, tagged: map<string, T>,
    s: seq<T>) {
    && order == Dedup(Tags(tag, s))
    && (forall t :: t in tagged <==> t in Tags(tag, s))
    && (forall t :: t in tagged && t in Tags(tag, s) ==> tagged[t] == LastWith(tag, s, t))
  }

  ghost predicate HoldsUntagged<T(!new)>(tag: T -> Option<string>, untagged: seq<T>, seen: set<T>, s: seq<T>) {
    untagged == Dedup(Untagged(tag, s)) && forall x :: x in seen <==> x in Untagged(tag, s)
  }

  /** The table after the items so far. */
  ghost predicate Holds<T(!new)>(tag: T -> Option<string>, d: Sorted<T>, s: seq<T>) {
    HoldsTagged(tag, d.order, d.tagged, s) && HoldsUntagged(tag, d.untagged, d.seen, s)
  }

  lemma {:induction false} DedupOneMore<T>(s: seq<T>, x: T)
    ensures Dedup(s + [x]) == if x in s then Dedup(s) else Dedup(s) + [x]
  {
    assert Earlier(s + [x]) == s;
  }

  lemma {:induction false} TaggedOneMore<T(!new)>(tag: T -> Option<string>, d: Sorted<T>, s: seq<T>, item: T, t: string)
    requires Holds(tag, d, s) && tag(item) == Some(t)
    ensures HoldsTagged(tag, if t in d.tagged then d.order else d.order + [t], d.tagged[t := item], s + [item])
    ensures HoldsUntagged(tag, d.untagged, d.seen, s + [item])
  {
    var more := s + [item];
    assert Earlier(more) == s && Latest(more) == item;
    assert Tags(tag, more) == Tags(tag, s) + [t] && Untagged(tag, more) == Untagged(tag, s);
    DedupOneMore(Tags(tag, s), t);
    var after := d.tagged[t := item];
    forall u | u in after && u in Tags(tag, more) ensures after[u] == LastWith(tag, more, u) {
      if u != t { assert u in d.tagged && u in Tags(tag, s); }
    }
  }

  lemma {:induction false} UntaggedOneMore<T(!new)>(tag: T -> Option<string>, d: Sorted<T>, s: seq<T>, item: T)
    requires Holds(tag, d, s) && tag(item).None?
    ensures HoldsTagged(tag, d.order, d.tagged, s + [item])
    ensures if item in d.seen then HoldsUntagged(tag, d.untagged, d.seen, s + [item])
            else HoldsUntagged(tag, d.untagged + [item], d.seen + {item}, s + [item])
  {
    var more := s + [item];
    assert Earlier(more) == s && Latest(more) == item;
    assert Tags(tag, more) == Tags(tag, s) && Untagged(tag, more) == Untagged(tag, s) + [item];
    DedupOneMore(Untagged(tag, s), item);
    forall u | u in d.tagged && u in Tags(tag, more) ensures d.tagged[u] == LastWith(tag, more, u) {
      assert u in Tags(tag, s);
    }
  }

  /** The body of both loops of `append_unique_by_tag`. */
  method Place<T(==, !new)>(tag: T -> Option<string>, d: Sorted<T>, item: T, ghost s: seq<T>) returns (r: Sorted<T>)
    requires Holds(tag, d, s)
    ensures Holds(tag, r, s + [item])
  {
    match tag(item) {
      case Some(t) =>
        TaggedOneMore(tag, d, s, item, t);
        r := d.(order := if t in d.tagged then d.order else d.order + [t], tagged := d.tagged[t := item]);
      case None =>
        UntaggedOneMore(tag, d, s, item);
        r := if item in d.seen then d else d.(seen := d.seen + {item}, untagged := d.untagged + [item]);
    }
  }

  /** Either loop of `append_unique_by_tag`: the same body over the base and over the overlay. */
  method PlaceAll<T(==, !new)>(tag: T -> Option<string>, d: Sorted<T>, items: seq<T>, ghost done: seq<T>)
    returns (r: Sorted<T>)
    requires Holds(tag, d, done)
    ensures Holds(tag, r, done + items)
  {
    r := d;
    assert done + items[..0] == done;
    for i := 0 to |items|
      invariant Holds(tag, r, done + items[..i])
    {
      r := Place(tag, r, items[i], done + items[..i]);
      OneMoreItem(done, items, i);
    }
    assert items[..|items|] == items;
  }

  lemma {:induction false} OneMoreItem<T>(done: seq<T>, items: seq<T>, i: nat)
    requires i < |items|
    ensures (done + items[..i]) + [items[i]] == done + items[..i + 1]
  {}

  method ByTagLoops<T(==, !new)>(tag: T -> Option<string>, base: seq<T>, overlay: seq<T>) returns (merged: seq<T>)
    ensures merged == ByTag(tag, base + overlay)
  {
    var d: Sorted<T> := Sorted([], map[], [], {});
    d := PlaceAll(tag, d, base, []);
    assert [] + base == base;
    d := PlaceAll(tag, d, overlay, base);
    merged := TableItems(tag, d, base + overlay);
  }

  /** The values of the table in insertion order, then the untagged items. */
  function TableItems<T(!new)>(tag: T -> Option<string>, d: Sorted<T>, ghost s: seq<T>): (r: seq<T>)
    requires Holds(tag, d, s)
    ensures r == ByTag(tag, s)
  {
    DedupMembers(Tags(tag, s));
    seq(|d.order|, i requires 0 <= i < |d.order| && (forall t :: t in d.order ==> t in d.tagged)
      => d.tagged[d.order[i]]) + d.untagged
  }

  method MergeListLoop<T(==, !new)>(tag: T -> Option<string>, base: seq<T>, overlay: seq<T>, strategy: Strategy)
    returns (merged: seq<T>)
    ensures merged == Merge(tag, base, overlay, strategy)
  {
    match strategy {
      case Replace => merged := overlay;
      case Append => merged := base + overlay;
      case AppendUnique => merged := AppendUniqueLoop(base + overlay);
      case AppendUniqueByTag => merged := ByTagLoops(tag, base, overlay);
    }
  }
}
