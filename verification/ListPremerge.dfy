/** When lists can be merged in another order, or with another strategy, for strategies that may differ. */
module ListPremerge {
  import opened Common
  import opened ListMerge

  // ----- one overlay, two strategies -----

  /** What it takes for two strategies to merge two lists alike. */
  predicate Indifferent<T(==)>(tag: T -> Option<string>, a: seq<T>, c: seq<T>, s: Strategy, t: Strategy) {
    if s == t then true
    else if s.Replace? then Absorbs(tag, a, c, t)
    else if t.Replace? then Absorbs(tag, a, c, s)
    else if s.Append? then Neat(tag, a + c, t)
    else if t.Append? then Neat(tag, a + c, s)
    else TaggedFirst(tag, Dedup(a + c))
  }

  lemma {:induction false} IndifferentExactly<T(!new)>(tag: T -> Option<string>, a: seq<T>, c: seq<T>, s: Strategy,
    t: Strategy)
    ensures Merge(tag, a, c, s) == Merge(tag, a, c, t) <==> Indifferent(tag, a, c, s, t)
  {
    if s != t {
      if s.Replace? || t.Replace? {
        MergeAbsorbs(tag, a, c, s);
        MergeAbsorbs(tag, a, c, t);
      } else if s.Append? || t.Append? {
        FixedPoint(tag, a, c, if s.Append? then t else s);
      } else {
        UniqueIsByTag(tag, a + c);
      }
    }
  }

  lemma {:induction false} FixedPoint<T>(tag: T -> Option<string>, a: seq<T>, c: seq<T>, s: Strategy)
    requires !s.Replace?
    ensures Merge(tag, a, c, s) == a + c <==> Neat(tag, a + c, s)
  {
    NeatMergesToItself(tag, a + c, s);
    assert [] + (a + c) == a + c;
  }

  // ----- tags among the distinct elements -----

  lemma {:induction false} MemberHasTag<T>(tag: T -> Option<string>, s: seq<T>, x: T, t: string)
    requires x in s && tag(x) == Some(t)
    ensures t in Tags(tag, s)
  {
    if x != Latest(s) {
      assert s == Earlier(s) + [Latest(s)];
      MemberHasTag(tag, Earlier(s), x, t);
    }
  }

  lemma {:induction false} LastIsMember<T>(tag: T -> Option<string>, s: seq<T>, t: string)
    requires t in Tags(tag, s)
    ensures LastWith(tag, s, t) in s
  {
    if tag(Latest(s)) != Some(t) { LastIsMember(tag, Earlier(s), t); }
  }

  /** Where no tag is repeated, whatever carries a tag is the last to carry it. */
  lemma {:induction false} SoleIsLast<T>(tag: T -> Option<string>, s: seq<T>, x: T, t: string)
    requires TaggedFirst(tag, s) && x in s && tag(x) == Some(t)
    ensures t in Tags(tag, s) && LastWith(tag, s, t) == x
  {
    MemberHasTag(tag, s, x, t);
    LastIsMember(tag, s, t);
    var i :| 0 <= i < |s| && s[i] == x;
    var j :| 0 <= j < |s| && s[j] == LastWith(tag, s, t);
  }

  lemma {:induction false} TagsOfDedup<T>(tag: T -> Option<string>, s: seq<T>)
    ensures Dedup(Tags(tag, Dedup(s))) == Dedup(Tags(tag, s))
    ensures Untagged(tag, Dedup(s)) == Dedup(Untagged(tag, s))
  {
    if s != [] {
      TagsOfDedup(tag, Earlier(s));
      if Latest(s) in Earlier(s) {
        RepeatedItem(tag, Earlier(s), Latest(s));
      } else {
        NewItem(tag, Earlier(s), Latest(s));
      }
      assert s == Earlier(s) + [Latest(s)];
    }
  }

  lemma {:induction false} TagsOneMore<T>(tag: T -> Option<string>, s: seq<T>, x: T)
    ensures Tags(tag, s + [x]) == if tag(x).Some? then Tags(tag, s) + [tag(x).value] else Tags(tag, s)
    ensures Untagged(tag, s + [x]) == if tag(x).None? then Untagged(tag, s) + [x] else Untagged(tag, s)
  {
    assert Earlier(s + [x]) == s && Latest(s + [x]) == x;
  }

  lemma {:induction false} RepeatedItem<T>(tag: T -> Option<string>, s: seq<T>, x: T)
    requires x in s
    ensures Dedup(Tags(tag, s + [x])) == Dedup(Tags(tag, s)) && Dedup(Untagged(tag, s + [x])) == Dedup(Untagged(tag, s))
  {
    TagsOneMore(tag, s, x);
    if tag(x).Some? {
      MemberHasTag(tag, s, x, tag(x).value);
      DedupOneMore(Tags(tag, s), tag(x).value);
    } else {
      UntaggedMember(tag, s, x);
      DedupOneMore(Untagged(tag, s), x);
    }
  }

  lemma {:induction false} NewItem<T>(tag: T -> Option<string>, s: seq<T>, x: T)
    requires x !in s
    requires Dedup(Tags(tag, Dedup(s))) == Dedup(Tags(tag, s)) && Untagged(tag, Dedup(s)) == Dedup(Untagged(tag, s))
    ensures Dedup(Tags(tag, Dedup(s) + [x])) == Dedup(Tags(tag, s + [x]))
    ensures Untagged(tag, Dedup(s) + [x]) == Dedup(Untagged(tag, s + [x]))
  {
    TagsOneMore(tag, s, x);
    TagsOneMore(tag, Dedup(s), x);
    if tag(x).Some? {
      SameDistinct(Tags(tag, Dedup(s)), Tags(tag, s), [tag(x).value]);
    } else {
      UntaggedIsMember(tag, s, x);
      DedupOneMore(Untagged(tag, s), x);
    }
  }

  lemma {:induction false} UntaggedMember<T>(tag: T -> Option<string>, s: seq<T>, x: T)
    requires x in s && tag(x).None?
    ensures x in Untagged(tag, s)
  {
    if x != Latest(s) {
      assert s == Earlier(s) + [Latest(s)];
      UntaggedMember(tag, Earlier(s), x);
    }
  }

  lemma {:induction false} UntaggedIsMember<T>(tag: T -> Option<string>, s: seq<T>, x: T)
    ensures x in Untagged(tag, s) ==> x in s
  {
    if s != [] && x in Untagged(tag, s) {
      if x in Untagged(tag, Earlier(s)) { UntaggedIsMember(tag, Earlier(s), x); }
      assert s == Earlier(s) + [Latest(s)];
    }
  }

  /** Two lists are alike to the merge by tag but for the winners. */
  ghost predicate SameTags<T(!new)>(tag: T -> Option<string>, x: seq<T>, y: seq<T>) {
    Dedup(Tags(tag, x)) == Dedup(Tags(tag, y)) && Dedup(Untagged(tag, x)) == Dedup(Untagged(tag, y))
  }

  lemma {:induction false} SameTagsOfDedup<T(!new)>(tag: T -> Option<string>, s: seq<T>)
    ensures SameTags(tag, Dedup(s), s)
  {
    TagsOfDedup(tag, s);
    DedupTwice(Untagged(tag, s));
  }

  lemma {:induction false} SameTagsOfByTag<T(!new)>(tag: T -> Option<string>, s: seq<T>)
    ensures SameTags(tag, ByTag(tag, s), s)
  {
    ByTagKeeps(tag, s);
    DedupTwice(Tags(tag, s));
    DedupTwice(Untagged(tag, s));
  }

  lemma {:induction false} SameTagsJoin<T(!new)>(tag: T -> Option<string>, x: seq<T>, y: seq<T>, z: seq<T>)
    requires SameTags(tag, x, y)
    ensures SameTags(tag, x + z, y + z) && SameTags(tag, z + x, z + y)
  {
    TagsAppend(tag, x, z);
    TagsAppend(tag, y, z);
    TagsAppend(tag, z, x);
    TagsAppend(tag, z, y);
    SameDistinct(Tags(tag, x), Tags(tag, y), Tags(tag, z));
    SameDistinct(Untagged(tag, x), Untagged(tag, y), Untagged(tag, z));
  }

  lemma {:induction false} SameDistinct<T>(x: seq<T>, y: seq<T>, z: seq<T>)
    requires Dedup(x) == Dedup(y)
    ensures Dedup(x + z) == Dedup(y + z) && Dedup(z + x) == Dedup(z + y)
  {
    DedupLeft(x, z);
    DedupLeft(y, z);
    DedupRight(z, x);
    DedupRight(z, y);
  }

  lemma {:induction false} SameTag<T(!new)>(tag: T -> Option<string>, x: seq<T>, y: seq<T>, t: string)
    requires SameTags(tag, x, y)
    ensures t in Tags(tag, x) <==> t in Tags(tag, y)
  {
    DedupMember(Tags(tag, x), t);
    DedupMember(Tags(tag, y), t);
  }

  lemma {:induction false} SameTagsTransitive<T(!new)>(tag: T -> Option<string>, x: seq<T>, y: seq<T>, z: seq<T>)
    requires SameTags(tag, x, y) && SameTags(tag, y, z)
    ensures SameTags(tag, x, z)
  {}

  /** The two lists end in the same item of the tag. */
  predicate SameLast<T(==)>(tag: T -> Option<string>, x: seq<T>, y: seq<T>, t: string) {
    t in Tags(tag, x) && t in Tags(tag, y) ==> LastWith(tag, x, t) == LastWith(tag, y, t)
  }

  /** A neat list is what merging by tag makes of another with the same tags exactly when their winners agree. */
  lemma {:induction false} NeatIsByTag<T(!new)>(tag: T -> Option<string>, s: seq<T>, x: seq<T>)
    requires Distinct(s) && TaggedFirst(tag, s) && SameTags(tag, s, x)
    ensures s == ByTag(tag, x) <==> forall t :: SameLast(tag, s, x, t)
  {
    NeatByTag(tag, s);
    if s == ByTag(tag, x) {
      ByTagKeeps(tag, x);
    } else if forall t :: SameLast(tag, s, x, t) {
      assert forall t :: t in Tags(tag, s) && t in Tags(tag, x) ==> SameLast(tag, s, x, t);
      SameByTag(tag, s, x);
    }
  }

  lemma {:induction false} UniqueIsByTag<T(!new)>(tag: T -> Option<string>, s: seq<T>)
    ensures Dedup(s) == ByTag(tag, s) <==> TaggedFirst(tag, Dedup(s))
  {
    ByTagIsNeat(tag, s);
    if TaggedFirst(tag, Dedup(s)) {
      DedupDistinct(s);
      SameTagsOfDedup(tag, s);
      NeatIsByTag(tag, Dedup(s), s);
      forall t ensures SameLast(tag, Dedup(s), s, t) {
        if t in Tags(tag, s) {
          LastIsMember(tag, s, t);
          DedupMember(s, LastWith(tag, s, t));
          SoleIsLast(tag, Dedup(s), LastWith(tag, s, t), t);
        }
      }
    }
  }

  // ----- two overlays, two strategies -----

  /** Cutting repeated items leaves the last item of the tag the last. */
  predicate KeepsLast<T(==)>(tag: T -> Option<string>, s: seq<T>, t: string) {
    t in Tags(tag, s) && t in Tags(tag, Dedup(s)) ==> LastWith(tag, Dedup(s), t) == LastWith(tag, s, t)
  }

  /** What makes a difference between merging `b` and then `c` onto `a`, and merging `c` onto `b` beforehand. */
  predicate Clash<T(==)>(tag: T -> Option<string>, a: seq<T>, b: seq<T>, c: seq<T>, sb: Strategy, sc: Strategy) {
    if sb == sc || sb.Replace? then false
    else if sc.Replace? then !Absorbs(tag, a, c, sb)
    else if sb.Append? then !Neat(tag, a + Merge(tag, b, c, sc), sc)
    else if sc.Append? then !Neat(tag, Merge(tag, a, b, sb) + c, sb)
    else if sb.AppendUnique? then !UniqueByTagAgree(tag, a, b, c)
    else !ByTagUniqueAgree(tag, a, b, c)
  }

  /** `append_unique`, then `append_unique_by_tag`. */
  predicate UniqueByTagAgree<T(==)>(tag: T -> Option<string>, a: seq<T>, b: seq<T>, c: seq<T>) {
    && TaggedFirst(tag, Dedup(a + ByTag(tag, b + c)))
    && forall t :: t in Tags(tag, a + b) && t !in Tags(tag, c) ==> KeepsLast(tag, a + b, t)
  }

  /** `append_unique_by_tag`, then `append_unique`. */
  predicate ByTagUniqueAgree<T(==)>(tag: T -> Option<string>, a: seq<T>, b: seq<T>, c: seq<T>) {
    && TaggedFirst(tag, Dedup(ByTag(tag, a + b) + c))
    && forall t :: t in Tags(tag, b + c) ==> KeepsLast(tag, b + c, t)
  }

  lemma {:induction false} ClashExactly<T(!new)>(tag: T -> Option<string>, a: seq<T>, b: seq<T>, c: seq<T>,
    sb: Strategy, sc: Strategy)
    ensures Merge(tag, Merge(tag, a, b, sb), c, sc) == Merge(tag, a, Merge(tag, b, c, sc), sb) <==>
            !Clash(tag, a, b, c, sb, sc)
  {
    if sb == sc {
      MergeAssociates(tag, a, b, c, sb);
    } else if sb.Replace? || sc.Replace? {
      ReplacedInTurn(tag, a, b, c, sb, sc);
    } else if sb.Append? {
      MergeAfterAppend(tag, a, b, c, sc);
    } else if sc.Append? {
      AppendAfterMerge(tag, a, b, c, sb);
    } else if sb.AppendUnique? {
      UniqueThenByTag(tag, a, b, c);
    } else {
      ByTagThenUnique(tag, a, b, c);
    }
  }

  lemma {:induction false} ReplacedInTurn<T>(tag: T -> Option<string>, a: seq<T>, b: seq<T>, c: seq<T>,
    sb: Strategy, sc: Strategy)
    requires sb.Replace? || sc.Replace?
    ensures Merge(tag, Merge(tag, a, b, sb), c, sc) == Merge(tag, a, Merge(tag, b, c, sc), sb) <==>
            (sb.Replace? || Absorbs(tag, a, c, sb))
  {
    if !sb.Replace? { MergeAbsorbs(tag, a, c, sb); }
  }

  lemma {:induction false} MergeAfterAppend<T>(tag: T -> Option<string>, a: seq<T>, b: seq<T>, c: seq<T>, sc: Strategy)
    requires !sc.Append? && !sc.Replace?
    ensures Merge(tag, Merge(tag, a, b, Append), c, sc) == Merge(tag, a, Merge(tag, b, c, sc), Append) <==>
            Neat(tag, a + Merge(tag, b, c, sc), sc)
  {
    FixedPoint(tag, a, Merge(tag, b, c, sc), sc);
    assert (a + b) + c == a + (b + c);
    if sc.AppendUnique? { DedupRight(a, b + c); } else { ByTagRight(tag, a, b + c); }
  }

  lemma {:induction false} AppendAfterMerge<T>(tag: T -> Option<string>, a: seq<T>, b: seq<T>, c: seq<T>, sb: Strategy)
    requires !sb.Append? && !sb.Replace?
    ensures Merge(tag, Merge(tag, a, b, sb), c, Append) == Merge(tag, a, Merge(tag, b, c, Append), sb) <==>
            Neat(tag, Merge(tag, a, b, sb) + c, sb)
  {
    FixedPoint(tag, Merge(tag, a, b, sb), c, sb);
    assert (a + b) + c == a + (b + c);
    if sb.AppendUnique? { DedupLeft(a + b, c); } else { ByTagLeft(tag, a + b, c); }
  }

  /** The distinct elements of a list that has the last item of a tag, if none of its tags is repeated. */
  lemma {:induction false} LastAmong<T(!new)>(tag: T -> Option<string>, whole: seq<T>, part: seq<T>, t: string)
    requires TaggedFirst(tag, Dedup(whole)) && t in Tags(tag, part) && LastWith(tag, part, t) in whole
    ensures t in Tags(tag, Dedup(whole)) && LastWith(tag, Dedup(whole), t) == LastWith(tag, part, t)
  {
    DedupMember(whole, LastWith(tag, part, t));
    SoleIsLast(tag, Dedup(whole), LastWith(tag, part, t), t);
  }

  /** The last item of a tag survives merging by tag. */
  lemma {:induction false} WinnerStays<T>(tag: T -> Option<string>, s: seq<T>, t: string)
    requires t in Tags(tag, s)
    ensures LastWith(tag, s, t) in ByTag(tag, s)
  {
    ByTagKeeps(tag, s);
    LastIsMember(tag, ByTag(tag, s), t);
  }

  lemma {:induction false} UniqueThenByTag<T(!new)>(tag: T -> Option<string>, a: seq<T>, b: seq<T>, c: seq<T>)
    ensures (Merge(tag, Merge(tag, a, b, AppendUnique), c, AppendUniqueByTag)
             == Merge(tag, a, Merge(tag, b, c, AppendUniqueByTag), AppendUnique)) <==> UniqueByTagAgree(tag, a, b, c)
  {
    var x, whole := Dedup(a + b) + c, a + ByTag(tag, b + c);
    ByTagIsNeat(tag, x);
    if TaggedFirst(tag, Dedup(whole)) {
      DedupDistinct(whole);
      UniqueThenByTagTags(tag, a, b, c);
      NeatIsByTag(tag, Dedup(whole), x);
      forall t
        ensures SameLast(tag, Dedup(whole), x, t) <==>
                  (t in Tags(tag, a + b) && t !in Tags(tag, c) ==> KeepsLast(tag, a + b, t))
      {
        UniqueThenByTagLast(tag, a, b, c, t);
      }
    }
  }

  /** A list is alike to the distinct elements of a join, if its right part is replaced by one that is alike. */
  lemma {:induction false} DedupOfJoin<T(!new)>(tag: T -> Option<string>, x: seq<T>, y: seq<T>, s: seq<T>)
    requires SameTags(tag, y, s)
    ensures SameTags(tag, Dedup(x + y), x + s) && SameTags(tag, Dedup(y + x), s + x)
  {
    SameTagsJoin(tag, y, s, x);
    SameTagsOfDedup(tag, x + y);
    SameTagsOfDedup(tag, y + x);
    SameTagsTransitive(tag, Dedup(x + y), x + y, x + s);
    SameTagsTransitive(tag, Dedup(y + x), y + x, s + x);
  }

  lemma {:induction false} UniqueThenByTagTags<T(!new)>(tag: T -> Option<string>, a: seq<T>, b: seq<T>, c: seq<T>)
    ensures SameTags(tag, Dedup(a + ByTag(tag, b + c)), Dedup(a + b) + c)
  {
    assert a + (b + c) == (a + b) + c;
    JoinedByTag(tag, a, b + c);
    JoinedDedup(tag, a + b, c);
    SameTagsTransitive(tag, Dedup(a + ByTag(tag, b + c)), a + (b + c), Dedup(a + b) + c);
  }

  lemma {:induction false} JoinedByTag<T(!new)>(tag: T -> Option<string>, x: seq<T>, s: seq<T>)
    ensures SameTags(tag, Dedup(x + ByTag(tag, s)), x + s) && SameTags(tag, Dedup(ByTag(tag, s) + x), s + x)
  {
    SameTagsOfByTag(tag, s);
    DedupOfJoin(tag, x, ByTag(tag, s), s);
  }

  lemma {:induction false} JoinedDedup<T(!new)>(tag: T -> Option<string>, s: seq<T>, x: seq<T>)
    ensures SameTags(tag, Dedup(s) + x, s + x) && SameTags(tag, x + Dedup(s), x + s)
  {
    SameTagsOfDedup(tag, s);
    SameTagsJoin(tag, Dedup(s), s, x);
  }

  lemma {:induction false} JoinHasTag<T>(tag: T -> Option<string>, x: seq<T>, y: seq<T>, t: string)
    ensures t in Tags(tag, x + y) <==> t in Tags(tag, x) || t in Tags(tag, y)
  {
    TagsAppend(tag, x, y);
  }

  lemma {:induction false} DedupHasTag<T(!new)>(tag: T -> Option<string>, s: seq<T>, t: string)
    ensures t in Tags(tag, Dedup(s)) <==> t in Tags(tag, s)
  {
    SameTagsOfDedup(tag, s);
    SameTag(tag, Dedup(s), s, t);
  }

  /** The item of a tag among the distinct ones of a list and another merged by tag, if no tag is repeated. */
  lemma {:induction false} LastBeforeByTag<T(!new)>(tag: T -> Option<string>, a: seq<T>, s: seq<T>, t: string)
    requires TaggedFirst(tag, Dedup(a + ByTag(tag, s))) && (t in Tags(tag, a) || t in Tags(tag, s))
    ensures t in Tags(tag, Dedup(a + ByTag(tag, s)))
    ensures LastWith(tag, Dedup(a + ByTag(tag, s)), t) ==
              if t in Tags(tag, s) then LastWith(tag, s, t) else LastWith(tag, a, t)
  {
    if t in Tags(tag, s) {
      WinnerStays(tag, s, t);
      LastAmong(tag, a + ByTag(tag, s), s, t);
    } else {
      LastIsMember(tag, a, t);
      LastAmong(tag, a + ByTag(tag, s), a, t);
    }
  }

  lemma {:induction false} UniqueThenByTagLast<T(!new)>(tag: T -> Option<string>, a: seq<T>, b: seq<T>, c: seq<T>,
    t: string)
    requires TaggedFirst(tag, Dedup(a + ByTag(tag, b + c)))
    ensures SameLast(tag, Dedup(a + ByTag(tag, b + c)), Dedup(a + b) + c, t) <==>
            (t in Tags(tag, a + b) && t !in Tags(tag, c) ==> KeepsLast(tag, a + b, t))
  {
    JoinHasTag(tag, a, b, t);
    JoinHasTag(tag, b, c, t);
    JoinHasTag(tag, Dedup(a + b), c, t);
    DedupHasTag(tag, a + b, t);
    if t in Tags(tag, a + b) || t in Tags(tag, c) {
      LastBeforeByTag(tag, a, b + c, t);
      LastWithAppend(tag, Dedup(a + b), c, t);
      if t in Tags(tag, b + c) { LastWithAppend(tag, b, c, t); }
      if t in Tags(tag, a + b) { LastWithAppend(tag, a, b, t); }
    }
  }

  lemma {:induction false} ByTagThenUnique<T(!new)>(tag: T -> Option<string>, a: seq<T>, b: seq<T>, c: seq<T>)
    ensures (Merge(tag, Merge(tag, a, b, AppendUniqueByTag), c, AppendUnique)
             == Merge(tag, a, Merge(tag, b, c, AppendUnique), AppendUniqueByTag)) <==> ByTagUniqueAgree(tag, a, b, c)
  {
    var x, whole := a + Dedup(b + c), ByTag(tag, a + b) + c;
    ByTagIsNeat(tag, x);
    if TaggedFirst(tag, Dedup(whole)) {
      DedupDistinct(whole);
      ByTagThenUniqueTags(tag, a, b, c);
      NeatIsByTag(tag, Dedup(whole), x);
      forall t ensures SameLast(tag, Dedup(whole), x, t) <==> (t in Tags(tag, b + c) ==> KeepsLast(tag, b + c, t)) {
        ByTagThenUniqueLast(tag, a, b, c, t);
      }
    }
  }

  lemma {:induction false} ByTagThenUniqueTags<T(!new)>(tag: T -> Option<string>, a: seq<T>, b: seq<T>, c: seq<T>)
    ensures SameTags(tag, Dedup(ByTag(tag, a + b) + c), a + Dedup(b + c))
  {
    assert a + (b + c) == (a + b) + c;
    JoinedByTag(tag, c, a + b);
    JoinedDedup(tag, b + c, a);
    SameTagsTransitive(tag, Dedup(ByTag(tag, a + b) + c), (a + b) + c, a + Dedup(b + c));
  }

  /** The item of a tag among the distinct ones of a list merged by tag and another, if no tag is repeated. */
  lemma {:induction false} LastAfterByTag<T(!new)>(tag: T -> Option<string>, s: seq<T>, c: seq<T>, t: string)
    requires TaggedFirst(tag, Dedup(ByTag(tag, s) + c)) && (t in Tags(tag, s) || t in Tags(tag, c))
    ensures t in Tags(tag, Dedup(ByTag(tag, s) + c))
    ensures LastWith(tag, Dedup(ByTag(tag, s) + c), t) ==
              if t in Tags(tag, c) then LastWith(tag, c, t) else LastWith(tag, s, t)
  {
    if t in Tags(tag, c) {
      LastIsMember(tag, c, t);
      LastAmong(tag, ByTag(tag, s) + c, c, t);
    } else {
      WinnerStays(tag, s, t);
      LastAmong(tag, ByTag(tag, s) + c, s, t);
    }
  }

  lemma {:induction false} ByTagThenUniqueLast<T(!new)>(tag: T -> Option<string>, a: seq<T>, b: seq<T>, c: seq<T>,
    t: string)
    requires TaggedFirst(tag, Dedup(ByTag(tag, a + b) + c))
    ensures SameLast(tag, Dedup(ByTag(tag, a + b) + c), a + Dedup(b + c), t) <==>
            (t in Tags(tag, b + c) ==> KeepsLast(tag, b + c, t))
  {
    JoinHasTag(tag, a, b, t);
    JoinHasTag(tag, b, c, t);
    JoinHasTag(tag, a, Dedup(b + c), t);
    DedupHasTag(tag, b + c, t);
    if t in Tags(tag, a + b) || t in Tags(tag, c) {
      LastAfterByTag(tag, a + b, c, t);
      LastWithAppend(tag, a, Dedup(b + c), t);
      if t in Tags(tag, b + c) { LastWithAppend(tag, b, c, t); }
      if t in Tags(tag, a + b) { LastWithAppend(tag, a, b, t); }
    }
  }
}
