/** What repeating a deep merge does, for any overlay and any strategy. */
module MergeRepeats {
  import opened Common
  import opened ConfigMerge
  import opened MergeLaws
  import opened MergePlans
  import ListMerge

  /** The list at the path is not changed by the second merge. */
  predicate ListSettled(x: Json, items: seq<Json>, st: ListMerge.Strategy) {
    match st
    case Append => items == []
    case Replace => true
    case AppendUnique => x.Arr? || ListMerge.Neat(ItemTag, items, st)
    case AppendUniqueByTag => x.Arr? || ListMerge.Neat(ItemTag, items, st)
  }

  /** No second merge of `o` onto `x` would do more than the first. */
  ghost predicate Settled(x: Json, o: Json, st: Strategy)
    decreases o
  {
    if o.Obj? then
      if Replaces(o.fields) then x.Obj?
      else !BadStrategies(o.fields) && forall k :: Owns(o, k) ==> Settled(At(x, k), o.fields[k], Under(o, k, st))
    else if o.Arr? then st.Some? && ListSettled(x, o.items, st.value)
    else true
  }

  /** The merge succeeds, and merging the same overlay once more changes nothing. */
  predicate Repeats(x: Json, o: Json, st: Strategy) {
    DeepMerge(x, o, st).Ok? && DeepMerge(Onto(x, o, st), o, st) == DeepMerge(x, o, st)
  }

  /** Merging an overlay twice is merging it once, exactly when it is settled. */
  lemma {:induction false} TwiceIsOnce(x: Json, o: Json, st: Strategy)
    ensures Repeats(x, o, st) <==> Settled(x, o, st)
    decreases o
  {
    if o.Obj? {
      if Replaces(o.fields) {
        assert IsControl(REPLACE) && REPLACE !in StripControlKeys(o.fields);
      } else if Plain(o) {
        forall k | Owns(o, k)
          ensures Repeats(At(x, k), o.fields[k], Under(o, k, st)) <==> Settled(At(x, k), o.fields[k], Under(o, k, st))
        {
          TwiceIsOnce(At(x, k), o.fields[k], Under(o, k, st));
        }
        FieldsRepeat(x, o, st);
      }
    } else if o.Arr? && st.Some? {
      ListRepeats(x, o.items, st.value);
    }
  }

  /** An object repeats exactly when its fields do. */
  lemma {:induction false} FieldsRepeat(x: Json, o: Json, st: Strategy)
    requires Plain(o)
    ensures Repeats(x, o, st) <==> forall k :: Owns(o, k) ==> Repeats(At(x, k), o.fields[k], Under(o, k, st))
  {
    if x.Obj? { MergedObject(x, o, st); }
    if DeepMerge(x, o, st).Ok? {
      var m := Onto(x, o, st);
      assert forall k :: Owns(o, k) ==> At(m, k) == Onto(At(x, k), o.fields[k], Under(o, k, st));
      OntoItself(m, o, st);
    }
  }

  lemma {:induction false} OntoItself(m: Json, o: Json, st: Strategy)
    requires m.Obj? && Plain(o) && forall k :: Owns(o, k) ==> k in m.fields
    ensures DeepMerge(m, o, st) == Ok(m) <==>
            forall k :: Owns(o, k) ==> DeepMerge(At(m, k), o.fields[k], Under(o, k, st)) == Ok(At(m, k))
  {
    MergesTo(m, o, st, m);
  }

  lemma {:induction false} ListRepeats(x: Json, items: seq<Json>, st: ListMerge.Strategy)
    ensures Repeats(x, Arr(items), Some(st)) <==> ListSettled(x, items, st)
  {
    if x.Arr? {
      ListMerge.MergeTwice(ItemTag, x.items, items, st);
    } else {
      NeatOntoItself(items, st);
      CopiedListRepeats(x, items, st);
    }
  }

  /** A list that was copied: the second merge is its merge onto itself. */
  lemma {:induction false} CopiedListRepeats(x: Json, items: seq<Json>, st: ListMerge.Strategy)
    requires !x.Arr?
    ensures Repeats(x, Arr(items), Some(st)) <==> ListMerge.Merge(ItemTag, items, items, st) == items
  {
    assert DeepMerge(x, Arr(items), Some(st)) == Ok(Arr(items));
    assert DeepMerge(Arr(items), Arr(items), Some(st)) == Ok(Arr(ListMerge.Merge(ItemTag, items, items, st)));
  }

  /** Onto itself, a list stays as it is exactly when it is neat and would not be repeated. */
  lemma {:induction false} NeatOntoItself(items: seq<Json>, st: ListMerge.Strategy)
    ensures ListMerge.Merge(ItemTag, items, items, st) == items <==>
            ListMerge.Neat(ItemTag, items, st) && (st != ListMerge.Append || items == [])
  {
    assert [] + items == items;
    ListMerge.NeatMergesToItself(ItemTag, items, st);
    match st {
      case Append => assert |items + items| == |items| + |items|;
      case Replace =>
      case AppendUnique => ListMerge.DedupAbsorbs(items, items);
      case AppendUniqueByTag => ListMerge.ByTagAbsorbs(ItemTag, [], items);
    }
  }

  // ----- the third merge -----

  /** No list that merging can reach is appended. */
  ghost predicate Stable(o: Json, st: Strategy) {
    if o.Obj? then
      Replaces(o.fields) ||
        (!BadStrategies(o.fields) && forall k :: Owns(o, k) ==> Stable(o.fields[k], Under(o, k, st)))
    else if o.Arr? then st.Some? && (st.value.Append? ==> o.items == [])
    else true
  }

  /** Once merged, an overlay is settled exactly when it is stable, whatever it was merged onto. */
  lemma {:induction false} SettledOnceMerged(x: Json, o: Json, st: Strategy)
    requires DeepMerge(x, o, st).Ok?
    ensures Settled(Onto(x, o, st), o, st) <==> Stable(o, st)
    decreases o
  {
    if Plain(o) {
      var m := Onto(x, o, st);
      if x.Obj? { MergedObject(x, o, st); }
      forall k | Owns(o, k)
        ensures Settled(At(m, k), o.fields[k], Under(o, k, st)) <==> Stable(o.fields[k], Under(o, k, st))
      {
        SettledOnceMerged(At(x, k), o.fields[k], Under(o, k, st));
      }
    }
  }

  /**
    Repeated merging stabilises exactly for stable overlays: after a merge that succeeds, a third merge
    of the same overlay is the second. What the overlay was merged onto does not matter.
   */
  lemma {:induction false} ThirdMergeIsSecond(x: Json, o: Json, st: Strategy)
    requires DeepMerge(x, o, st).Ok?
    ensures Repeats(Onto(x, o, st), o, st) <==> Stable(o, st)
  {
    SettledOnceMerged(x, o, st);
    TwiceIsOnce(Onto(x, o, st), o, st);
  }

  /** Without control keys, and under any strategy but `append`, every overlay is stable. */
  lemma {:induction false} ControlFreeIsStable(o: Json, st: ListMerge.Strategy)
    requires ControlFree(o) && st != ListMerge.Append
    ensures Stable(o, Some(st))
    decreases o
  {
    if o.Obj? {
      assert IsControl(MERGE_STRATEGY) && MERGE_STRATEGY !in o.fields;
      forall k | Owns(o, k) ensures Stable(o.fields[k], Under(o, k, Some(st))) {
        ControlFreeIsStable(o.fields[k], st);
      }
    }
  }

  /** So the third merge of such an overlay never fails and never changes the result of the second. */
  lemma {:induction false} RepeatedDeepMerge(x: Json, o: Json, st: ListMerge.Strategy)
    requires ControlFree(o) && st != ListMerge.Append
    ensures DeepMerge(x, o, Some(st)).Ok?
    ensures var m1 := DeepMerge(x, o, Some(st)).value;
            DeepMerge(m1, o, Some(st)).Ok? &&
            var m2 := DeepMerge(m1, o, Some(st)).value;
            DeepMerge(m2, o, Some(st)) == Ok(m2)
  {
    ControlFreeIsSound(o, st);
    SoundMerges(x, o, Some(st));
    ControlFreeIsStable(o, st);
    ThirdMergeIsSecond(x, o, Some(st));
  }

  // ----- inputs at which the laws fail -----

  function OneField(k: string, j: Json): Json { Obj(map[k := j]) }

  /** `o` sets one field to `j`, under the strategy `here`. */
  ghost predicate Sets(o: Json, k: string, j: Json, st: Strategy, here: Strategy) {
    Plain(o) && (forall x :: Owns(o, x) <==> x == k) && At(o, k) == j && Under(o, k, st) == here
  }

  lemma {:induction false} OneFieldMerges(x: Json, o: Json, k: string, j: Json, m: Json, st: Strategy, here: Strategy)
    requires Sets(o, k, j, st, here) && x.Obj? && x.fields.Keys <= {k} && DeepMerge(At(x, k), j, here) == Ok(m)
    ensures DeepMerge(x, o, st) == Ok(OneField(k, m))
  {
    MergesTo(x, o, st, OneField(k, m));
  }

  lemma {:induction false} OneFieldSets(k: string, j: Json, st: Strategy)
    requires !IsControl(k)
    ensures Sets(OneField(k, j), k, j, st, st)
  {
    assert IsControl(MERGE_STRATEGY) && IsControl(REPLACE);
  }

  /** `append_unique` of `[1, 1]` under a new key: the first merge copies it, the second makes it `[1]`. */
  lemma {:induction false} SecondMergeDiffers()
    ensures var o, less := OneField("a", Arr([Num("1"), Num("1")])), OneField("a", Arr([Num("1")]));
            && DeepMerge(Obj(map[]), o, Some(ListMerge.AppendUnique)) == Ok(o)
            && DeepMerge(o, o, Some(ListMerge.AppendUnique)) == Ok(less)
            && less != o
  {
    var ones, st := Arr([Num("1"), Num("1")]), Some(ListMerge.AppendUnique);
    TwoOnes(Num("1"));
    OneFieldSets("a", ones, st);
    OneFieldMerges(Obj(map[]), OneField("a", ones), "a", ones, ones, st, st);
    OneFieldMerges(OneField("a", ones), OneField("a", ones), "a", ones, Arr([Num("1")]), st, st);
    assert |ones.items| == 2 && OneField("a", ones).fields["a"] == ones;
  }

  lemma {:induction false} TwoOnes<T>(x: T)
    ensures ListMerge.Dedup([x, x] + [x, x]) == [x]
  {
    assert [x, x] + [x, x] == ((([] + [x]) + [x]) + [x]) + [x];
    ListMerge.DedupOneMore([], x);
    ListMerge.DedupOneMore([] + [x], x);
    ListMerge.DedupOneMore(([] + [x]) + [x], x);
    ListMerge.DedupOneMore((([] + [x]) + [x]) + [x], x);
  }

  /** A fragment that sets one list and says that it replaces what is there. */
  function Replacing(k: string, items: seq<Json>): Json {
    Obj(map[MERGE_STRATEGY := OneField(k, Str("replace")), k := Arr(items)])
  }

  lemma {:induction false} ReplacingSets(k: string, items: seq<Json>)
    requires !IsControl(k)
    ensures Sets(Replacing(k, items), k, Arr(items), APPEND, Some(ListMerge.Replace))
  {
    assert IsControl(MERGE_STRATEGY) && IsControl(REPLACE);
  }

  /** A fragment merged beforehand loses its own strategy map, so that its list is appended instead of replacing. */
  lemma {:induction false} StrategiesMatter()
    ensures var primary, empty, one := OneField("a", Arr([Num("1")])), Obj(map[]), OneField("a", Arr([Num("2")]));
            && Compile(primary, [empty, Replacing("a", [Num("2")])]) == Ok(one)
            && DeepMerge(empty, Replacing("a", [Num("2")]), APPEND) == Ok(one)
            && Compile(primary, [one]) == Ok(OneField("a", Arr([Num("1"), Num("2")])))
  {
    var primary, empty, f2 := OneField("a", Arr([Num("1")])), Obj(map[]), Replacing("a", [Num("2")]);
    EmptyMerges(primary);
    ReplacingMerges(primary, "a", [Num("2")]);
    ReplacingMerges(empty, "a", [Num("2")]);
    AppendingMerges("a", [Num("1")], [Num("2")]);
    assert [Num("1")] + [Num("2")] == [Num("1"), Num("2")];
    CompileOne(primary, empty, [f2]);
    CompileOne(primary, f2, []);
    CompileOne(primary, OneField("a", Arr([Num("2")])), []);
  }

  lemma {:induction false} EmptyMerges(x: Json)
    requires x.Obj?
    ensures DeepMerge(x, Obj(map[]), APPEND) == Ok(x)
  {
    MergesTo(x, Obj(map[]), APPEND, x);
  }

  lemma {:induction false} ReplacingMerges(x: Json, k: string, items: seq<Json>)
    requires !IsControl(k) && x.Obj? && x.fields.Keys <= {k}
    ensures DeepMerge(x, Replacing(k, items), APPEND) == Ok(OneField(k, Arr(items)))
  {
    ReplacingSets(k, items);
    OneFieldMerges(x, Replacing(k, items), k, Arr(items), Arr(items), APPEND, Some(ListMerge.Replace));
  }

  lemma {:induction false} AppendingMerges(k: string, a: seq<Json>, b: seq<Json>)
    requires !IsControl(k)
    ensures DeepMerge(OneField(k, Arr(a)), OneField(k, Arr(b)), APPEND) == Ok(OneField(k, Arr(a + b)))
  {
    OneFieldSets(k, Arr(b), APPEND);
    OneFieldMerges(OneField(k, Arr(a)), OneField(k, Arr(b)), k, Arr(b), Arr(a + b), APPEND, APPEND);
  }

  /** Lists around a value of another kind: `[2]` one after the other, `[1, 2]` when the last two are merged first. */
  lemma {:induction false} SandwichedLists()
    ensures var a, b, c := Arr([Num("1")]), Null, Arr([Num("2")]);
            && Sandwiched(a, b, c, APPEND)
            && DeepMerge(Onto(a, b, APPEND), c, APPEND) == Ok(c)
            && DeepMerge(a, Onto(b, c, APPEND), APPEND) == Ok(Arr([Num("1"), Num("2")]))
  {
    assert [Num("1")] + [Num("2")] == [Num("1"), Num("2")];
  }

  /**
    `append` repeats a list with every merge: the second merge changes the result of the first, the third that
    of the second.
   */
  lemma {:induction false} AppendGrows()
    ensures var o := Arr([Num("1")]);
            && Onto(Arr([]), o, APPEND) == o
            && Onto(o, o, APPEND) == Arr([Num("1"), Num("1")])
            && Onto(Onto(o, o, APPEND), o, APPEND) == Arr([Num("1"), Num("1"), Num("1")])
            && !Settled(Arr([]), o, APPEND) && !Stable(o, APPEND)
  {
    assert [] + [Num("1")] == [Num("1")];
    assert [Num("1")] + [Num("1")] == [Num("1"), Num("1")];
    assert [Num("1"), Num("1")] + [Num("1")] == [Num("1"), Num("1"), Num("1")];
  }
}
