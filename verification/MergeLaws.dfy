/** How the deep merge combines: which overlays never fail, and when two can be merged beforehand. */
module MergeLaws {
  import opened Common
  import opened ConfigMerge
  import ListMerge
  import ListPremerge

  // ----- merging key by key -----

  /** A key that merging treats as data. */
  predicate Owns(o: Json, k: string) { o.Obj? && k in o.fields && !IsControl(k) }

  /** The value under a key; merging onto `Null` is copying, as it is when the key is absent. */
  function At(j: Json, k: string): Json { if j.Obj? && k in j.fields then j.fields[k] else Null }

  function Under(o: Json, k: string, st: Strategy): Strategy { if o.Obj? then ChildStrategy(o.fields, k, st) else st }

  /** An object that is merged key by key. */
  predicate Plain(o: Json) { o.Obj? && !Replaces(o.fields) && !BadStrategies(o.fields) }

  function Onto(x: Json, o: Json, st: Strategy): Json {
    match DeepMerge(x, o, st)
    case Ok(m) => m
    case Err(_) => Null
  }

  /** The fields of an object merged onto another. */
  ghost predicate IsMerged(x: Json, o: Json, st: Strategy, m: Json)
    requires x.Obj?
  {
    && m.Obj?
    && (forall k :: k in m.fields <==> k in x.fields || Owns(o, k))
    && (forall k :: k in m.fields ==>
          m.fields[k] == if Owns(o, k) then Onto(At(x, k), o.fields[k], Under(o, k, st)) else At(x, k))
  }

  ghost predicate ChildrenMerge(x: Json, o: Json, st: Strategy) {
    forall k :: Owns(o, k) ==> DeepMerge(At(x, k), o.fields[k], Under(o, k, st)).Ok?
  }

  lemma {:induction false} MergedObject(x: Json, o: Json, st: Strategy)
    requires x.Obj? && Plain(o)
    ensures DeepMerge(x, o, st).Ok? <==> ChildrenMerge(x, o, st)
    ensures DeepMerge(x, o, st).Ok? ==> IsMerged(x, o, st, Onto(x, o, st))
  {
    var children := Children(x, o, st);
    forall k ensures k in children <==> Owns(o, k) {
      assert k in children.Keys <==> k in StripControlKeys(o.fields).Keys;
    }
    forall k | k in children ensures children[k] == DeepMerge(At(x, k), o.fields[k], Under(o, k, st)) {
      assert children[k] == Child(x, o, st, k);
    }
    assert DeepMerge(x, o, st) == Collect(x.fields, children);
  }

  lemma {:induction false} SameObject(a: Json, b: Json)
    requires a.Obj? && b.Obj? && (forall k :: k in a.fields <==> k in b.fields)
    requires forall k :: k in a.fields && k in b.fields ==> a.fields[k] == b.fields[k]
    ensures a == b
  {
    assert a.fields == b.fields;
  }

  /** What it takes for `m` to be the result, field by field. */
  ghost predicate FieldsMerge(x: Json, o: Json, st: Strategy, m: Json)
    requires m.Obj?
  {
    && (forall k :: k in m.fields <==> (x.Obj? && k in x.fields) || Owns(o, k))
    && (forall k :: k in m.fields && !Owns(o, k) ==> m.fields[k] == At(x, k))
    && (forall k :: Owns(o, k) ==> DeepMerge(At(x, k), o.fields[k], Under(o, k, st)) == Ok(At(m, k)))
  }

  lemma {:induction false} MergesTo(x: Json, o: Json, st: Strategy, m: Json)
    requires x.Obj? && Plain(o) && m.Obj?
    ensures DeepMerge(x, o, st) == Ok(m) <==> FieldsMerge(x, o, st, m)
  {
    MergedObject(x, o, st);
    if FieldsMerge(x, o, st, m) { SameObject(Onto(x, o, st), m); }
  }

  // ----- merges that fail -----

  /** At a path that both share, a strategy is needed that is not known, or a strategy map is none. */
  ghost predicate Fails(x: Json, o: Json, st: Strategy)
    decreases o
  {
    if x.Obj? && o.Obj? then
      !Replaces(o.fields) &&
      (BadStrategies(o.fields) || exists k :: Owns(o, k) && Fails(At(x, k), o.fields[k], Under(o, k, st)))
    else x.Arr? && o.Arr? && st.None?
  }

  lemma {:induction false} FailsExactly(x: Json, o: Json, st: Strategy)
    ensures DeepMerge(x, o, st).Err? <==> Fails(x, o, st)
    decreases o
  {
    if x.Obj? && Plain(o) {
      MergedObject(x, o, st);
      forall k | Owns(o, k)
        ensures DeepMerge(At(x, k), o.fields[k], Under(o, k, st)).Err? <==>
                  Fails(At(x, k), o.fields[k], Under(o, k, st))
      {
        FailsExactly(At(x, k), o.fields[k], Under(o, k, st));
      }
    }
  }

  // ----- overlays that never fail -----

  /** Every strategy that merging can need is known, and every strategy map it can meet is one. */
  ghost predicate Sound(o: Json, st: Strategy) {
    if o.Obj? then
      Replaces(o.fields) ||
      (!BadStrategies(o.fields) && forall k :: Owns(o, k) ==> Sound(o.fields[k], Under(o, k, st)))
    else o.Arr? ==> st.Some?
  }

  lemma {:induction false} SoundMerges(x: Json, o: Json, st: Strategy)
    requires Sound(o, st)
    ensures DeepMerge(x, o, st).Ok?
    decreases o
  {
    if x.Obj? && Plain(o) {
      MergedObject(x, o, st);
      forall k | Owns(o, k) ensures DeepMerge(At(x, k), o.fields[k], Under(o, k, st)).Ok? {
        SoundMerges(At(x, k), o.fields[k], Under(o, k, st));
      }
    }
  }

  lemma {:induction false} UnsoundFails(o: Json, st: Strategy)
    requires !Sound(o, st)
    ensures DeepMerge(o, o, st).Err?
    decreases o
  {
    if Plain(o) {
      MergedObject(o, o, st);
      var k :| Owns(o, k) && !Sound(o.fields[k], Under(o, k, st));
      UnsoundFails(o.fields[k], Under(o, k, st));
    }
  }

  /** An overlay can be merged onto everything exactly when it is sound; otherwise it fails onto itself already. */
  lemma {:induction false} NeverFails(o: Json, st: Strategy)
    ensures (forall x :: DeepMerge(x, o, st).Ok?) <==> Sound(o, st)
    ensures DeepMerge(o, o, st).Ok? <==> Sound(o, st)
  {
    if Sound(o, st) {
      forall x ensures DeepMerge(x, o, st).Ok? { SoundMerges(x, o, st); }
    } else {
      UnsoundFails(o, st);
    }
  }

  // ----- overlays that leave nothing of what they are merged onto -----

  /**
    Objects: no key and no control key of `a` is missing from `c` or differs, and no child contributes; lists:
    `ListMerge.Absorbs`.
   */
  ghost predicate Absorbs(a: Json, c: Json, st: Strategy)
    decreases c
  {
    if a.Obj? && c.Obj? then
      && Plain(c)
      && (forall k :: k in a.fields ==> k in c.fields)
      && (forall k :: k in c.fields && IsControl(k) ==> k in a.fields && a.fields[k] == c.fields[k])
      && (forall k :: Owns(c, k) ==> Absorbs(At(a, k), c.fields[k], Under(c, k, st)))
    else if a.Arr? && c.Arr? then st.Some? && ListMerge.Absorbs(ItemTag, a.items, c.items, st.value)
    else true
  }

  lemma {:induction false} AbsorbsExactly(a: Json, c: Json, st: Strategy)
    ensures DeepMerge(a, c, st) == Ok(c) <==> Absorbs(a, c, st)
    decreases c
  {
    if a.Obj? && c.Obj? {
      if Replaces(c.fields) {
        assert IsControl(REPLACE) && REPLACE !in StripControlKeys(c.fields);
      } else if Plain(c) {
        AbsorbsFields(a, c, st);
      }
    } else if a.Arr? && c.Arr? && st.Some? {
      ListMerge.MergeAbsorbs(ItemTag, a.items, c.items, st.value);
    }
  }

  lemma {:induction false} AbsorbsFields(a: Json, c: Json, st: Strategy)
    requires a.Obj? && Plain(c)
    ensures DeepMerge(a, c, st) == Ok(c) <==> Absorbs(a, c, st)
    decreases c, 0
  {
    MergesTo(a, c, st, c);
    forall k | Owns(c, k)
      ensures DeepMerge(At(a, k), c.fields[k], Under(c, k, st)) == Ok(At(c, k))
              <==> Absorbs(At(a, k), c.fields[k], Under(c, k, st))
    {
      AbsorbsExactly(At(a, k), c.fields[k], Under(c, k, st));
    }
  }

  // ----- one overlay under two strategies -----

  /** What it takes for two strategies to merge an overlay alike. */
  ghost predicate Indifferent(a: Json, c: Json, s: Strategy, t: Strategy)
    decreases c
  {
    if a.Obj? && c.Obj? then
      Replaces(c.fields) || forall k :: Owns(c, k) ==>
        Indifferent(At(a, k), c.fields[k], Under(c, k, s), Under(c, k, t))
    else if a.Arr? && c.Arr? then
      s.Some? && t.Some? && ListPremerge.Indifferent(ItemTag, a.items, c.items, s.value, t.value)
    else true
  }

  lemma {:induction false} IndifferentExactly(a: Json, c: Json, s: Strategy, t: Strategy)
    requires DeepMerge(a, c, s).Ok?
    ensures DeepMerge(a, c, s) == DeepMerge(a, c, t) <==> Indifferent(a, c, s, t)
    decreases c
  {
    if a.Obj? && c.Obj? {
      if Plain(c) { IndifferentFields(a, c, s, t); }
    } else if a.Arr? && c.Arr? && t.Some? {
      ListPremerge.IndifferentExactly(ItemTag, a.items, c.items, s.value, t.value);
    }
  }

  lemma {:induction false} IndifferentFields(a: Json, c: Json, s: Strategy, t: Strategy)
    requires a.Obj? && Plain(c) && DeepMerge(a, c, s).Ok?
    ensures DeepMerge(a, c, s) == DeepMerge(a, c, t) <==> Indifferent(a, c, s, t)
    decreases c, 0
  {
    var m := Onto(a, c, s);
    MergeOfObjects(a, c, s);
    MergesTo(a, c, s, m);
    MergesTo(a, c, t, m);
    forall k | Owns(c, k)
      ensures DeepMerge(At(a, k), c.fields[k], Under(c, k, t)) == Ok(At(m, k))
              <==> Indifferent(At(a, k), c.fields[k], Under(c, k, s), Under(c, k, t))
    {
      IndifferentExactly(At(a, k), c.fields[k], Under(c, k, s), Under(c, k, t));
    }
  }

  lemma {:induction false} MergeOfObjects(x: Json, o: Json, st: Strategy)
    requires x.Obj? && o.Obj? && DeepMerge(x, o, st).Ok?
    ensures Onto(x, o, st).Obj?
  {}

  // ----- merging two overlays beforehand -----

  function Stripped(c: Json): Json
    requires c.Obj?
  {
    Obj(StripControlKeys(c.fields))
  }

  /**
    What makes a difference between merging `b` and then `c` onto `a`, and merging `c` onto `b` beforehand,
    when `b` is merged under `sb` and `c` under `sc`. What is merged beforehand keeps the control keys of `b`
    alone, so that its keys are merged onto `a` as `b` says. A difference is made at a path where:
    - `c` overwrites `b`, or replaces it, but does not absorb what is left of `a` once `b` is out of the way;
    - `b` has nothing, and the strategies that `b` and `c` name there merge `c` onto `a` differently;
    - there are three lists, which `ListPremerge.Clash` decides.
   */
  ghost predicate Clash(a: Json, b: Json, c: Json, sb: Strategy, sc: Strategy)
    decreases c, 1
  {
    if b.Obj? && c.Obj? then
      if !a.Obj? then false
      else if Replaces(c.fields) then !Absorbs(a, Stripped(c), sb)
      else if Replaces(b.fields) then false
      else exists k :: Owns(c, k) && ClashAt(a, b, c, sb, sc, k)
    else if b.Arr? && c.Arr? then
      a.Arr? && sb.Some? && sc.Some? && ListPremerge.Clash(ItemTag, a.items, b.items, c.items, sb.value, sc.value)
    else !Absorbs(a, c, sb)
  }

  ghost predicate ClashAt(a: Json, b: Json, c: Json, sb: Strategy, sc: Strategy, k: string)
    requires Owns(c, k)
    decreases c, 0
  {
    if Owns(b, k) then Clash(At(a, k), b.fields[k], c.fields[k], Under(b, k, sb), Under(c, k, sc))
    else !Indifferent(At(a, k), c.fields[k], Under(c, k, sc), Under(b, k, sb))
  }

  /** The first overlay keeps its control keys when the second is merged onto it. */
  lemma {:induction false} PremergedControls(b: Json, c: Json, bc: Json, st: Strategy)
    requires b.Obj? && !BadStrategies(b.fields) && c.Obj? && bc.Obj? && FieldsMerge(b, c, st, bc)
    ensures !BadStrategies(bc.fields) && (Replaces(bc.fields) <==> Replaces(b.fields))
    ensures forall k :: Owns(bc, k) <==> Owns(b, k) || Owns(c, k)
    ensures forall k, s :: Under(bc, k, s) == Under(b, k, s)
  {
    assert IsControl(REPLACE) && IsControl(MERGE_STRATEGY);
    assert MERGE_STRATEGY in bc.fields <==> MERGE_STRATEGY in b.fields;
    assert REPLACE in bc.fields <==> REPLACE in b.fields;
  }

  /**
    Whatever strategies the overlays name: where merging them one after the other succeeds, and merging the
    two with each other does, the two ways agree exactly when the three values do not clash.
   */
  lemma {:induction false} AssociatesUnlessClashing(a: Json, b: Json, c: Json, sb: Strategy, sc: Strategy)
    requires DeepMerge(a, b, sb).Ok? && DeepMerge(Onto(a, b, sb), c, sc).Ok? && DeepMerge(b, c, sc).Ok?
    ensures DeepMerge(Onto(a, b, sb), c, sc) == DeepMerge(a, Onto(b, c, sc), sb) <==> !Clash(a, b, c, sb, sc)
    decreases c
  {
    if b.Obj? && c.Obj? {
      ObjectsAssociate(a, b, c, sb, sc);
    } else if b.Arr? && c.Arr? {
      if a.Arr? { ListPremerge.ClashExactly(ItemTag, a.items, b.items, c.items, sb.value, sc.value); }
    } else {
      AbsorbsExactly(a, c, sb);
    }
  }

  lemma {:induction false} ObjectsAssociate(a: Json, b: Json, c: Json, sb: Strategy, sc: Strategy)
    requires b.Obj? && c.Obj?
    requires DeepMerge(a, b, sb).Ok? && DeepMerge(Onto(a, b, sb), c, sc).Ok? && DeepMerge(b, c, sc).Ok?
    ensures DeepMerge(Onto(a, b, sb), c, sc) == DeepMerge(a, Onto(b, c, sc), sb) <==> !Clash(a, b, c, sb, sc)
    decreases c, 2
  {
    if !a.Obj? {
      MergeOfObjects(b, c, sc);
    } else if Replaces(c.fields) {
      MergeOfObjects(a, b, sb);
      AbsorbsExactly(a, Stripped(c), sb);
    } else if Replaces(b.fields) {
      ReplacementAssociates(a, b, c, sb, sc);
    } else {
      var ab, bc := Onto(a, b, sb), Onto(b, c, sc);
      MergeOfObjects(a, b, sb);
      MergeOfObjects(b, c, sc);
      MergeOfObjects(ab, c, sc);
      MergesTo(a, b, sb, ab);
      MergesTo(b, c, sc, bc);
      MergesTo(ab, c, sc, Onto(ab, c, sc));
      FieldsAssociate(a, b, c, ab, bc, Onto(ab, c, sc), sb, sc);
    }
  }

  lemma {:induction false} ReplacementAssociates(a: Json, b: Json, c: Json, sb: Strategy, sc: Strategy)
    requires a.Obj? && b.Obj? && Replaces(b.fields) && c.Obj? && !Replaces(c.fields)
    requires DeepMerge(Onto(a, b, sb), c, sc).Ok? && DeepMerge(b, c, sc).Ok?
    ensures DeepMerge(Onto(a, b, sb), c, sc) == DeepMerge(a, Onto(b, c, sc), sb)
  {
    var ab, bc := Onto(a, b, sb), Onto(b, c, sc);
    MergedObject(b, c, sc);
    MergedObject(ab, c, sc);
    assert IsControl(REPLACE) && REPLACE in bc.fields && Replaces(bc.fields);
    forall k | !IsControl(k) ensures At(ab, k) == At(b, k) {}
    SameObject(Onto(ab, c, sc), Stripped(bc));
  }

  /** The values of two objects merged in sequence onto a third, and of the two merged with each other. */
  ghost predicate InSequence(a: Json, b: Json, c: Json, ab: Json, bc: Json, l: Json, sb: Strategy, sc: Strategy) {
    && a.Obj? && Plain(b) && Plain(c) && ab.Obj? && bc.Obj? && l.Obj?
    && FieldsMerge(a, b, sb, ab) && FieldsMerge(b, c, sc, bc) && FieldsMerge(ab, c, sc, l)
  }

  /** The two ways of merging one key. */
  lemma {:induction false} KeyAssociates(a: Json, b: Json, c: Json, ab: Json, bc: Json, l: Json, sb: Strategy,
    sc: Strategy, k: string)
    requires InSequence(a, b, c, ab, bc, l, sb, sc)
    requires Owns(b, k) || Owns(c, k)
    ensures DeepMerge(At(a, k), At(bc, k), Under(b, k, sb)) == Ok(At(l, k)) <==>
            !(Owns(c, k) && ClashAt(a, b, c, sb, sc, k))
    decreases c, 0
  {
    if Owns(b, k) && Owns(c, k) {
      AssociatesUnlessClashing(At(a, k), b.fields[k], c.fields[k], Under(b, k, sb), Under(c, k, sc));
    } else if Owns(c, k) {
      IndifferentExactly(At(a, k), c.fields[k], Under(c, k, sc), Under(b, k, sb));
    }
  }

  /** Objects associate when their fields do. */
  lemma {:induction false} FieldsDecide(a: Json, b: Json, c: Json, bc: Json, l: Json, sb: Strategy, sc: Strategy)
    requires a.Obj? && Plain(b) && Plain(c) && Plain(bc) && l.Obj?
    requires forall k :: Owns(bc, k) <==> Owns(b, k) || Owns(c, k)
    requires forall k :: k in l.fields <==> k in a.fields || Owns(bc, k)
    requires forall k :: k in l.fields && !Owns(bc, k) ==> l.fields[k] == At(a, k)
    requires forall k :: Owns(bc, k) ==>
               (DeepMerge(At(a, k), At(bc, k), Under(bc, k, sb)) == Ok(At(l, k)) <==>
                !(Owns(c, k) && ClashAt(a, b, c, sb, sc, k)))
    ensures DeepMerge(a, bc, sb) == Ok(l) <==> !Clash(a, b, c, sb, sc)
  {
    MergesTo(a, bc, sb, l);
    assert FieldsMerge(a, bc, sb, l) <==>
      forall k :: Owns(bc, k) ==> DeepMerge(At(a, k), At(bc, k), Under(bc, k, sb)) == Ok(At(l, k));
  }

  lemma {:induction false} FieldsAssociate(a: Json, b: Json, c: Json, ab: Json, bc: Json, l: Json, sb: Strategy,
    sc: Strategy)
    requires InSequence(a, b, c, ab, bc, l, sb, sc)
    ensures DeepMerge(a, bc, sb) == Ok(l) <==> !Clash(a, b, c, sb, sc)
    decreases c, 1
  {
    PremergedControls(b, c, bc, sc);
    forall k | Owns(bc, k)
      ensures DeepMerge(At(a, k), At(bc, k), Under(bc, k, sb)) == Ok(At(l, k)) <==>
              !(Owns(c, k) && ClashAt(a, b, c, sb, sc, k))
    {
      KeyAssociates(a, b, c, ab, bc, l, sb, sc, k);
    }
    FieldsDecide(a, b, c, bc, l, sb, sc);
  }

  // ----- compiling -----

  /** The strategy that compiling starts with. */
  const APPEND: Strategy := Some(ListMerge.Append)

  lemma {:induction false} CompileOne(primary: Json, f: Json, more: seq<Json>)
    ensures DeepMerge(primary, f, APPEND).Ok? ==>
              Compile(primary, [f] + more) == Compile(Onto(primary, f, APPEND), more)
    ensures more == [] ==> Compile(primary, [f]) == DeepMerge(primary, f, APPEND)
  {
    assert ([f] + more)[1..] == more;
    if more == [] { assert [f] + more == [f]; }
  }

  /** Two fragments, one after the other, and merged into one beforehand. */
  function Premerged(primary: Json, f1: Json, f2: Json): Result<Json, MergeError> {
    match DeepMerge(f1, f2, APPEND)
    case Err(e) => Err(e)
    case Ok(f12) => Compile(primary, [f12])
  }

  /**
    For all values: merging two fragments beforehand gives what compiling them gives, exactly when both ways
    fail, or neither the compilation nor the merge of the two fails and the primary does not clash with them.
   */
  lemma {:induction false} PremergeTwo(primary: Json, f1: Json, f2: Json)
    ensures Compile(primary, [f1, f2]) == Premerged(primary, f1, f2) <==>
            if Fails(primary, f1, APPEND) || Fails(Onto(primary, f1, APPEND), f2, APPEND)
            then Fails(f1, f2, APPEND) || Fails(primary, Onto(f1, f2, APPEND), APPEND)
            else !Fails(f1, f2, APPEND) && !Clash(primary, f1, f2, APPEND, APPEND)
  {
    FailsExactly(primary, f1, APPEND);
    FailsExactly(Onto(primary, f1, APPEND), f2, APPEND);
    FailsExactly(f1, f2, APPEND);
    FailsExactly(primary, Onto(f1, f2, APPEND), APPEND);
    CompileTwo(primary, f1, f2);
    CompileOne(primary, Onto(f1, f2, APPEND), []);
    if Compile(primary, [f1, f2]).Ok? && DeepMerge(f1, f2, APPEND).Ok? {
      AssociatesUnlessClashing(primary, f1, f2, APPEND, APPEND);
    }
  }

  lemma {:induction false} CompileTwo(primary: Json, f1: Json, f2: Json)
    ensures Compile(primary, [f1, f2]) == match DeepMerge(primary, f1, APPEND)
                                          case Err(e) => Err(e)
                                          case Ok(config) => DeepMerge(config, f2, APPEND)
  {
    CompileOne(primary, f1, []);
    assert [f1] + [f2] == [f1, f2];
    CompileLatest(primary, [f1], f2);
  }

  /** Fragments that never fail can be merged beforehand exactly when the primary does not clash with them. */
  lemma {:induction false} PremergeSound(primary: Json, f1: Json, f2: Json)
    requires Sound(f1, APPEND) && Sound(f2, APPEND)
    ensures Compile(primary, [f1, f2]) == Premerged(primary, f1, f2) <==> !Clash(primary, f1, f2, APPEND, APPEND)
  {
    SoundMerges(primary, f1, APPEND);
    SoundMerges(Onto(primary, f1, APPEND), f2, APPEND);
    SoundMerges(f1, f2, APPEND);
    FailsExactly(primary, f1, APPEND);
    FailsExactly(Onto(primary, f1, APPEND), f2, APPEND);
    FailsExactly(f1, f2, APPEND);
    PremergeTwo(primary, f1, f2);
  }

  /** All fragments merged into one, in order. */
  function Bundle(first: Json, rest: seq<Json>): Json
    decreases |rest|
  {
    if rest == [] then first else Onto(Bundle(first, Earlier(rest)), Latest(rest), APPEND)
  }

  lemma {:induction false} CompileLatest(primary: Json, fs: seq<Json>, f: Json)
    ensures Compile(primary, fs + [f]) == match Compile(primary, fs)
                                          case Err(e) => Err(e)
                                          case Ok(config) => DeepMerge(config, f, APPEND)
    decreases |fs|
  {
    if fs == [] {
      assert fs + [f] == [f];
    } else {
      assert (fs + [f])[1..] == fs[1..] + [f];
      if DeepMerge(primary, fs[0], APPEND).Ok? { CompileLatest(Onto(primary, fs[0], APPEND), fs[1..], f); }
    }
  }

  /**
    If the fragments so far could be merged beforehand, one more can exactly when it does not clash with their
    bundle.
   */
  lemma {:induction false} PremergeOneMore(primary: Json, first: Json, rest: seq<Json>, next: Json)
    requires Compile(primary, [first] + rest) == Compile(primary, [Bundle(first, rest)])
    requires Compile(primary, ([first] + rest) + [next]).Ok? && DeepMerge(Bundle(first, rest), next, APPEND).Ok?
    ensures Compile(primary, ([first] + rest) + [next]) == Compile(primary, [Bundle(first, rest + [next])])
            <==> !Clash(primary, Bundle(first, rest), next, APPEND, APPEND)
  {
    var bundle := Bundle(first, rest);
    CompileOne(primary, bundle, []);
    CompileLatest(primary, [first] + rest, next);
    AssociatesUnlessClashing(primary, bundle, next, APPEND, APPEND);
    assert Earlier(rest + [next]) == rest && Latest(rest + [next]) == next;
    CompileOne(primary, Bundle(first, rest + [next]), []);
  }

  /** No fragment clashes with the primary and the bundle of those before it. */
  ghost predicate Compatible(primary: Json, first: Json, rest: seq<Json>)
    decreases |rest|
  {
    rest == [] ||
    (var bundle, next := Bundle(first, Earlier(rest)), Latest(rest);
     Compatible(primary, first, Earlier(rest)) && !Fails(bundle, next, APPEND)
       && !Clash(primary, bundle, next, APPEND, APPEND))
  }

  /** However many fragments there are, those that compile and do not clash can be merged beforehand. */
  lemma {:induction false} Premerge(primary: Json, first: Json, rest: seq<Json>)
    requires Compile(primary, [first] + rest).Ok? && Compatible(primary, first, rest)
    ensures Compile(primary, [first] + rest) == Compile(primary, [Bundle(first, rest)])
    decreases |rest|
  {
    if rest == [] {
      assert [first] + rest == [first];
    } else {
      var before, next := Earlier(rest), Latest(rest);
      assert before + [next] == rest && ([first] + before) + [next] == [first] + rest;
      CompileLatest(primary, [first] + before, next);
      Premerge(primary, first, before);
      FailsExactly(Bundle(first, before), next, APPEND);
      PremergeOneMore(primary, first, before, next);
    }
  }

  /** Fragments that never fail compile. */
  lemma {:induction false} SoundCompile(primary: Json, fs: seq<Json>)
    requires forall i :: 0 <= i < |fs| ==> Sound(fs[i], APPEND)
    ensures Compile(primary, fs).Ok?
    decreases |fs|
  {
    if fs != [] {
      SoundMerges(primary, fs[0], APPEND);
      SoundCompile(Onto(primary, fs[0], APPEND), fs[1..]);
    }
  }
}
