/** Fragments that can be merged beforehand whatever they hold: those that name the same strategies. */
module MergePlans {
  import opened Common
  import opened ConfigMerge
  import opened MergeLaws
  import ListMerge

  // ----- overlays that name the same strategies -----

  /** Where both overlays are merged key by key, they name the same strategy for the keys of the second. */
  ghost predicate Governed(b: Json, c: Json, st: Strategy)
    decreases c
  {
    b.Obj? && c.Obj? && !Replaces(b.fields) && !Replaces(c.fields) ==>
      forall k :: Owns(c, k) ==> Under(b, k, st) == Under(c, k, st) && Governed(At(b, k), c.fields[k], Under(c, k, st))
  }

  /**
    At some path that the three values share, `c` overwrites `b`, or replaces it, but does not absorb
    what is left of `a` once `b` is out of the way.
   */
  ghost predicate Sandwiched(a: Json, b: Json, c: Json, st: Strategy)
    decreases c
  {
    if b.Obj? && c.Obj? then
      if !a.Obj? then false
      else if Replaces(c.fields) then !Absorbs(a, Stripped(c), st)
      else if Replaces(b.fields) then false
      else exists k :: Owns(c, k) && Owns(b, k) && Sandwiched(At(a, k), b.fields[k], c.fields[k], Under(c, k, st))
    else if b.Arr? && c.Arr? then false
    else !Absorbs(a, c, st)
  }

  lemma {:induction false} IndifferentToItself(a: Json, c: Json, s: Strategy)
    requires Sound(c, s)
    ensures Indifferent(a, c, s, s)
  {
    SoundMerges(a, c, s);
    IndifferentExactly(a, c, s, s);
  }

  /** Overlays that name the same strategies clash exactly when they sandwich. */
  lemma {:induction false} ClashOfGoverned(a: Json, b: Json, c: Json, st: Strategy)
    requires Sound(b, st) && Sound(c, st) && Governed(b, c, st)
    ensures Clash(a, b, c, st, st) <==> Sandwiched(a, b, c, st)
    decreases c
  {
    if a.Obj? && Plain(b) && Plain(c) {
      forall k | Owns(c, k)
        ensures ClashAt(a, b, c, st, st, k) <==>
                (Owns(b, k) && Sandwiched(At(a, k), b.fields[k], c.fields[k], Under(c, k, st)))
      {
        if Owns(b, k) {
          ClashOfGoverned(At(a, k), b.fields[k], c.fields[k], Under(c, k, st));
        } else {
          IndifferentToItself(At(a, k), c.fields[k], Under(c, k, st));
        }
      }
    }
  }

  /**
    For overlays that name the same strategies, merging is associative exactly when the three values are not
    sandwiched.
   */
  lemma {:induction false} AssociatesUnlessSandwiched(a: Json, b: Json, c: Json, st: Strategy)
    requires Sound(b, st) && Sound(c, st) && Governed(b, c, st)
    ensures DeepMerge(Onto(a, b, st), c, st) == DeepMerge(a, Onto(b, c, st), st) <==> !Sandwiched(a, b, c, st)
  {
    SoundMerges(a, b, st);
    SoundMerges(b, c, st);
    SoundMerges(Onto(a, b, st), c, st);
    AssociatesUnlessClashing(a, b, c, st, st);
    ClashOfGoverned(a, b, c, st);
  }

  // ----- overlays to which the laws apply -----

  /** No control key at any object that merging can reach. */
  predicate ControlFree(j: Json) {
    j.Obj? ==> forall k :: k in j.fields ==> !IsControl(k) && ControlFree(j.fields[k])
  }

  lemma {:induction false} ControlFreeIsSound(o: Json, st: ListMerge.Strategy)
    requires ControlFree(o)
    ensures Sound(o, Some(st))
    decreases o
  {
    if o.Obj? {
      assert IsControl(MERGE_STRATEGY) && MERGE_STRATEGY !in o.fields;
      forall k | Owns(o, k) ensures Sound(o.fields[k], Under(o, k, Some(st))) {
        ControlFreeIsSound(o.fields[k], st);
      }
    }
  }

  lemma {:induction false} ControlFreeAreGoverned(b: Json, c: Json, st: ListMerge.Strategy)
    requires ControlFree(b) && ControlFree(c)
    ensures Governed(b, c, Some(st))
    decreases c
  {
    if b.Obj? && c.Obj? {
      assert IsControl(MERGE_STRATEGY) && MERGE_STRATEGY !in b.fields && MERGE_STRATEGY !in c.fields;
      forall k | Owns(c, k) ensures Governed(At(b, k), c.fields[k], Under(c, k, Some(st))) {
        ControlFreeAreGoverned(At(b, k), c.fields[k], st);
      }
    }
  }

  /** A fragment whose only control key is a strategy map at its head, with known strategies. */
  ghost predicate Mapped(o: Json, strategies: map<string, Json>) {
    && o.Obj? && MERGE_STRATEGY in o.fields && o.fields[MERGE_STRATEGY] == Obj(strategies)
    && (forall k :: k in strategies ==> StrategyOf(strategies[k]).Some?)
    && REPLACE !in o.fields
    && forall k :: Owns(o, k) ==> ControlFree(o.fields[k])
  }

  /** Fragments with the same strategy map at the head and no other control key satisfy what premerging asks of them. */
  lemma {:induction false} MappedAreGoverned(b: Json, c: Json, strategies: map<string, Json>, st: ListMerge.Strategy)
    requires Mapped(b, strategies) && Mapped(c, strategies)
    ensures Sound(b, Some(st)) && Sound(c, Some(st)) && Governed(b, c, Some(st))
  {
    forall k | Owns(b, k) ensures Sound(b.fields[k], Under(b, k, Some(st))) {
      ControlFreeIsSound(b.fields[k], Under(b, k, Some(st)).value);
    }
    forall k | Owns(c, k)
      ensures Sound(c.fields[k], Under(c, k, Some(st))) && Governed(At(b, k), c.fields[k], Under(c, k, Some(st)))
    {
      ControlFreeIsSound(c.fields[k], Under(c, k, Some(st)).value);
      ControlFreeAreGoverned(At(b, k), c.fields[k], Under(c, k, Some(st)).value);
    }
  }

  // ----- any number of fragments -----

  /** The kind of value at each path, and the strategy under each key. */
  datatype Plan = Scalar | List | Record(fields: map<string, Slot>)

  datatype Slot = Slot(plan: Plan, strategy: ListMerge.Strategy)

  /** A value whose kinds are as planned. */
  ghost predicate HasShape(j: Json, p: Plan)
    decreases p
  {
    match p
    case Scalar => !j.Obj? && !j.Arr?
    case List => j.Arr?
    case Record(fields) => j.Obj? && forall k :: Owns(j, k) ==> k in fields && HasShape(j.fields[k], fields[k].plan)
  }

  /** A fragment that is merged as planned: key by key, with the planned strategy for every planned key. */
  ghost predicate Follows(j: Json, p: Plan, st: Strategy)
    decreases p
  {
    match p
    case Scalar => !j.Obj? && !j.Arr?
    case List => j.Arr? && st.Some?
    case Record(fields) =>
      && Plain(j)
      && (forall k :: k in fields && !IsControl(k) ==> Under(j, k, st) == Some(fields[k].strategy))
      && (forall k :: Owns(j, k) ==> k in fields && Follows(j.fields[k], fields[k].plan, Some(fields[k].strategy)))
  }

  ghost predicate Uniform(p: Plan, st: ListMerge.Strategy) {
    p.Record? ==> forall k :: k in p.fields ==> p.fields[k].strategy == st && Uniform(p.fields[k].plan, st)
  }

  /** Without control keys, having the shape of a plan is following it, with one strategy throughout. */
  lemma {:induction false} ControlFreeFollows(j: Json, p: Plan, st: ListMerge.Strategy)
    requires ControlFree(j) && HasShape(j, p) && Uniform(p, st)
    ensures Follows(j, p, Some(st))
    decreases p
  {
    if p.Record? {
      assert IsControl(MERGE_STRATEGY) && IsControl(REPLACE) && MERGE_STRATEGY !in j.fields && REPLACE !in j.fields;
      forall k | Owns(j, k) ensures Follows(j.fields[k], p.fields[k].plan, Some(p.fields[k].strategy)) {
        ControlFreeFollows(j.fields[k], p.fields[k].plan, st);
      }
    }
  }

  lemma {:induction false} FollowingIsSound(j: Json, p: Plan, st: Strategy)
    requires Follows(j, p, st)
    ensures Sound(j, st) && HasShape(j, p)
    decreases p
  {
    if p.Record? {
      forall k | Owns(j, k) ensures Sound(j.fields[k], Under(j, k, st)) && HasShape(j.fields[k], p.fields[k].plan) {
        FollowingIsSound(j.fields[k], p.fields[k].plan, Some(p.fields[k].strategy));
      }
    }
  }

  lemma {:induction false} FollowingAreGoverned(b: Json, c: Json, p: Plan, st: Strategy)
    requires Follows(b, p, st) && Follows(c, p, st)
    ensures Governed(b, c, st)
    decreases p
  {
    if p.Record? {
      forall k | Owns(c, k)
        ensures Under(b, k, st) == Under(c, k, st) && Governed(At(b, k), c.fields[k], Under(c, k, st))
      {
        if Owns(b, k) { FollowingAreGoverned(b.fields[k], c.fields[k], p.fields[k].plan, Some(p.fields[k].strategy)); }
      }
    }
  }

  lemma {:induction false} ShapeOfMerge(a: Json, b: Json, p: Plan, st: Strategy)
    requires HasShape(a, p) && Follows(b, p, st)
    ensures HasShape(Onto(a, b, st), p)
    decreases p
  {
    FollowingIsSound(b, p, st);
    SoundMerges(a, b, st);
    if p.Record? {
      MergedObject(a, b, st);
      var m := Onto(a, b, st);
      forall k | Owns(m, k) ensures k in p.fields && HasShape(m.fields[k], p.fields[k].plan) {
        if Owns(a, k) && Owns(b, k) {
          ShapeOfMerge(a.fields[k], b.fields[k], p.fields[k].plan, Some(p.fields[k].strategy));
        } else if Owns(b, k) {
          FollowingIsSound(b.fields[k], p.fields[k].plan, Some(p.fields[k].strategy));
        }
      }
    }
  }

  lemma {:induction false} MergeFollows(b: Json, c: Json, p: Plan, st: Strategy)
    requires Follows(b, p, st) && Follows(c, p, st)
    ensures Follows(Onto(b, c, st), p, st)
    decreases p
  {
    FollowingIsSound(c, p, st);
    SoundMerges(b, c, st);
    if p.Record? {
      var m := Onto(b, c, st);
      MergeOfObjects(b, c, st);
      MergesTo(b, c, st, m);
      PremergedControls(b, c, m, st);
      forall k | Owns(m, k)
        ensures k in p.fields && Follows(m.fields[k], p.fields[k].plan, Some(p.fields[k].strategy))
      {
        FieldFollows(b, c, m, p, st, k);
      }
    }
  }

  lemma {:induction false} FieldFollows(b: Json, c: Json, m: Json, p: Plan, st: Strategy, k: string)
    requires p.Record? && Follows(b, p, st) && Follows(c, p, st) && m.Obj? && FieldsMerge(b, c, st, m) && Owns(m, k)
    ensures k in p.fields && Follows(m.fields[k], p.fields[k].plan, Some(p.fields[k].strategy))
    decreases p, 0
  {
    assert m.fields[k] == At(m, k);
    if Owns(b, k) && Owns(c, k) {
      MergeFollows(b.fields[k], c.fields[k], p.fields[k].plan, Some(p.fields[k].strategy));
    }
  }

  lemma {:induction false} FollowingAreNotSandwiched(a: Json, b: Json, c: Json, p: Plan, st: Strategy)
    requires HasShape(a, p) && Follows(b, p, st) && Follows(c, p, st)
    ensures !Sandwiched(a, b, c, st)
    decreases p
  {
    if p.Record? {
      forall k | Owns(b, k) && Owns(c, k)
        ensures !Sandwiched(At(a, k), b.fields[k], c.fields[k], Under(c, k, st))
      {
        if Owns(a, k) {
          FollowingAreNotSandwiched(a.fields[k], b.fields[k], c.fields[k], p.fields[k].plan,
            Some(p.fields[k].strategy));
        }
      }
    }
  }

  /** Fragments of one plan are associative under each strategy, onto any value of its shape. */
  lemma {:induction false} FollowingAssociate(a: Json, b: Json, c: Json, p: Plan, st: Strategy)
    requires HasShape(a, p) && Follows(b, p, st) && Follows(c, p, st)
    ensures DeepMerge(Onto(a, b, st), c, st) == DeepMerge(a, Onto(b, c, st), st)
  {
    FollowingIsSound(b, p, st);
    FollowingIsSound(c, p, st);
    FollowingAreGoverned(b, c, p, st);
    FollowingAreNotSandwiched(a, b, c, p, st);
    AssociatesUnlessSandwiched(a, b, c, st);
  }

  ghost predicate AllFollow(fs: seq<Json>, p: Plan) { forall i :: 0 <= i < |fs| ==> Follows(fs[i], p, APPEND) }

  /** Fragments of one plan are compatible, and their bundle follows the plan. */
  lemma {:induction false} FollowingAreCompatible(primary: Json, first: Json, rest: seq<Json>, p: Plan)
    requires HasShape(primary, p) && Follows(first, p, APPEND) && AllFollow(rest, p)
    ensures Compatible(primary, first, rest) && Follows(Bundle(first, rest), p, APPEND)
    decreases |rest|
  {
    if rest != [] {
      var bundle, next := Bundle(first, Earlier(rest)), Latest(rest);
      FollowingAreCompatible(primary, first, Earlier(rest), p);
      FollowingIsSound(bundle, p, APPEND);
      FollowingIsSound(next, p, APPEND);
      SoundMerges(bundle, next, APPEND);
      FailsExactly(bundle, next, APPEND);
      MergeFollows(bundle, next, p, APPEND);
      FollowingAreGoverned(bundle, next, p, APPEND);
      FollowingAreNotSandwiched(primary, bundle, next, p, APPEND);
      ClashOfGoverned(primary, bundle, next, APPEND);
    }
  }

  /** Fragments that follow one plan of kinds and strategies can be merged beforehand, onto any primary of its shape. */
  lemma {:induction false} PremergePlanned(primary: Json, first: Json, rest: seq<Json>, p: Plan)
    requires HasShape(primary, p) && Follows(first, p, APPEND) && AllFollow(rest, p)
    ensures Compile(primary, [first] + rest) == Compile(primary, [Bundle(first, rest)])
  {
    forall i | 0 <= i < |[first] + rest| ensures Sound(([first] + rest)[i], APPEND) {
      FollowingIsSound(([first] + rest)[i], p, APPEND);
    }
    SoundCompile(primary, [first] + rest);
    FollowingAreCompatible(primary, first, rest, p);
    Premerge(primary, first, rest);
  }
}
