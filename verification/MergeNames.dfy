/** What the names in a fragment mean: the control keys, the four strategies and the tag keys, spelled out. */
module MergeNames {
  import opened Common
  import opened ConfigMerge
  import opened MergeLaws
  import opened MergeRepeats
  import opened ListPremerge
  import ListMerge

  // ----- tags -----

  /** A string with something in it. */
  predicate Usable(x: Json, key: string) {
    x.Obj? && key in x.fields && x.fields[key].Str? && Strip(x.fields[key].str) != []
  }

  /** The tag of an object: the first of its `tag`, `ruleTag`, `id` and `name` that is usable. */
  predicate Carries(x: Json, key: string, text: string) {
    && Usable(x, key) && text == Strip(x.fields[key].str)
    && (key == "tag"
        || (key == "ruleTag" && !Usable(x, "tag"))
        || (key == "id" && !Usable(x, "tag") && !Usable(x, "ruleTag"))
        || (key == "name" && !Usable(x, "tag") && !Usable(x, "ruleTag") && !Usable(x, "id")))
  }

  predicate CarriesNone(x: Json) {
    !Usable(x, "tag") && !Usable(x, "ruleTag") && !Usable(x, "id") && !Usable(x, "name")
  }

  lemma {:induction false} TagIs(x: Json, key: string, text: string)
    ensures Carries(x, key, text) ==> ItemTag(x) == Some(key + ":" + text)
    ensures CarriesNone(x) <==> ItemTag(x).None?
  {
    var k4: seq<string> := ["name"];
    var k3, k2, k1 := ["id", "name"], ["ruleTag", "id", "name"], ["tag", "ruleTag", "id", "name"];
    assert k4[1..] == [] && k3[1..] == k4 && k2[1..] == k3 && k1[1..] == k2;
    if x.Obj? {
      UnderFirst(x.fields, k1);
      UnderFirst(x.fields, k2);
      UnderFirst(x.fields, k3);
      UnderFirst(x.fields, k4);
    }
    assert "tag"[0] == 't' && "ruleTag"[0] == 'r' && "id"[0] == 'i' && "name"[0] == 'n';
  }

  lemma {:induction false} UnderFirst(fields: map<string, Json>, keys: seq<string>)
    requires keys != []
    ensures TagUnder(fields, keys) ==
            if Usable(Obj(fields), keys[0]) then Some(keys[0] + ":" + Strip(fields[keys[0]].str))
            else TagUnder(fields, keys[1..])
  {}

  // ----- an overlay that names a strategy for one key -----

  function Holding(k: string, items: seq<Json>): Json { Obj(map[k := Arr(items)]) }

  function Naming(k: string, name: string, items: seq<Json>): Json {
    Obj(map["__merge_strategy__" := Obj(map[k := Str(name)]), k := Arr(items)])
  }

  predicate IsData(k: string) { k != "__merge_strategy__" && k != "__replace__" }

  lemma {:induction false} NamingSets(k: string, name: string, items: seq<Json>, st: Strategy)
    requires IsData(k)
    ensures Sets(Naming(k, name, items), k, Arr(items), st, StrategyOf(Str(name)))
  {
    assert MERGE_STRATEGY == "__merge_strategy__" && REPLACE == "__replace__";
    assert MERGE_STRATEGY[2] == 'm' && REPLACE[2] == 'r';
  }

  lemma {:induction false} NamedMerge(k: string, name: string, s: ListMerge.Strategy, base: seq<Json>, over: seq<Json>,
    st: Strategy)
    requires IsData(k) && StrategyOf(Str(name)) == Some(s)
    ensures DeepMerge(Holding(k, base), Naming(k, name, over), st) ==
            Ok(Holding(k, ListMerge.Merge(ItemTag, base, over, s)))
  {
    NamingSets(k, name, over, st);
    OneFieldMerges(Holding(k, base), Naming(k, name, over), k, Arr(over),
      Arr(ListMerge.Merge(ItemTag, base, over, s)), st, Some(s));
  }

  lemma {:induction false} NamesDiffer()
    ensures "append" != "replace" && "append" != "append_unique" && "append" != "append_unique_by_tag"
    ensures "replace" != "append_unique" && "replace" != "append_unique_by_tag"
    ensures "append_unique" != "append_unique_by_tag"
  {
    assert |"append"| == 6 && |"replace"| == 7 && |"append_unique"| == 13 && |"append_unique_by_tag"| == 20;
  }

  /** `append` puts the overlay after the base, whatever the strategy in force. */
  lemma {:induction false} NamedAppend(k: string, base: seq<Json>, over: seq<Json>, st: Strategy)
    requires IsData(k)
    ensures DeepMerge(Holding(k, base), Naming(k, "append", over), st) == Ok(Holding(k, base + over))
  {
    NamesDiffer();
    NamedMerge(k, "append", ListMerge.Append, base, over, st);
  }

  /** `replace` leaves the overlay alone. */
  lemma {:induction false} NamedReplace(k: string, base: seq<Json>, over: seq<Json>, st: Strategy)
    requires IsData(k)
    ensures DeepMerge(Holding(k, base), Naming(k, "replace", over), st) == Ok(Holding(k, over))
  {
    NamesDiffer();
    NamedMerge(k, "replace", ListMerge.Replace, base, over, st);
  }

  /** Each item of the list once, in the order in which they first occur. */
  ghost predicate EachOnce<T(!new)>(r: seq<T>, s: seq<T>) {
    && (forall x :: x in r <==> x in s)
    && (forall i, j :: 0 <= i < j < |r| ==> r[i] != r[j] && Before(r[i], r[j], s))
  }

  /** `x` occurs, and `y` does not occur before it. */
  ghost predicate Before<T(!new)>(x: T, y: T, s: seq<T>) {
    exists p :: 0 <= p < |s| && s[p] == x && y !in s[..p]
  }

  lemma {:induction false} BeforeLonger<T(!new)>(x: T, y: T, s: seq<T>, more: seq<T>)
    requires Before(x, y, s)
    ensures Before(x, y, s + more)
  {
    var p :| 0 <= p < |s| && s[p] == x && y !in s[..p];
    assert (s + more)[p] == x && (s + more)[..p] == s[..p];
  }

  lemma {:induction false} DedupIsEachOnce<T(!new)>(s: seq<T>)
    ensures EachOnce(ListMerge.Dedup(s), s)
  {
    ListMerge.DedupMembers(s);
    ListMerge.DedupDistinct(s);
    if s != [] {
      var e, l, d := Earlier(s), Latest(s), ListMerge.Dedup(Earlier(s));
      DedupIsEachOnce(e);
      assert s == e + [l];
      forall i, j | 0 <= i < j < |ListMerge.Dedup(s)|
        ensures Before(ListMerge.Dedup(s)[i], ListMerge.Dedup(s)[j], s)
      {
        if j < |d| {
          BeforeLonger(d[i], d[j], e, [l]);
        } else {
          assert d[i] in e;
          var p :| 0 <= p < |e| && e[p] == d[i];
          assert s[p] == d[i] && forall x :: x in s[..p] ==> x in e;
        }
      }
    }
  }

  /**
    `append_unique` keeps each item of base and overlay once, in the order in which they first occur, whatever
    their tags.
   */
  lemma {:induction false} NamedAppendUnique(k: string, base: seq<Json>, over: seq<Json>, st: Strategy)
    returns (r: seq<Json>)
    requires IsData(k)
    ensures DeepMerge(Holding(k, base), Naming(k, "append_unique", over), st) == Ok(Holding(k, r))
    ensures EachOnce(r, base + over)
  {
    NamesDiffer();
    NamedMerge(k, "append_unique", ListMerge.AppendUnique, base, over, st);
    r := ListMerge.Dedup(base + over);
    DedupIsEachOnce(base + over);
  }

  /** No item occurs twice, no tag is carried twice, and the items that carry one come first. */
  ghost predicate TagsOnce(s: seq<Json>) {
    forall i, j :: 0 <= i < j < |s| ==>
      && s[i] != s[j]
      && (CarriesNone(s[i]) ==> CarriesNone(s[j]))
      && forall key, text :: Carries(s[i], key, text) ==> !Carries(s[j], key, text)
  }

  /** `append_unique_by_tag` replaces an item by the one with the same tag, in its place. */
  lemma {:induction false} NamedByTagReplaces(k: string, p: seq<Json>, x: Json, q: seq<Json>, y: Json, key: string,
    text: string, st: Strategy)
    requires IsData(k) && TagsOnce(p + [x] + q) && Carries(x, key, text) && Carries(y, key, text)
    ensures DeepMerge(Holding(k, p + [x] + q), Naming(k, "append_unique_by_tag", [y]), st) ==
            Ok(Holding(k, p + [y] + q))
  {
    NamesDiffer();
    NamedMerge(k, "append_unique_by_tag", ListMerge.AppendUniqueByTag, p + [x] + q, [y], st);
    TagIs(x, key, text);
    TagIs(y, key, text);
    OnceIsTaggedFirst(p + [x] + q);
    ReplacedInPlace(ItemTag, p, x, q, y);
  }

  /** It appends an item whose tag the base does not carry, in front of those without a tag. */
  lemma {:induction false} NamedByTagAppends(k: string, p: seq<Json>, q: seq<Json>, y: Json, key: string, text: string,
    st: Strategy)
    requires IsData(k) && TagsOnce(p + q) && Carries(y, key, text)
    requires (forall x :: x in p ==> !CarriesNone(x) && !Carries(x, key, text)) && forall x :: x in q ==> CarriesNone(x)
    ensures DeepMerge(Holding(k, p + q), Naming(k, "append_unique_by_tag", [y]), st) == Ok(Holding(k, p + [y] + q))
  {
    NamesDiffer();
    NamedMerge(k, "append_unique_by_tag", ListMerge.AppendUniqueByTag, p + q, [y], st);
    TagIs(y, key, text);
    forall x | x in p ensures ItemTag(x).Some? && ItemTag(x) != ItemTag(y) {
      TagIs(x, key, text);
      SameTagCarried(x, y, key, text);
    }
    forall x | x in q ensures ItemTag(x).None? { TagIs(x, key, text); }
    OnceIsTaggedFirst(p + q);
    AppendedToTagged(ItemTag, p, q, y);
  }

  // ----- how the tags compare -----

  /** An object that carries a tag carries one under one of the four keys. */
  lemma {:induction false} CarriedTag(x: Json) returns (key: string, text: string)
    requires !CarriesNone(x)
    ensures Carries(x, key, text) && key in ["tag", "ruleTag", "id", "name"]
  {
    key := if Usable(x, "tag") then "tag" else if Usable(x, "ruleTag") then "ruleTag" else if Usable(x, "id") then "id"
           else "name";
    text := Strip(x.fields[key].str);
  }

  /** Two tags are the same exactly if key and text are. */
  lemma {:induction false} SameTagText(key: string, text: string, key': string, text': string)
    requires ':' !in key && ':' !in key'
    ensures key + ":" + text == key' + ":" + text' <==> key == key' && text == text'
  {
    var a, b := key + ":" + text, key' + ":" + text';
    assert a[|key|] == ':' && b[|key'|] == ':';
    assert forall i :: 0 <= i < |key| ==> a[i] == key[i] && key[i] in key;
    assert forall i :: 0 <= i < |key'| ==> b[i] == key'[i] && key'[i] in key';
    if a == b {
      assert |key| == |key'|;
      assert key == a[..|key|] && key' == b[..|key'|] && text == a[|key| + 1..] && text' == b[|key'| + 1..];
    }
  }

  lemma {:induction false} KeysHaveNoColon(key: string)
    requires key in ["tag", "ruleTag", "id", "name"]
    ensures ':' !in key
  {}

  lemma {:induction false} SameTagCarried(x: Json, y: Json, key: string, text: string)
    requires Carries(y, key, text) && !CarriesNone(x)
    ensures ItemTag(x) == ItemTag(y) <==> Carries(x, key, text)
  {
    var key', text' := CarriedTag(x);
    TagIs(x, key', text');
    TagIs(x, key, text);
    TagIs(y, key, text);
    KeysHaveNoColon(key);
    KeysHaveNoColon(key');
    SameTagText(key', text', key, text);
  }

  lemma {:induction false} OnceIsTaggedFirst(s: seq<Json>)
    requires TagsOnce(s)
    ensures ListMerge.Distinct(s) && ListMerge.TaggedFirst(ItemTag, s)
  {
    forall i, j | 0 <= i < j < |s|
      ensures (ItemTag(s[j]).Some? ==> ItemTag(s[i]).Some?) && (ItemTag(s[i]).Some? ==> ItemTag(s[i]) != ItemTag(s[j]))
    {
      TagIs(s[i], "", "");
      TagIs(s[j], "", "");
      if !CarriesNone(s[i]) && !CarriesNone(s[j]) {
        var key, text := CarriedTag(s[i]);
        SameTagCarried(s[j], s[i], key, text);
      }
    }
  }

  // ----- lists of tagged items -----

  lemma {:induction false} ReplacedInPlace<T(!new)>(tag: T -> Option<string>, p: seq<T>, x: T, q: seq<T>, y: T)
    requires ListMerge.Distinct(p + [x] + q) && ListMerge.TaggedFirst(tag, p + [x] + q)
    requires tag(x).Some? && tag(y) == tag(x)
    ensures ListMerge.ByTag(tag, (p + [x] + q) + [y]) == p + [y] + q
  {
    var s, r := p + [x] + q, p + [y] + q;
    var t := tag(x).value;
    forall i | 0 <= i < |s| && i != |p| ensures r[i] == s[i] && tag(s[i]) != tag(y) {
      assert s[|p|] == x;
    }
    assert r[|p|] == y && s[|p|] == x;
    SameTagsReplaced(tag, p, x, q, y);
    NeatIsByTag(tag, r, s + [y]);
    forall u ensures SameLast(tag, r, s + [y], u) { LastReplaced(tag, p, x, q, y, u); }
  }

  lemma {:induction false} OneTag<T>(tag: T -> Option<string>, x: T)
    ensures ListMerge.Tags(tag, [x]) == if tag(x).Some? then [tag(x).value] else []
    ensures ListMerge.Untagged(tag, [x]) == if tag(x).None? then [x] else []
  {
    TagsOneMore(tag, [], x);
    assert [] + [x] == [x];
  }

  lemma {:induction false} TagsAround<T>(tag: T -> Option<string>, p: seq<T>, z: T, q: seq<T>)
    requires tag(z).Some?
    ensures ListMerge.Tags(tag, p + [z] + q) == ListMerge.Tags(tag, p) + [tag(z).value] + ListMerge.Tags(tag, q)
    ensures ListMerge.Untagged(tag, p + [z] + q) == ListMerge.Untagged(tag, p) + ListMerge.Untagged(tag, q)
  {
    TagsOneMore(tag, p, z);
    ListMerge.TagsAppend(tag, p + [z], q);
  }

  lemma {:induction false} SameTagsReplaced<T(!new)>(tag: T -> Option<string>, p: seq<T>, x: T, q: seq<T>, y: T)
    requires tag(x).Some? && tag(y) == tag(x)
    ensures SameTags(tag, p + [y] + q, (p + [x] + q) + [y])
  {
    TagsAround(tag, p, x, q);
    TagsAround(tag, p, y, q);
    TagsOneMore(tag, p + [x] + q, y);
    assert ListMerge.Tags(tag, p + [x] + q)[|ListMerge.Tags(tag, p)|] == tag(x).value;
    ListMerge.DedupOneMore(ListMerge.Tags(tag, p + [x] + q), tag(x).value);
  }

  lemma {:induction false} LastReplaced<T(!new)>(tag: T -> Option<string>, p: seq<T>, x: T, q: seq<T>, y: T, u: string)
    requires tag(x).Some? && tag(y) == tag(x) && ListMerge.TaggedFirst(tag, p + [y] + q)
    requires ListMerge.TaggedFirst(tag, p + [x] + q)
    ensures SameLast(tag, p + [y] + q, (p + [x] + q) + [y], u)
  {
    var s, r := p + [x] + q, p + [y] + q;
    if u in ListMerge.Tags(tag, r) && u in ListMerge.Tags(tag, s + [y]) {
      OneTag(tag, y);
      ListMerge.LastWithAppend(tag, s, [y], u);
      if Some(u) == tag(y) {
        assert r[|p|] == y;
        SoleIsLast(tag, r, y, u);
        OnlyLast(tag, y, u);
      } else {
        OtherLast(tag, p, x, q, y, u);
      }
    }
  }

  lemma {:induction false} OtherLast<T(!new)>(tag: T -> Option<string>, p: seq<T>, x: T, q: seq<T>, y: T, u: string)
    requires tag(x) != Some(u) && ListMerge.TaggedFirst(tag, p + [y] + q) && u in ListMerge.Tags(tag, p + [x] + q)
    ensures u in ListMerge.Tags(tag, p + [y] + q)
    ensures ListMerge.LastWith(tag, p + [y] + q, u) == ListMerge.LastWith(tag, p + [x] + q, u)
  {
    var z := ListMerge.LastWith(tag, p + [x] + q, u);
    LastIsMember(tag, p + [x] + q, u);
    assert z in p || z in q;
    assert z in p + [y] + q;
    SoleIsLast(tag, p + [y] + q, z, u);
  }

  lemma {:induction false} OnlyLast<T>(tag: T -> Option<string>, y: T, u: string)
    requires tag(y) == Some(u)
    ensures u in ListMerge.Tags(tag, [y]) && ListMerge.LastWith(tag, [y], u) == y
  {
    OneTag(tag, y);
  }

  lemma {:induction false} AppendedToTagged<T(!new)>(tag: T -> Option<string>, p: seq<T>, q: seq<T>, y: T)
    requires ListMerge.Distinct(p + q) && ListMerge.TaggedFirst(tag, p + q) && tag(y).Some?
    requires (forall x :: x in p ==> tag(x).Some? && tag(x) != tag(y)) && forall x :: x in q ==> tag(x).None?
    ensures ListMerge.ByTag(tag, (p + q) + [y]) == p + [y] + q
  {
    var r := p + [y] + q;
    AppendedIsNeat(tag, p, q, y);
    SameTagsAppended(tag, p, q, y);
    NeatIsByTag(tag, r, (p + q) + [y]);
    forall u ensures SameLast(tag, r, (p + q) + [y], u) { LastAppended(tag, p, q, y, u); }
  }

  lemma {:induction false} SameTagsAppended<T(!new)>(tag: T -> Option<string>, p: seq<T>, q: seq<T>, y: T)
    requires tag(y).Some? && forall x :: x in q ==> tag(x).None?
    ensures SameTags(tag, p + [y] + q, (p + q) + [y])
  {
    var t, ts := tag(y).value, ListMerge.Tags(tag, p);
    ListMerge.UntaggedOfUntagged(tag, q);
    TagsAround(tag, p, y, q);
    ListMerge.TagsAppend(tag, p, q);
    TagsOneMore(tag, p + q, y);
    assert ts + [] == ts && (ts + [t]) + [] == ts + [t];
    assert ListMerge.Tags(tag, p + [y] + q) == ListMerge.Tags(tag, (p + q) + [y]);
  }

  lemma {:induction false} AppendedIsNeat<T>(tag: T -> Option<string>, p: seq<T>, q: seq<T>, y: T)
    requires ListMerge.Distinct(p + q) && ListMerge.TaggedFirst(tag, p + q) && tag(y).Some?
    requires (forall x :: x in p ==> tag(x).Some? && tag(x) != tag(y)) && forall x :: x in q ==> tag(x).None?
    ensures ListMerge.Distinct(p + [y] + q) && ListMerge.TaggedFirst(tag, p + [y] + q)
  {
    var r, s := p + [y] + q, p + q;
    forall i | 0 <= i < |r| && i != |p|
      ensures r[i] == s[if i < |p| then i else i - 1] && r[i] in if i < |p| then p else q
    {}
  }

  lemma {:induction false} LastAppended<T(!new)>(tag: T -> Option<string>, p: seq<T>, q: seq<T>, y: T, u: string)
    requires ListMerge.TaggedFirst(tag, p + [y] + q) && tag(y).Some?
    ensures SameLast(tag, p + [y] + q, (p + q) + [y], u)
  {
    var s, r := p + q, p + [y] + q;
    if u in ListMerge.Tags(tag, r) && u in ListMerge.Tags(tag, s + [y]) {
      OneTag(tag, y);
      ListMerge.LastWithAppend(tag, s, [y], u);
      if Some(u) == tag(y) {
        assert r[|p|] == y;
        SoleIsLast(tag, r, y, u);
        OnlyLast(tag, y, u);
      } else {
        var z := ListMerge.LastWith(tag, s, u);
        LastIsMember(tag, s, u);
        assert z in p || z in q;
        assert z in r;
        SoleIsLast(tag, r, z, u);
      }
    }
  }

  // ----- the other names -----

  /** Any other name is an error, when there are lists to merge. */
  lemma {:induction false} UnknownName(k: string, name: string, base: seq<Json>, over: seq<Json>, st: Strategy)
    requires IsData(k) && name !in ["append", "replace", "append_unique", "append_unique_by_tag"]
    ensures DeepMerge(Holding(k, base), Naming(k, name, over), st).Err?
  {
    var x, o := Holding(k, base), Naming(k, name, over);
    NamingSets(k, name, over, st);
    assert Owns(o, k) && Fails(At(x, k), o.fields[k], Under(o, k, st));
    FailsExactly(x, o, st);
  }

  /** Without a name, compiling appends. */
  lemma {:induction false} CompileAppends(k: string, base: seq<Json>, over: seq<Json>)
    requires IsData(k)
    ensures Compile(Holding(k, base), [Holding(k, over)]) == Ok(Holding(k, base + over))
  {
    OneFieldSets(k, Arr(over), APPEND);
    OneFieldMerges(Holding(k, base), Holding(k, over), k, Arr(over), Arr(base + over), APPEND, APPEND);
    CompileOne(Holding(k, base), Holding(k, over), []);
  }

  /**
    `__replace__` set to true takes the overlay as it is, without its control keys; set to anything else, it
    does nothing.
   */
  lemma {:induction false} ReplaceKey(base: map<string, Json>, k: string, j: Json, flag: Json, st: Strategy)
    requires IsData(k)
    ensures flag == Bool(true) ==>
              DeepMerge(Obj(base), Obj(map["__replace__" := flag, k := j]), st) == Ok(Obj(map[k := j]))
    ensures flag != Bool(true) ==>
              DeepMerge(Obj(base), Obj(map["__replace__" := flag, k := j]), st) ==
                DeepMerge(Obj(base), Obj(map[k := j]), st)
  {
    var o, plain := Obj(map["__replace__" := flag, k := j]), Obj(map[k := j]);
    assert REPLACE == "__replace__" && MERGE_STRATEGY == "__merge_strategy__" && MERGE_STRATEGY[2] ==
      'm' && REPLACE[2] == 'r';
    assert StripControlKeys(o.fields) == plain.fields;
    if flag != Bool(true) {
      SameChildren(Obj(base), o, plain, st);
    }
  }

  /** Overlays that differ in control keys only that do nothing merge alike. */
  lemma {:induction false} SameChildren(x: Json, o: Json, plain: Json, st: Strategy)
    requires x.Obj? && Plain(o) && Plain(plain)
    requires forall k :: Owns(o, k) <==> Owns(plain, k)
    requires forall k :: Owns(o, k) ==> At(o, k) == At(plain, k) && Under(o, k, st) == Under(plain, k, st)
    ensures DeepMerge(x, o, st) == DeepMerge(x, plain, st)
  {
    MergedObject(x, o, st);
    MergedObject(x, plain, st);
    if DeepMerge(x, o, st).Ok? && DeepMerge(x, plain, st).Ok? {
      SameObject(Onto(x, o, st), Onto(x, plain, st));
    }
    assert ChildrenMerge(x, o, st) <==> ChildrenMerge(x, plain, st);
  }

  predicate AllSpace(s: string) { forall i :: 0 <= i < |s| ==> IsPythonSpace(s[i]) }

  /** Texts are compared without the white space around them, and are usable if there is something else. */
  lemma {:induction false} StripIs(before: string, s: string, after: string)
    requires AllSpace(before) && AllSpace(after)
    requires s != [] ==> !IsPythonSpace(s[0]) && !IsPythonSpace(s[|s| - 1])
    ensures Strip(before + s + after) == s
    decreases |before|
  {
    var whole := before + s + after;
    if before != [] {
      assert whole[0] == before[0] && whole[1..] == before[1..] + s + after;
      StripStart(whole);
      StripIs(before[1..], s, after);
    } else if s == [] {
      assert whole == after;
      StripBlank(after);
    } else {
      assert whole == s + after;
      StripAfter(s, after);
    }
  }

  lemma {:induction false} StripStart(s: string)
    requires s != [] && IsPythonSpace(s[0])
    ensures Strip(s) == Strip(s[1..])
  {}

  lemma {:induction false} StripEnd(s: string)
    requires s != [] && !IsPythonSpace(s[0]) && IsPythonSpace(s[|s| - 1])
    ensures Strip(s) == Strip(s[..|s| - 1])
  {}

  lemma {:induction false} StripBlank(s: string)
    requires AllSpace(s)
    ensures Strip(s) == []
  {
    if s != [] {
      StripStart(s);
      StripBlank(s[1..]);
    }
  }

  lemma {:induction false} StripAfter(s: string, after: string)
    requires AllSpace(after) && s != [] && !IsPythonSpace(s[0]) && !IsPythonSpace(s[|s| - 1])
    ensures Strip(s + after) == s
    decreases |after|
  {
    if after == [] {
      assert s + after == s;
    } else {
      var whole, less := s + after, after[..|after| - 1];
      assert whole[0] == s[0] && whole[|whole| - 1] == after[|after| - 1] && whole[..|whole| - 1] == s + less;
      StripEnd(whole);
      StripAfter(s, less);
    }
  }

  /** Of the ASCII characters, white space are the tabulator to the return, the four separators and the blank. */
  lemma {:induction false} AsciiPythonSpaces(c: char)
    ensures c as int < 128 ==> (IsPythonSpace(c) <==> 9 <= c as int <= 13 || 28 <= c as int <= 32)
  {}
}
