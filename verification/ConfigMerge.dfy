/** The deep merge of configuration fragments of scripts/config_src_merge.py. */
module ConfigMerge {
  import opened Common
  import ListMerge

  /** A JSON value. Objects are unordered; a number is the text that it prints as. */
  datatype Json =
    | Null
    | Bool(on: bool)
    | Num(text: string)
    | Str(str: string)
    | Arr(items: seq<Json>)
    | Obj(fields: map<string, Json>)

  /** The only exception of the source, raised for a bad strategy. */
  datatype MergeError = ValueError

  const MERGE_STRATEGY: string := "__merge_strategy__"
  const REPLACE: string := "__replace__"

  predicate IsControl(key: string) { key == MERGE_STRATEGY || key == REPLACE }

  function StripControlKeys(fields: map<string, Json>): map<string, Json> {
    map k | k in fields && !IsControl(k) :: fields[k]
  }

  // ----- tags -----

  /** The characters that Python's `str.strip` removes. */
  predicate IsPythonSpace(c: char) {
    || '\t' <= c <= '\r' || '\U{1C}' <= c <= ' ' || c == '\U{85}' || c == '\U{A0}' || c == '\U{1680}'
    || '\U{2000}' <= c <= '\U{200A}' || c == '\U{2028}' || c == '\U{2029}' || c == '\U{202F}' || c == '\U{205F}'
    || c == '\U{3000}'
  }

  function Strip(s: string): string {
    if s != [] && IsPythonSpace(s[0]) then Strip(s[1..])
    else if s != [] && IsPythonSpace(s[|s| - 1]) then Strip(s[..|s| - 1])
    else s
  }

  /** The first of the tag keys that holds a string with something in it, and that string. */
  function TagUnder(fields: map<string, Json>, keys: seq<string>): Option<string> {
    if keys == [] then None
    else if keys[0] in fields && fields[keys[0]].Str? && Strip(fields[keys[0]].str) != []
    then Some(keys[0] + ":" + Strip(fields[keys[0]].str))
    else TagUnder(fields, keys[1..])
  }

  function ItemTag(value: Json): Option<string> {
    if value.Obj? then TagUnder(value.fields, ["tag", "ruleTag", "id", "name"]) else None
  }

  // ----- merging -----

  /** A strategy name: one of the four, or anything else. */
  type Strategy = Option<ListMerge.Strategy>

  /** `str` of a JSON value that is not a string is never the name of a strategy. */
  function StrategyOf(value: Json): Strategy {
    if value == Str("append") then Some(ListMerge.Append)
    else if value == Str("replace") then Some(ListMerge.Replace)
    else if value == Str("append_unique") then Some(ListMerge.AppendUnique)
    else if value == Str("append_unique_by_tag") then Some(ListMerge.AppendUniqueByTag)
    else None
  }

  /** Items with the same stable key are the same JSON value, so the key is the value itself. */
  function MergeList(base: seq<Json>, overlay: seq<Json>, strategy: Strategy): Result<seq<Json>, MergeError> {
    match strategy
    case None => Err(ValueError)
    case Some(s) => Ok(ListMerge.Merge(ItemTag, base, overlay, s))
  }

  predicate Replaces(overlay: map<string, Json>) {
    REPLACE in overlay && overlay[REPLACE] == Bool(true)
  }

  /** The control key must hold an object or null. */
  predicate BadStrategies(overlay: map<string, Json>) {
    MERGE_STRATEGY in overlay && !overlay[MERGE_STRATEGY].Obj? && !overlay[MERGE_STRATEGY].Null?
  }

  function ChildStrategy(overlay: map<string, Json>, key: string, strategy: Strategy): Strategy {
    if MERGE_STRATEGY in overlay && overlay[MERGE_STRATEGY].Obj? && key in overlay[MERGE_STRATEGY].fields
    then StrategyOf(overlay[MERGE_STRATEGY].fields[key])
    else strategy
  }

  function DeepMerge(base: Json, overlay: Json, strategy: Strategy): Result<Json, MergeError>
    decreases overlay, 2
  {
    if base.Obj? && overlay.Obj? then
      if Replaces(overlay.fields) then Ok(Obj(StripControlKeys(overlay.fields)))
      else if BadStrategies(overlay.fields) then Err(ValueError)
      else Collect(base.fields, Children(base, overlay, strategy))
    else if base.Arr? && overlay.Arr? then
      match MergeList(base.items, overlay.items, strategy)
      case Err(e) => Err(e)
      case Ok(items) => Ok(Arr(items))
    else Ok(overlay)
  }

  /** What each key of the overlay that is not a control key becomes. */
  function Children(base: Json, overlay: Json, strategy: Strategy): (r: map<string, Result<Json, MergeError>>)
    requires base.Obj? && overlay.Obj?
    ensures r.Keys == StripControlKeys(overlay.fields).Keys
    decreases overlay, 1
  {
    map k | k in overlay.fields && !IsControl(k) :: Child(base, overlay, strategy, k)
  }

  function Child(base: Json, overlay: Json, strategy: Strategy, k: string): Result<Json, MergeError>
    requires base.Obj? && overlay.Obj? && k in overlay.fields
    decreases overlay, 0
  {
    if k in base.fields then DeepMerge(base.fields[k], overlay.fields[k], ChildStrategy(overlay.fields, k, strategy))
    else Ok(overlay.fields[k])
  }

  /** The base with the children written over it, unless one of them failed. */
  function Collect(base: map<string, Json>, children: map<string, Result<Json, MergeError>>): Result<Json, MergeError> {
    if exists k :: k in children && children[k].Err? then Err(ValueError)
    else Ok(Obj(base + map k | k in children && children[k].Ok? :: children[k].value))
  }

  // ----- the code, which fills a copy of the base -----

  method MergeFields(base: Json, overlay: Json, strategy: Strategy) returns (r: Result<Json, MergeError>)
    requires base.Obj? && overlay.Obj?
    ensures r == Collect(base.fields, Children(base, overlay, strategy))
    decreases overlay, 0
  {
    var merged := base.fields;
    var stripped := StripControlKeys(overlay.fields);
    ghost var children := Children(base, overlay, strategy);
    var left := stripped.Keys;
    ghost var all, done: set<string> := left, {};
    while left != {}
      invariant left !! done && left + done == all
      invariant Partial(base.fields, children, done, merged)
      decreases |left|
    {
      var key :| key in left;
      assert key in children && children[key] == Child(base, overlay, strategy, key);
      var value: Json;
      if key in merged {
        var child := MergeInto(merged[key], stripped[key], ChildStrategy(overlay.fields, key, strategy));
        if child.Err? { return Err(ValueError); }
        value := child.value;
      } else {
        value := stripped[key];
      }
      PartialStep(base.fields, children, done, merged, key, value);
      merged := merged[key := value];
      MoveOne(left, done, all, key);
      left, done := left - {key}, done + {key};
    }
    assert done == all == children.Keys;
    Complete(base.fields, children, merged);
    r := Ok(Obj(merged));
  }

  method MergeInto(base: Json, overlay: Json, strategy: Strategy) returns (r: Result<Json, MergeError>)
    ensures r == DeepMerge(base, overlay, strategy)
    decreases overlay, 1
  {
    if base.Obj? && overlay.Obj? {
      if Replaces(overlay.fields) { return Ok(Obj(StripControlKeys(overlay.fields))); }
      if BadStrategies(overlay.fields) { return Err(ValueError); }
      r := MergeFields(base, overlay, strategy);
      return;
    }
    if base.Arr? && overlay.Arr? {
      if strategy.None? { return Err(ValueError); }
      var items := ListMerge.MergeListLoop(ItemTag, base.items, overlay.items, strategy.value);
      return Ok(Arr(items));
    }
    r := Ok(overlay);
  }

  /** Some of the children are written over the base. */
  ghost predicate Partial(base: map<string, Json>, children: map<string, Result<Json, MergeError>>,
    done: set<string>, merged: map<string, Json>) {
    && merged.Keys == base.Keys + done
    && (forall k :: k in base && k !in done ==> merged[k] == base[k])
    && (forall k :: k in done && k in merged ==> k in children && children[k] == Ok(merged[k]))
  }

  lemma {:induction false} MoveOne(left: set<string>, done: set<string>, all: set<string>, key: string)
    requires key in left && left !! done && left + done == all
    ensures (left - {key}) !! (done + {key}) && (left - {key}) + (done + {key}) == all
  {}

  lemma {:induction false} PartialStep(base: map<string, Json>, children: map<string, Result<Json, MergeError>>,
    done: set<string>,
                    merged: map<string, Json>, key: string, value: Json)
    requires Partial(base, children, done, merged) && key in children && children[key] == Ok(value)
    ensures Partial(base, children, done + {key}, merged[key := value])
  {}

  lemma {:induction false} Complete(base: map<string, Json>, children: map<string, Result<Json, MergeError>>,
    merged: map<string, Json>)
    requires Partial(base, children, children.Keys, merged)
    ensures Collect(base, children) == Ok(Obj(merged))
  {
    assert forall k :: k in children ==> k in children.Keys && k in merged;
    var values := map k | k in children && children[k].Ok? :: children[k].value;
    assert base + values == merged;
  }

  /** Compiling a configuration: every fragment merged onto the primary in turn, from JSON values. */
  function Compile(primary: Json, fragments: seq<Json>): Result<Json, MergeError>
    decreases |fragments|
  {
    if fragments == [] then Ok(primary)
    else match DeepMerge(primary, fragments[0], Some(ListMerge.Append))
      case Err(e) => Err(e)
      case Ok(merged) => Compile(merged, fragments[1..])
  }

  method CompileConfig(primary: Json, fragments: seq<Json>) returns (r: Result<Json, MergeError>)
    ensures r == Compile(primary, fragments)
  {
    var config := primary;
    for i := 0 to |fragments|
      invariant Compile(config, fragments[i..]) == Compile(primary, fragments)
    {
      var merged := MergeInto(config, fragments[i], Some(ListMerge.Append));
      assert fragments[i..][1..] == fragments[i + 1..];
      if merged.Err? { return merged; }
      config := merged.value;
    }
    r := Ok(config);
  }
}
