/** Moving a catch-all tag to the end of an order, and renaming it in place: when the two come to the same. */
module RouteOrder {
  import opened Common

  /** The tags that are not to be moved. */
  function KeptTags<T(==)>(tags: seq<T>, moved: set<T>): seq<T> {
    if tags == [] then []
    else if Latest(tags) in moved then KeptTags(Earlier(tags), moved)
    else KeptTags(Earlier(tags), moved) + [Latest(tags)]
  }

  /**
    The order of a strict profile after the UDP rule: the tail without the moved tags, then the block and the
    final rule.
   */
  function Moved<T(==)>(tail: seq<T>, direct: T, block: T, final: T): seq<T> {
    KeptTags(tail, {direct, final}) + [block, final]
  }

  /** The first catch-all tag, of either name, replaced. */
  function FirstRenamed<T(==)>(tags: seq<T>, direct: T, block: T, to: T): seq<T> {
    if tags == [] then []
    else if tags[0] in {direct, block} then [to] + tags[1..]
    else [tags[0]] + FirstRenamed(tags[1..], direct, block, to)
  }

  predicate HasAny<T(==)>(tags: seq<T>, those: set<T>) { exists t :: t in tags && t in those }

  /** Block tags, then the final tag at the end. */
  predicate BlocksThenFinal<T(==)>(tags: seq<T>, block: T, final: T) {
    if |tags| <= 1 then tags == [final] else tags[0] == block && BlocksThenFinal(tags[1..], block, final)
  }

  /** The first catch-all tag is the direct one, with block tags and the final tag after it, and no final tag before. */
  predicate EndsInCatchall<T(==)>(tags: seq<T>, direct: T, block: T, final: T) {
    tags != [] &&
    if tags[0] == direct then BlocksThenFinal(tags[1..], block, final)
    else tags[0] !in {block, final} && EndsInCatchall(tags[1..], direct, block, final)
  }

  /** The first catch-all tag, if any, is the direct one. */
  predicate DirectFirst<T(==)>(tags: seq<T>, direct: T, block: T) {
    tags == [] || tags[0] == direct || (tags[0] != block && DirectFirst(tags[1..], direct, block))
  }

  // ----- the tags that are kept -----

  lemma {:induction false} KeptFront<T>(x: T, tags: seq<T>, moved: set<T>)
    ensures KeptTags([x] + tags, moved) == (if x in moved then [] else [x]) + KeptTags(tags, moved)
    decreases |tags|
  {
    var all := [x] + tags;
    if tags == [] {
      assert all == [x] && Earlier(all) == [];
    } else {
      assert Earlier(all) == [x] + Earlier(tags) && Latest(all) == Latest(tags);
      KeptFront(x, Earlier(tags), moved);
    }
  }

  lemma {:induction false} KeptAreNotMoved<T>(tags: seq<T>, moved: set<T>)
    ensures forall t :: t in KeptTags(tags, moved) ==> t in tags && t !in moved
  {
    if tags != [] {
      KeptAreNotMoved(Earlier(tags), moved);
      assert tags == Earlier(tags) + [Latest(tags)];
    }
  }

  lemma {:induction false} MovedFront<T>(x: T, tags: seq<T>, direct: T, block: T, final: T)
    ensures Moved([x] + tags, direct, block, final) ==
            (if x in {direct, final} then [] else [x]) + Moved(tags, direct, block, final)
  {
    var kept := KeptTags(tags, {direct, final});
    KeptFront(x, tags, {direct, final});
    assert ([x] + kept) + [block, final] == [x] + (kept + [block, final]);
  }

  /** The final tag stands at the end only, and the direct tag nowhere. */
  lemma {:induction false} MovedTags<T>(tags: seq<T>, direct: T, block: T, final: T, i: nat)
    requires block !in {direct, final} && direct != final && i < |Moved(tags, direct, block, final)|
    ensures var all := Moved(tags, direct, block, final);
            all[i] != direct && (all[i] == final <==> i == |all| - 1)
  {
    KeptAreNotMoved(tags, {direct, final});
    var kept := KeptTags(tags, {direct, final});
    if i < |kept| { assert kept[i] in kept; }
  }

  // ----- renaming -----

  lemma {:induction false} RenameFront<T>(x: T, tags: seq<T>, direct: T, block: T, to: T)
    ensures FirstRenamed([x] + tags, direct, block, to) ==
            [if x in {direct, block} then to else x] +
              (if x in {direct, block} then tags else FirstRenamed(tags, direct, block, to))
  {
    assert ([x] + tags)[1..] == tags;
  }

  lemma {:induction false} RenameSplit<T>(x: seq<T>, y: seq<T>, direct: T, block: T, to: T)
    ensures |FirstRenamed(x, direct, block, to)| == |x|
    ensures HasAny(x, {direct, block}) ==>
              FirstRenamed(x + y, direct, block, to) == FirstRenamed(x, direct, block, to) + y
    ensures !HasAny(x, {direct, block}) ==>
              FirstRenamed(x, direct, block, to) == x
              && FirstRenamed(x + y, direct, block, to) == x + FirstRenamed(y, direct, block, to)
  {
    RenamedLength(x, direct, block, to);
    if HasAny(x, {direct, block}) {
      RenamedWithin(x, y, direct, block, to);
    } else {
      RenamedBeyond(x, y, direct, block, to);
    }
  }

  lemma {:induction false} RenamedLength<T>(x: seq<T>, direct: T, block: T, to: T)
    ensures |FirstRenamed(x, direct, block, to)| == |x|
  {
    if x != [] { RenamedLength(x[1..], direct, block, to); }
  }

  lemma {:induction false} RenamedWithin<T>(x: seq<T>, y: seq<T>, direct: T, block: T, to: T)
    requires HasAny(x, {direct, block})
    ensures FirstRenamed(x + y, direct, block, to) == FirstRenamed(x, direct, block, to) + y
    decreases |x|
  {
    var t, w := x[0], x[1..];
    assert x == [t] + w && (x + y)[1..] == w + y;
    HasAnyFront(t, w, {direct, block});
    if t in {direct, block} {
      assert [to] + (w + y) == ([to] + w) + y;
    } else {
      RenamedWithin(w, y, direct, block, to);
      assert [t] + (FirstRenamed(w, direct, block, to) + y) == ([t] + FirstRenamed(w, direct, block, to)) + y;
    }
  }

  lemma {:induction false} RenamedBeyond<T>(x: seq<T>, y: seq<T>, direct: T, block: T, to: T)
    requires !HasAny(x, {direct, block})
    ensures FirstRenamed(x, direct, block, to) == x
    ensures FirstRenamed(x + y, direct, block, to) == x + FirstRenamed(y, direct, block, to)
    decreases |x|
  {
    if x == [] {
      assert x + y == y;
    } else {
      var t, w := x[0], x[1..];
      assert x == [t] + w && (x + y)[1..] == w + y;
      HasAnyFront(t, w, {direct, block});
      RenamedBeyond(w, y, direct, block, to);
      assert [t] + (w + FirstRenamed(y, direct, block, to)) == x + FirstRenamed(y, direct, block, to);
    }
  }

  lemma {:induction false} HasAnyFront<T>(x: T, tags: seq<T>, those: set<T>)
    ensures HasAny([x] + tags, those) <==> x in those || HasAny(tags, those)
  {
    if HasAny(tags, those) {
      var t :| t in tags && t in those;
      assert t in [x] + tags;
    }
    if x in those { assert x in [x] + tags; }
  }

  lemma {:induction false} RenamedMembers<T>(tags: seq<T>, direct: T, block: T, to: T)
    ensures forall t :: t in FirstRenamed(tags, direct, block, to) ==> t == to || t in tags
  {
    if tags != [] { RenamedMembers(tags[1..], direct, block, to); }
  }

  lemma {:induction false} RenamedAt<T>(tags: seq<T>, direct: T, block: T, to: T, j: nat)
    requires j < |tags| && tags[j] in {direct, block} && forall k :: 0 <= k < j ==> tags[k] !in {direct, block}
    ensures FirstRenamed(tags, direct, block, to) == tags[j := to]
    decreases j
  {
    if j > 0 { RenamedAt(tags[1..], direct, block, to, j - 1); }
  }

  lemma {:induction false} NothingRenamed<T>(tags: seq<T>, direct: T, block: T, to: T)
    requires forall k :: 0 <= k < |tags| ==> tags[k] !in {direct, block}
    ensures FirstRenamed(tags, direct, block, to) == tags
  {
    if tags != [] { NothingRenamed(tags[1..], direct, block, to); }
  }

  lemma {:induction false} RenamingKeeps<T>(tags: seq<T>, direct: T, block: T)
    requires direct != block
    ensures FirstRenamed(tags, direct, block, direct) == tags <==> DirectFirst(tags, direct, block)
  {
    if tags != [] {
      RenamingKeeps(tags[1..], direct, block);
      assert tags == [tags[0]] + tags[1..];
    }
  }

  // ----- renaming against moving -----

  lemma {:induction false} SameParts<T>(x: seq<T>, y: seq<T>, x': seq<T>, y': seq<T>)
    requires |x| == |x'|
    ensures x + y == x' + y' <==> x == x' && y == y'
  {
    assert (x + y)[..|x|] == x && (x + y)[|x|..] == y;
    assert (x' + y')[..|x|] == x' && (x' + y')[|x|..] == y';
  }

  /** Something is always moved to the end. */
  lemma {:induction false} MovingChanges<T>(tags: seq<T>, direct: T, block: T, final: T)
    requires block !in {direct, final} && direct != final
    ensures tags != Moved(tags, direct, block, final)
  {
    if tags != [] {
      var x, w := tags[0], tags[1..];
      assert tags == [x] + w;
      MovedFront(x, w, direct, block, final);
      if x in {direct, final} {
        MovedTags(tags, direct, block, final, 0);
      } else {
        MovingChanges(w, direct, block, final);
      }
    }
  }

  lemma {:induction false} AfterDirect<T>(tags: seq<T>, direct: T, block: T, final: T)
    requires block !in {direct, final} && direct != final
    ensures [block] + tags == Moved(tags, direct, block, final) <==> BlocksThenFinal(tags, block, final)
  {
    var all := Moved(tags, direct, block, final);
    if tags == [] {
    } else {
      var x, w := tags[0], tags[1..];
      assert tags == [x] + w && ([block] + tags)[1] == x;
      MovedFront(x, w, direct, block, final);
      AfterDirect(w, direct, block, final);
      if x in {direct, final} {
        if [block] + tags == all { MovedTags(tags, direct, block, final, 1); }
      } else if x == block {
        SameParts([block], [block] + w, [block], Moved(w, direct, block, final));
      } else {
        assert all[0] == x;
      }
    }
  }

  /** Renaming the first catch-all tag to the block one is moving it to the end, exactly when it is there already. */
  lemma {:induction false} RenamingMoves<T>(tags: seq<T>, direct: T, block: T, final: T)
    requires block !in {direct, final} && direct != final
    ensures FirstRenamed(tags, direct, block, block) == Moved(tags, direct, block, final)
            <==> EndsInCatchall(tags, direct, block, final)
  {
    if tags != [] {
      var x, w := tags[0], tags[1..];
      assert tags == [x] + w;
      MovedFront(x, w, direct, block, final);
      RenameFront(x, w, direct, block, block);
      if x == direct {
        AfterDirect(w, direct, block, final);
      } else if x == block {
        MovingChanges(w, direct, block, final);
      } else if x == final {
        if FirstRenamed(tags, direct, block, block) == Moved(tags, direct, block, final) {
          MovedTags(tags, direct, block, final, 0);
        }
      } else {
        RenamingMoves(w, direct, block, final);
        SameParts([x], FirstRenamed(w, direct, block, block), [x], Moved(w, direct, block, final));
      }
    }
  }

  /** A tag that is there already cannot come to stand in front of what is moved. */
  lemma {:induction false} NoSecondTag<T>(tags: seq<T>, u: T, direct: T, block: T, final: T)
    requires block !in {direct, final} && direct != final && u !in {direct, block, final}
    ensures tags != [u] + Moved(tags, direct, block, final)
    ensures FirstRenamed(tags, direct, block, block) != [u] + Moved(tags, direct, block, final)
  {
    if tags != [] {
      var x, w := tags[0], tags[1..];
      assert tags == [x] + w;
      MovedFront(x, w, direct, block, final);
      RenameFront(x, w, direct, block, block);
      NoSecondTag(w, u, direct, block, final);
      if x == u {
        SameParts([u], w, [u], [u] + Moved(w, direct, block, final));
        SameParts([u], FirstRenamed(w, direct, block, block), [u], [u] + Moved(w, direct, block, final));
      } else {
        assert FirstRenamed(tags, direct, block, block)[0] != u;
      }
    }
  }

  /** A tag that occurs once splits its list in one way. */
  lemma {:induction false} SplitOnce<T>(x: seq<T>, y: seq<T>, x': seq<T>, y': seq<T>, u: T)
    requires u !in x + y && u !in x' + y'
    ensures (x + [u]) + y == (x' + [u]) + y' <==> x == x' && y == y'
  {
    var l, r := (x + [u]) + y, (x' + [u]) + y';
    assert forall k :: 0 <= k < |x| ==> l[k] == x[k] && x[k] in x + y;
    assert forall k :: 0 <= k < |x'| ==> r[k] == x'[k] && x'[k] in x' + y';
    assert l[|x|] == u && r[|x'|] == u;
    if l == r { assert |x| == |x'|; }
    if |x| == |x'| {
      SameParts(x + [u], y, x' + [u], y');
      SameParts(x, [u], x', [u]);
    }
  }

  /** An order with `u` inserted at `i` and the first catch-all renamed. */
  function Generated<T(==)>(tags: seq<T>, i: nat, u: T, direct: T, block: T, to: T): seq<T>
    requires i <= |tags|
  {
    FirstRenamed(if u in tags then tags else (tags[..i] + [u]) + tags[i..], direct, block, to)
  }

  lemma {:induction false} GeneratedSplit<T>(tags: seq<T>, i: nat, u: T, direct: T, block: T, to: T)
    requires i <= |tags| && u !in tags && u !in {direct, block, to}
    ensures var renamed := FirstRenamed(tags, direct, block, to);
            |renamed| == |tags| && u !in renamed
            && Generated(tags, i, u, direct, block, to) == (renamed[..i] + [u]) + renamed[i..]
  {
    var x, y := tags[..i], tags[i..];
    assert tags == x + y;
    var x', y' := RenamedParts(x, y, u, direct, block, to);
    var renamed := FirstRenamed(tags, direct, block, to);
    assert renamed[..i] == x' && renamed[i..] == y';
    RenameSplit(tags, [], direct, block, to);
    RenamedMembers(tags, direct, block, to);
  }

  /** Renaming does not see a tag that stands between two parts and is none of the catch-all tags. */
  lemma {:induction false} RenamedParts<T>(x: seq<T>, y: seq<T>, u: T, direct: T, block: T, to: T)
    returns (x': seq<T>, y': seq<T>)
    requires u !in {direct, block}
    ensures |x'| == |x| && FirstRenamed(x + y, direct, block, to) == x' + y'
    ensures FirstRenamed((x + [u]) + y, direct, block, to) == (x' + [u]) + y'
  {
    RenamedLength(x, direct, block, to);
    assert (x + [u]) + y == x + ([u] + y);
    if HasAny(x, {direct, block}) {
      x', y' := FirstRenamed(x, direct, block, to), y;
      RenamedWithin(x, y, direct, block, to);
      RenamedWithin(x, [u] + y, direct, block, to);
    } else {
      x', y' := x, FirstRenamed(y, direct, block, to);
      RenamedBeyond(x, y, direct, block, to);
      RenamedBeyond(x, [u] + y, direct, block, to);
      RenameFront(u, y, direct, block, to);
    }
    assert (x' + [u]) + y' == x' + ([u] + y');
  }

  /** Renaming to the direct tag, against no change: for the profiles that are not strict. */
  lemma {:induction false} GeneratedAsIs<T>(tags: seq<T>, i: nat, m: nat, u: T, direct: T, block: T)
    requires i <= |tags| && m <= |tags| && u !in {direct, block} && direct != block
    ensures Generated(tags, i, u, direct, block, direct) == (tags[..m] + [u]) + tags[m..] <==>
            u !in tags && i == m && DirectFirst(tags, direct, block)
  {
    var renamed := FirstRenamed(tags, direct, block, direct);
    RenameSplit(tags, [], direct, block, direct);
    RenamingKeeps(tags, direct, block);
    if u !in tags {
      GeneratedSplit(tags, i, u, direct, block, direct);
      assert renamed == renamed[..i] + renamed[i..] && tags == tags[..m] + tags[m..];
      SplitOnce(renamed[..i], renamed[i..], tags[..m], tags[m..], u);
    }
  }

  /** Renaming to the block tag, against moving to the end: for the strict profile. */
  lemma {:induction false} GeneratedMoved<T>(tags: seq<T>, i: nat, m: nat, u: T, direct: T, block: T, final: T)
    requires i <= |tags| && m <= |tags| && (m == |tags| || m > 0)
    requires u !in {direct, block, final} && block !in {direct, final} && direct != final
    ensures Generated(tags, i, u, direct, block, block) ==
              (tags[..m] + [u]) + Moved(tags[m..], direct, block, final) <==>
            u !in tags && i == m && !HasAny(tags[..m], {direct, block}) &&
              EndsInCatchall(tags[m..], direct, block, final)
  {
    var head, tail := tags[..m], tags[m..];
    var renamed := FirstRenamed(tags, direct, block, block);
    assert tags == head + tail;
    RenameSplit(head, tail, direct, block, block);
    RenameSplit(tags, [], direct, block, block);
    RenamingMoves(tail, direct, block, final);
    MovingChanges(tail, direct, block, final);
    NoSecondTag(tail, u, direct, block, final);
    if u in tags {
      var goal := [u] + Moved(tail, direct, block, final);
      assert (head + [u]) + Moved(tail, direct, block, final) == head + goal;
      SameParts(FirstRenamed(head, direct, block, block), tail, head, goal);
      SameParts(head, FirstRenamed(tail, direct, block, block), head, goal);
    } else {
      MovedHasNo(tags, m, u, direct, block, final);
      GeneratedSplit(tags, i, u, direct, block, block);
      assert renamed == renamed[..i] + renamed[i..];
      SplitOnce(renamed[..i], renamed[i..], head, Moved(tail, direct, block, final), u);
    }
  }

  lemma {:induction false} MovedHasNo<T>(tags: seq<T>, m: nat, u: T, direct: T, block: T, final: T)
    requires m <= |tags| && u !in tags && u !in {direct, block, final}
    ensures u !in tags[..m] + Moved(tags[m..], direct, block, final)
  {
    KeptAreNotMoved(tags[m..], {direct, final});
  }
}
