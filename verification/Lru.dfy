/**
  "Remove the least recently used": the choice shared by the certificate cache, the overlay session
  table and the H2 session table. All three evict the minimum by (last use, key), where keys are
  strictly and totally ordered, and two of them repeat that until a bound holds.

  The outcome of such a loop is described here without mentioning the loop: an entry survives
  exactly when fewer than `n` of its peers are newer than it.
 */
module Lru {
  import opened Common

  /** The comparison of (last use, key) pairs. */
  predicate Older<K>(less: (K, K) -> bool, stamps: map<K, nat>, a: K, b: K)
    requires a in stamps && b in stamps
  {
    stamps[a] < stamps[b] || (stamps[a] == stamps[b] && less(a, b))
  }

  /** The members of `k`'s group that are newer than `k`. */
  ghost function NewerPeers<K, G>(less: (K, K) -> bool, stamps: map<K, nat>, group: K -> G, k: K): set<K>
    requires k in stamps
  {
    set x | x in stamps && group(x) == group(k) && Older(less, stamps, k, x)
  }

  ghost function Peers<K, G>(stamps: map<K, nat>, group: K -> G, g: G): set<K> {
    set x | x in stamps && group(x) == g
  }

  /** The `n` newest keys of each group. */
  ghost function Newest<K, G>(less: (K, K) -> bool, stamps: map<K, nat>, group: K -> G, n: nat): set<K> {
    set k | k in stamps && |NewerPeers(less, stamps, group, k)| < n
  }

  /** The grouping that puts all keys together. */
  function Everyone<K>(k: K): () { () }

  /** `k` is the minimum by (last use, key) among the candidates. */
  ghost predicate IsOldest<K>(less: (K, K) -> bool, stamps: map<K, nat>, candidates: set<K>, k: K)
    requires candidates <= stamps.Keys
  {
    k in candidates && forall x :: x in candidates && x != k ==> Older(less, stamps, k, x)
  }

  function Without<K, V>(m: map<K, V>, k: K): map<K, V> {
    map x | x in m && x != k :: m[x]
  }

  function Restrict<K, V>(m: map<K, V>, keys: set<K>): map<K, V> {
    map x | x in m && x in keys :: m[x]
  }

  lemma {:induction false} OlderTransitive<K(!new)>(less: (K, K) -> bool, stamps: map<K, nat>, a: K, b: K, c: K)
    requires StrictTotalOrder(less) && a in stamps && b in stamps && c in stamps
    requires Older(less, stamps, a, b) && Older(less, stamps, b, c)
    ensures Older(less, stamps, a, c)
  {}

  /** Removing the oldest member of a group that is over the bound does not change what survives. */
  lemma {:induction false} DropOldest<K(!new), G>(less: (K, K) -> bool, stamps: map<K, nat>, group: K -> G, n: nat,
    k: K)
    requires StrictTotalOrder(less) && k in stamps && IsOldest(less, stamps, Peers(stamps, group, group(k)), k)
    requires |Peers(stamps, group, group(k))| > n
    ensures Newest(less, Without(stamps, k), group, n) == Newest(less, stamps, group, n)
    ensures k !in Newest(less, stamps, group, n)
  {
    var rest := Without(stamps, k);
    assert NewerPeers(less, stamps, group, k) == Peers(stamps, group, group(k)) - {k};
    forall y | y in rest
      ensures NewerPeers(less, rest, group, y) == NewerPeers(less, stamps, group, y)
    {
      assert group(y) == group(k) ==> Older(less, stamps, k, y) && !Older(less, stamps, y, k);
    }
  }

  /** When no group is over the bound, everything survives. */
  lemma {:induction false} WithinBound<K(!new), G>(less: (K, K) -> bool, stamps: map<K, nat>, group: K -> G, n: nat)
    requires StrictTotalOrder(less)
    requires forall k :: k in stamps ==> |Peers(stamps, group, group(k))| <= n
    ensures Newest(less, stamps, group, n) == stamps.Keys
  {
    forall k | k in stamps
      ensures |NewerPeers(less, stamps, group, k)| < n
    {
      SubsetSize(NewerPeers(less, stamps, group, k) + {k}, Peers(stamps, group, group(k)));
    }
  }

  lemma {:induction false} SubsetSize<K>(a: set<K>, b: set<K>)
    requires a <= b
    ensures |a| <= |b|
    ensures |a| == |b| ==> a == b
  {
    assert b == a + (b - a) && a !! (b - a);
    assert |b| == |a| + |b - a|;
  }

  lemma {:induction false} OldestExists<K(!new)>(less: (K, K) -> bool, stamps: map<K, nat>, s: set<K>)
    returns (k: K)
    requires StrictTotalOrder(less) && s != {} && s <= stamps.Keys
    ensures IsOldest(less, stamps, s, k)
    decreases |s|
  {
    k :| k in s;
    if s != {k} {
      var other := OldestExists(less, stamps, s - {k});
      if Older(less, stamps, other, k) {
        k := other;
      } else {
        forall x | x in s && x != k && x != other ensures Older(less, stamps, k, x) {
          OlderTransitive(less, stamps, k, other, x);
        }
      }
    }
  }

  /**
    What `Newest` means: whoever survives is newer than every peer that does not, and each group keeps
    as many members as the bound allows.
   */
  lemma {:induction false} NewestIsTop<K(!new), G>(less: (K, K) -> bool, stamps: map<K, nat>, group: K -> G, n: nat)
    requires StrictTotalOrder(less)
    ensures forall kept, gone ::
      (kept in Newest(less, stamps, group, n) && gone in stamps.Keys - Newest(less, stamps, group, n)
      && group(kept) == group(gone)) ==> Older(less, stamps, gone, kept)
    ensures forall g :: |Peers(Restrict(stamps, Newest(less, stamps, group, n)), group, g)| ==
              Min(n, |Peers(stamps, group, g)|)
  {
    forall kept, gone | kept in Newest(less, stamps, group, n)
      && gone in stamps.Keys - Newest(less, stamps, group, n) && group(kept) == group(gone)
      ensures Older(less, stamps, gone, kept)
    {
      if !Older(less, stamps, gone, kept) {
        SubsetSize(NewerPeers(less, stamps, group, gone), NewerPeers(less, stamps, group, kept));
      }
    }
    forall g
      ensures |Peers(Restrict(stamps, Newest(less, stamps, group, n)), group, g)| == Min(n, |Peers(stamps, group, g)|)
    {
      NewestSize(less, stamps, group, n, g);
    }
  }

  lemma {:induction false} PeersAmong<K, G>(stamps: map<K, nat>, keys: set<K>, group: K -> G, g: G, k: K)
    requires k !in keys
    ensures Peers(Restrict(Without(stamps, k), keys), group, g) == Peers(Restrict(stamps, keys), group, g)
    ensures Peers(Without(stamps, k), group, g) == Peers(stamps, group, g) - {k}
  {}

  lemma {:induction false} AllPeersSurvive<K(!new), G>(less: (K, K) -> bool, stamps: map<K, nat>, group: K -> G,
    n: nat, g: G)
    requires StrictTotalOrder(less) && |Peers(stamps, group, g)| <= n
    ensures Peers(Restrict(stamps, Newest(less, stamps, group, n)), group, g) == Peers(stamps, group, g)
  {
    forall k | k in Peers(stamps, group, g)
      ensures |NewerPeers(less, stamps, group, k)| < n
    {
      SubsetSize(NewerPeers(less, stamps, group, k) + {k}, Peers(stamps, group, g));
    }
  }

  /** Each group keeps as many members as the bound allows. */
  lemma {:induction false} NewestSize<K(!new), G>(less: (K, K) -> bool, stamps: map<K, nat>, group: K -> G, n: nat,
    g: G)
    requires StrictTotalOrder(less)
    ensures |Peers(Restrict(stamps, Newest(less, stamps, group, n)), group, g)| == Min(n, |Peers(stamps, group, g)|)
    decreases |Peers(stamps, group, g)|
  {
    var peers := Peers(stamps, group, g);
    if |peers| <= n {
      AllPeersSurvive(less, stamps, group, n, g);
    } else {
      var k := OldestExists(less, stamps, peers);
      DropOldest(less, stamps, group, n, k);
      PeersAmong(stamps, Newest(less, stamps, group, n), group, g, k);
      NewestSize(less, Without(stamps, k), group, n, g);
    }
  }

  ghost function InGroup<K, G>(s: set<K>, group: K -> G, g: G): set<K> { set k | k in s && group(k) == g }

  /** Of a set that contains whatever is newer than its members, each group keeps as many as the bound allows. */
  lemma {:induction false} NewestOfUpper<K(!new), G>(less: (K, K) -> bool, stamps: map<K, nat>, group: K -> G,
    n: nat, upper: set<K>, g: G)
    requires StrictTotalOrder(less) && upper <= stamps.Keys
    requires forall x, y :: x in upper && y in stamps && Older(less, stamps, x, y) ==> y in upper
    ensures |InGroup(upper * Newest(less, stamps, group, n), group, g)| == Min(n, |InGroup(upper, group, g)|)
  {
    var part := Restrict(stamps, upper);
    forall k | k in part ensures NewerPeers(less, part, group, k) == NewerPeers(less, stamps, group, k) {}
    NewestSize(less, part, group, n, g);
    assert Peers(part, group, g) == InGroup(upper, group, g);
    assert Peers(Restrict(part, Newest(less, part, group, n)), group, g)
        == InGroup(upper * Newest(less, stamps, group, n), group, g);
  }

  /**
    The search for the minimum by (last use, key) among the candidates, in whatever order the hash map
    yields them.
   */
  method FindOldest<K(!new, ==)>(less: (K, K) -> bool, stamps: map<K, nat>, candidates: set<K>)
    returns (oldest: Option<K>)
    requires StrictTotalOrder(less) && candidates <= stamps.Keys
    ensures oldest.None? <==> candidates == {}
    ensures oldest.Some? ==> IsOldest(less, stamps, candidates, oldest.value)
  {
    oldest := None;
    var left := candidates;
    while left != {}
      invariant left <= candidates
      invariant oldest.None? <==> left == candidates
      invariant oldest.Some? ==> IsOldest(less, stamps, candidates - left, oldest.value)
      decreases |left|
    {
      var k :| k in left;
      left := left - {k};
      if oldest.None? || Older(less, stamps, k, oldest.value) {
        forall x | oldest.Some? && x in candidates - left && x != k && x != oldest.value
          ensures Older(less, stamps, k, x)
        {
          OlderTransitive(less, stamps, k, oldest.value, x);
        }
        oldest := Some(k);
      }
    }
  }

  // ----- tables whose entries record when they were last used -----

  function Stamps<K, V>(t: map<K, V>, stamp: V -> nat): map<K, nat> {
    map k | k in t :: stamp(t[k])
  }

  /** The `n` most recently used entries of a table. */
  ghost function MostRecent<K, V>(less: (K, K) -> bool, t: map<K, V>, stamp: V -> nat, n: nat): map<K, V> {
    Restrict(t, Newest(less, Stamps(t, stamp), Everyone, n))
  }

  ghost predicate IsLeastRecent<K, V>(less: (K, K) -> bool, t: map<K, V>, stamp: V -> nat, k: K) {
    IsOldest(less, Stamps(t, stamp), t.Keys, k)
  }

  lemma {:induction false} WithoutShrinks<K, V>(t: map<K, V>, k: K)
    requires k in t
    ensures |Without(t, k)| == |t| - 1
  {
    assert Without(t, k).Keys == t.Keys - {k};
  }

  lemma {:induction false} FewRemain<K(!new), V>(less: (K, K) -> bool, t: map<K, V>, stamp: V -> nat, n: nat)
    requires StrictTotalOrder(less) && |t| <= n
    ensures MostRecent(less, t, stamp, n) == t
  {
    assert Peers(Stamps(t, stamp), Everyone, ()) == t.Keys;
    WithinBound(less, Stamps(t, stamp), Everyone, n);
  }

  /** One step of the eviction loop leaves the outcome of the whole loop as it was. */
  lemma {:induction false} EvictOne<K(!new), V>(less: (K, K) -> bool, t: map<K, V>, stamp: V -> nat, n: nat, k: K)
    requires StrictTotalOrder(less) && k in t && IsLeastRecent(less, t, stamp, k) && |t| > n
    ensures MostRecent(less, Without(t, k), stamp, n) == MostRecent(less, t, stamp, n)
  {
    assert Stamps(Without(t, k), stamp) == Without(Stamps(t, stamp), k);
    assert Peers(Stamps(t, stamp), Everyone, ()) == t.Keys;
    DropOldest(less, Stamps(t, stamp), Everyone, n, k);
  }

  lemma {:induction false} MostRecentSize<K(!new), V>(less: (K, K) -> bool, t: map<K, V>, stamp: V -> nat, n: nat)
    requires StrictTotalOrder(less)
    ensures |MostRecent(less, t, stamp, n)| == Min(n, |t|)
  {
    var stamps := Stamps(t, stamp);
    NewestSize(less, stamps, Everyone, n, ());
    assert Peers(stamps, Everyone, ()) == t.Keys;
    assert Peers(Restrict(stamps, Newest(less, stamps, Everyone, n)), Everyone, ()) ==
      MostRecent(less, t, stamp, n).Keys;
  }

  /** A table that is at most one over the bound loses at most its least recent entry. */
  lemma {:induction false} LeastRecentGoes<K(!new), V>(less: (K, K) -> bool, t: map<K, V>, stamp: V -> nat, n: nat)
    returns (least: Option<K>)
    requires StrictTotalOrder(less) && |t| <= n + 1
    ensures if |t| <= n then MostRecent(less, t, stamp, n) == t
            else least.Some? && least.value in t && IsLeastRecent(less, t, stamp, least.value)
                 && MostRecent(less, t, stamp, n) == Without(t, least.value)
  {
    least := None;
    if |t| <= n {
      FewRemain(less, t, stamp, n);
    } else {
      var k := OldestExists(less, Stamps(t, stamp), t.Keys);
      EvictOne(less, t, stamp, n, k);
      WithoutShrinks(t, k);
      FewRemain(less, Without(t, k), stamp, n);
      least := Some(k);
    }
  }

  method FindLeastRecent<K(!new, ==), V>(less: (K, K) -> bool, t: map<K, V>, stamp: V -> nat) returns (least: Option<K>)
    requires StrictTotalOrder(less)
    ensures least.None? <==> t == map[]
    ensures least.Some? ==> least.value in t && IsLeastRecent(less, t, stamp, least.value)
  {
    assert t.Keys == {} <==> t == map[];
    least := FindOldest(less, Stamps(t, stamp), t.Keys);
  }
}
