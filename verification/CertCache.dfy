/** The certificate cache of src/cert_cache.rs: expiry, LRU, a cap per provider and a global cap. */
module CertCache {
  import opened Common
  import opened Lru
  import opened Text

  datatype ProviderFamily = Google | Meta | Fastly | Generic {
    function Rank(): nat {
      match this
      case Google => 0
      case Meta => 1
      case Fastly => 2
      case Generic => 3
    }
  }

  datatype CertAlg = EcdsaP256 | Rsa2048

  datatype Key = Key(sanGroup: string, family: ProviderFamily, alg: CertAlg)

  datatype Entry = Entry(certDer: seq<Byte>, keyId: string, createdMs: U64, lastUsedMs: U64, expiresAtMs: U64,
    hits: U64)

  datatype NegativeEntry = NegativeEntry(reason: string, expiresAtMs: U64)

  /** What the cache holds. */
  datatype Table = Table(entries: map<Key, Entry>, negative: map<string, NegativeEntry>)

  /** The derived `Ord` of the key: field by field, enum constructors in order of declaration. */
  predicate KeyLess(a: Key, b: Key) {
    || SeqLess(CharLess, a.sanGroup, b.sanGroup)
    || (a.sanGroup == b.sanGroup && a.family.Rank() < b.family.Rank())
    || (a.sanGroup == b.sanGroup && a.family == b.family && a.alg.EcdsaP256? && b.alg.Rsa2048?)
  }

  ghost function OfFamily(keys: set<Key>, p: ProviderFamily): set<Key> {
    set k | k in keys && k.family == p
  }

  function CountOf(counts: map<ProviderFamily, nat>, p: ProviderFamily): nat {
    if p in counts then counts[p] else 0
  }

  lemma {:induction false} OneMoreOfFamily(done: set<Key>, key: Key)
    requires key !in done
    ensures forall p :: |OfFamily(done + {key}, p)| == |OfFamily(done, p)| + (if p == key.family then 1 else 0)
  {
    forall p
      ensures |OfFamily(done + {key}, p)| == |OfFamily(done, p)| + (if p == key.family then 1 else 0)
    {
      assert OfFamily(done + {key}, p) == OfFamily(done, p) + (if p == key.family then {key} else {});
    }
  }

  lemma {:induction false} KeyOrder()
    ensures StrictTotalOrder(KeyLess)
  {
    assert StrictTotalOrder(CharLess);
    forall a: Key ensures !KeyLess(a, a) {
      SeqLessIrreflexive(CharLess, a.sanGroup);
    }
    forall a: Key, b: Key | a != b ensures KeyLess(a, b) || KeyLess(b, a) {
      if a.sanGroup != b.sanGroup { SeqLessConnected(CharLess, a.sanGroup, b.sanGroup); }
    }
    forall a, b, c | KeyLess(a, b) && KeyLess(b, c) ensures KeyLess(a, c) {
      if SeqLess(CharLess, a.sanGroup, b.sanGroup) && SeqLess(CharLess, b.sanGroup, c.sanGroup) {
        SeqLessTransitive(CharLess, a.sanGroup, b.sanGroup, c.sanGroup);
      }
    }
  }

  /** Keys of one group: Google, Meta, Fastly, Generic, and then ECDSA before RSA. */
  lemma {:induction false} KeysOfOneGroup(g: string, a: CertAlg, b: CertAlg, p: ProviderFamily)
    ensures KeyLess(Key(g, Google, a), Key(g, Meta, b))
    ensures KeyLess(Key(g, Meta, a), Key(g, Fastly, b))
    ensures KeyLess(Key(g, Fastly, a), Key(g, Generic, b))
    ensures KeyLess(Key(g, p, EcdsaP256), Key(g, p, Rsa2048))
  {}

  /** Keys of two groups: the first character in which the groups differ decides, or the shorter group comes first. */
  lemma {:induction false} KeysOfTwoGroups(k: Key, l: Key, p: string, x: char, y: char, u: string, v: string)
    ensures x != y && k.sanGroup == p + [x] + u && l.sanGroup == p + [y] + v ==> (KeyLess(k, l) <==> x < y)
    ensures u != [] && k.sanGroup == p && l.sanGroup == p + u ==> KeyLess(k, l)
  {
    assert StrictTotalOrder(CharLess);
    if x != y && k.sanGroup == p + [x] + u && l.sanGroup == p + [y] + v {
      FirstDifference(CharLess, p, x, y, u, v);
      assert k.sanGroup[|p|] == x && l.sanGroup[|p|] == y;
    }
    if u != [] { PrefixIsLess(CharLess, p, u); }
  }

  function Family(k: Key): ProviderFamily { k.family }

  function LastUsed(e: Entry): nat { e.lastUsedMs }

  function Unexpired(entries: map<Key, Entry>, now: U64): map<Key, Entry> {
    map k | k in entries && entries[k].expiresAtMs > now :: entries[k]
  }

  function UnexpiredNegative(negative: map<string, NegativeEntry>, now: U64): map<string, NegativeEntry> {
    map d | d in negative && negative[d].expiresAtMs > now :: negative[d]
  }

  /** Each provider's `cap` newest entries; a cap of zero means no cap. */
  ghost function CutPerProvider(entries: map<Key, Entry>, cap: nat): map<Key, Entry> {
    if cap == 0 then entries else Restrict(entries, Newest(KeyLess, Stamps(entries, LastUsed), Family, cap))
  }

  /** The `cap` newest entries of all. */
  ghost function CutOverall(entries: map<Key, Entry>, cap: nat): map<Key, Entry> {
    MostRecent(KeyLess, entries, LastUsed, cap)
  }

  ghost predicate WithinProviderCap(entries: map<Key, Entry>, cap: nat) {
    cap == 0 || forall p :: |Peers(Stamps(entries, LastUsed), Family, p)| <= cap
  }

  /** What an insertion stores under its key. */
  function FreshEntry(certDer: seq<Byte>, keyId: string, now: U64, ttl: U64): Entry {
    Entry(certDer, keyId, now, now, SaturatingAdd(now, ttl), 1)
  }

  ghost function AfterInsert(maxEntries: nat, providerCap: nat, t: Table, key: Key, e: Entry, now: U64): Table {
    Table(CutOverall(CutPerProvider(Unexpired(t.entries[key := e], now), providerCap), maxEntries),
          UnexpiredNegative(t.negative, now))
  }

  /** What a lookup answers: the entry, touched, unless it is absent or expired. */
  function Lookup(t: Table, key: Key, now: U64): Option<Entry> {
    if key in t.entries && t.entries[key].expiresAtMs > now
    then Some(t.entries[key].(lastUsedMs := now, hits := SaturatingAdd(t.entries[key].hits, 1)))
    else None
  }

  function AfterGet(t: Table, key: Key, now: U64): Table {
    t.(entries := match Lookup(t, key, now)
                  case Some(e) => t.entries[key := e]
                  case None => Without(t.entries, key))
  }

  function AfterMarkDenied(t: Table, domain: string, reason: string, now: U64, ttl: U64): Table {
    t.(negative := t.negative[AsciiLower(domain) := NegativeEntry(reason, SaturatingAdd(now, ttl))])
  }

  function LookupDenied(t: Table, domain: string, now: U64): Option<string> {
    var d := AsciiLower(domain);
    if d in t.negative && t.negative[d].expiresAtMs > now then Some(t.negative[d].reason) else None
  }

  function AfterDeniedReason(t: Table, domain: string, now: U64): Table {
    if LookupDenied(t, domain, now).Some? then t else t.(negative := Without(t.negative, AsciiLower(domain)))
  }

  /** Removing an entry removes its stamp. */
  lemma {:induction false} WithoutStamp(entries: map<Key, Entry>, k: Key)
    ensures Stamps(Without(entries, k), LastUsed) == Without(Stamps(entries, LastUsed), k)
  {}

  class CertCache {
    const maxEntries: nat
    const maxEntriesPerProvider: nat
    var entries: map<Key, Entry>
    var negative: map<string, NegativeEntry>

    constructor (maxEntries: nat, maxEntriesPerProvider: nat)
      ensures this.maxEntries == maxEntries && this.maxEntriesPerProvider == maxEntriesPerProvider
      ensures Contents() == Table(map[], map[])
    {
      this.maxEntries := maxEntries;
      this.maxEntriesPerProvider := maxEntriesPerProvider;
      entries := map[];
      negative := map[];
    }

    ghost function Contents(): Table
      reads this
    {
      Table(entries, negative)
    }

    method Get(key: Key, now: U64) returns (r: Option<Entry>)
      modifies this
      ensures r == Lookup(old(Contents()), key, now)
      ensures Contents() == AfterGet(old(Contents()), key, now)
    {
      if key !in entries {
        assert Without(entries, key) == entries;
        return None;
      }
      var entry := entries[key];
      if entry.expiresAtMs <= now {
        entries := Without(entries, key);
        return None;
      }
      entry := entry.(lastUsedMs := now);
      entry := entry.(hits := SaturatingAdd(entry.hits, 1));
      entries := entries[key := entry];
      r := Some(entry);
    }

    /**
      The new table is exactly: the unexpired entries, cut per provider to the newest ones when there is
      a provider cap, then cut to the newest ones overall. It does not depend on which over-cap provider
      each pass picks.
     */
    method Insert(key: Key, certDer: seq<Byte>, keyId: string, now: U64, ttl: U64)
      modifies this
      ensures Contents() == AfterInsert(maxEntries, maxEntriesPerProvider, old(Contents()), key,
                                        FreshEntry(certDer, keyId, now, ttl), now)
      ensures |entries| <= maxEntries
      ensures WithinProviderCap(entries, maxEntriesPerProvider)
    {
      var expiresAtMs := SaturatingAdd(now, ttl);
      entries := entries[key := Entry(certDer, keyId, now, now, expiresAtMs, 1)];
      EvictExpired(now);
      EvictForProviderCap();
      ghost var capped := entries;
      EvictForGlobalCap();
      SubtableWithinCap(entries, capped, maxEntriesPerProvider);
    }

    method EvictExpired(now: U64)
      modifies this
      ensures Contents() == Table(Unexpired(old(entries), now), UnexpiredNegative(old(negative), now))
    {
      entries := map k | k in entries && entries[k].expiresAtMs > now :: entries[k];
      negative := map d | d in negative && negative[d].expiresAtMs > now :: negative[d];
    }

    method EvictForProviderCap()
      modifies this
      ensures Contents() == old(Contents()).(entries := CutPerProvider(old(entries), maxEntriesPerProvider))
      ensures WithinProviderCap(entries, maxEntriesPerProvider)
    {
      if maxEntriesPerProvider == 0 { return; }
      while true
        invariant negative == old(negative)
        invariant CutPerProvider(entries, maxEntriesPerProvider) == CutPerProvider(old(entries), maxEntriesPerProvider)
        decreases |entries|
      {
        var overProvider := FindProviderOverCap();
        if overProvider.None? { break; }
        var oldestKey := FindOldestForProvider(overProvider.value);
        if oldestKey.None? { break; }
        RemoveOverCap(entries, maxEntriesPerProvider, oldestKey.value);
        WithoutShrinks(entries, oldestKey.value);
        entries := Without(entries, oldestKey.value);
      }
      assert CutPerProvider(entries, maxEntriesPerProvider) == entries by {
        KeyOrder();
        WithinBound(KeyLess, Stamps(entries, LastUsed), Family, maxEntriesPerProvider);
      }
    }

    method EvictForGlobalCap()
      modifies this
      ensures Contents() == old(Contents()).(entries := CutOverall(old(entries), maxEntries))
      ensures |entries| <= maxEntries
    {
      while |entries| > maxEntries
        invariant negative == old(negative)
        invariant CutOverall(entries, maxEntries) == CutOverall(old(entries), maxEntries)
        decreases |entries|
      {
        var oldestKey := FindOldestKey();
        if oldestKey.None? { break; }
        assert CutOverall(Without(entries, oldestKey.value), maxEntries) == CutOverall(entries, maxEntries) by {
          KeyOrder();
          EvictOne(KeyLess, entries, LastUsed, maxEntries, oldestKey.value);
        }
        WithoutShrinks(entries, oldestKey.value);
        entries := Without(entries, oldestKey.value);
      }
      assert CutOverall(entries, maxEntries) == entries by {
        KeyOrder();
        FewRemain(KeyLess, entries, LastUsed, maxEntries);
      }
    }

    /** Counts the keys of each provider and yields any provider whose count is over the cap. */
    method FindProviderOverCap() returns (r: Option<ProviderFamily>)
      ensures r.Some? ==> |Peers(Stamps(entries, LastUsed), Family, r.value)| > maxEntriesPerProvider
      ensures r.None? ==> forall p :: |Peers(Stamps(entries, LastUsed), Family, p)| <= maxEntriesPerProvider
    {
      var counts: map<ProviderFamily, nat> := map[];
      var left := entries.Keys;
      ghost var stamps := Stamps(entries, LastUsed);
      ghost var done: set<Key> := {};
      while left != {}
        invariant done + left == entries.Keys && done !! left
        invariant forall p :: CountOf(counts, p) == |OfFamily(done, p)|
        decreases |left|
      {
        var key :| key in left;
        OneMoreOfFamily(done, key);
        left, done := left - {key}, done + {key};
        counts := counts[key.family := CountOf(counts, key.family) + 1];
      }
      assert done == entries.Keys;
      assert forall p :: Peers(stamps, Family, p) == OfFamily(done, p);
      if p :| p in counts && counts[p] > maxEntriesPerProvider {
        r := Some(p);
      } else {
        r := None;
      }
    }

    method FindOldestForProvider(p: ProviderFamily) returns (r: Option<Key>)
      ensures r.None? <==> Peers(Stamps(entries, LastUsed), Family, p) == {}
      ensures r.Some? ==> IsOldest(KeyLess, Stamps(entries, LastUsed), Peers(Stamps(entries, LastUsed), Family, p),
                r.value)
    {
      KeyOrder();
      var candidates := set k | k in entries && k.family == p;
      assert candidates == Peers(Stamps(entries, LastUsed), Family, p);
      r := FindOldest(KeyLess, Stamps(entries, LastUsed), candidates);
    }

    method FindOldestKey() returns (r: Option<Key>)
      ensures r.None? <==> entries == map[]
      ensures r.Some? ==> r.value in entries && IsLeastRecent(KeyLess, entries, LastUsed, r.value)
    {
      KeyOrder();
      r := FindLeastRecent(KeyLess, entries, LastUsed);
    }

    method MarkDenied(domain: string, reason: string, now: U64, ttl: U64)
      modifies this
      ensures Contents() == AfterMarkDenied(old(Contents()), domain, reason, now, ttl)
    {
      negative := negative[AsciiLower(domain) := NegativeEntry(reason, SaturatingAdd(now, ttl))];
    }

    method DeniedReason(domain: string, now: U64) returns (r: Option<string>)
      modifies this
      ensures r == LookupDenied(old(Contents()), domain, now)
      ensures Contents() == AfterDeniedReason(old(Contents()), domain, now)
    {
      var key := AsciiLower(domain);
      if key !in negative {
        assert Without(negative, key) == negative;
        return None;
      }
      if negative[key].expiresAtMs > now { return Some(negative[key].reason); }
      negative := Without(negative, key);
      r := None;
    }
  }

  lemma {:induction false} SubtableWithinCap(part: map<Key, Entry>, whole: map<Key, Entry>, cap: nat)
    requires part.Keys <= whole.Keys && WithinProviderCap(whole, cap)
    ensures WithinProviderCap(part, cap)
  {
    forall p ensures |Peers(Stamps(part, LastUsed), Family, p)| <= |Peers(Stamps(whole, LastUsed), Family, p)| {
      SubsetSize(Peers(Stamps(part, LastUsed), Family, p), Peers(Stamps(whole, LastUsed), Family, p));
    }
  }

  /** One step of the provider loop leaves the outcome of the whole loop as it was. */
  lemma {:induction false} RemoveOverCap(entries: map<Key, Entry>, cap: nat, k: Key)
    requires cap > 0 && k in entries
    requires IsOldest(KeyLess, Stamps(entries, LastUsed), Peers(Stamps(entries, LastUsed), Family, k.family), k)
    requires |Peers(Stamps(entries, LastUsed), Family, k.family)| > cap
    ensures CutPerProvider(Without(entries, k), cap) == CutPerProvider(entries, cap)
  {
    KeyOrder();
    WithoutStamp(entries, k);
    DropOldest(KeyLess, Stamps(entries, LastUsed), Family, cap, k);
  }
}
