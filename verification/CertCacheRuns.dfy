/** What holds of the certificate cache over every sequence of calls. */
module CertCacheRuns {
  import opened Common
  import opened Lru
  import opened Text
  import opened CertCache

  datatype Op =
    | Insert(key: Key, certDer: seq<Byte>, keyId: string, now: U64, ttl: U64)
    | Get(key: Key, now: U64)
    | MarkDenied(domain: string, reason: string, now: U64, ttl: U64)
    | DeniedReason(domain: string, now: U64)

  datatype Config = Config(maxEntries: nat, providerCap: nat)

  ghost function Step(c: Config, t: Table, op: Op): Table {
    match op
    case Insert(key, certDer, keyId, now, ttl) =>
      AfterInsert(c.maxEntries, c.providerCap, t, key, FreshEntry(certDer, keyId, now, ttl), now)
    case Get(key, now) => AfterGet(t, key, now)
    case MarkDenied(domain, reason, now, ttl) => AfterMarkDenied(t, domain, reason, now, ttl)
    case DeniedReason(domain, now) => AfterDeniedReason(t, domain, now)
  }

  /** The table after a sequence of calls on a new cache. */
  ghost function Run(c: Config, ops: seq<Op>): Table {
    if ops == [] then Table(map[], map[]) else Step(c, Run(c, Earlier(ops)), Latest(ops))
  }

  /** The latest insertion under a key. */
  function LatestInsert(ops: seq<Op>, k: Key): Option<Op> {
    if ops == [] then None
    else if Latest(ops).Insert? && Latest(ops).key == k then Some(Latest(ops))
    else LatestInsert(Earlier(ops), k)
  }

  /** The number of lookups of a key that hit since its latest insertion. */
  ghost function HitsSince(c: Config, ops: seq<Op>, k: Key): nat {
    if ops == [] || (Latest(ops).Insert? && Latest(ops).key == k) then 0
    else if Latest(ops).Get? && Latest(ops).key == k && Lookup(Run(c, Earlier(ops)), k, Latest(ops).now).Some?
    then HitsSince(c, Earlier(ops), k) + 1
    else HitsSince(c, Earlier(ops), k)
  }

  function InsertedKeys(ops: seq<Op>): set<Key> {
    set op | op in ops && op.Insert? :: op.key
  }

  /** The latest denial recorded for a domain, whatever its letter case. */
  function LatestDenial(ops: seq<Op>, domain: string): Option<Op> {
    if ops == [] then None
    else if Latest(ops).MarkDenied? && AsciiLower(Latest(ops).domain) == AsciiLower(domain) then Some(Latest(ops))
    else LatestDenial(Earlier(ops), domain)
  }

  lemma {:induction false} LatestInsertIsInsert(ops: seq<Op>, k: Key)
    ensures LatestInsert(ops, k).Some? ==> LatestInsert(ops, k).value.Insert?
  {
    if ops != [] { LatestInsertIsInsert(Earlier(ops), k); }
  }

  lemma {:induction false} LatestDenialIsDenial(ops: seq<Op>, domain: string)
    ensures LatestDenial(ops, domain).Some? ==> LatestDenial(ops, domain).value.MarkDenied?
  {
    if ops != [] { LatestDenialIsDenial(Earlier(ops), domain); }
  }

  /** The entry under a key that was inserted by `ins` and has since been hit `hits` times. */
  ghost predicate Accounts(e: Entry, ins: Op, hits: nat)
    requires ins.Insert?
  {
    && e.certDer == ins.certDer && e.keyId == ins.keyId
    && e.createdMs == ins.now && e.expiresAtMs == SaturatingAdd(ins.now, ins.ttl)
    && e.hits == Min(1 + hits, U64_MAX)
  }

  lemma {:induction false} StoredEntryAccounts(c: Config, ops: seq<Op>, k: Key)
    requires k in Run(c, ops).entries
    ensures LatestInsert(ops, k).Some? && LatestInsert(ops, k).value.Insert?
    ensures Accounts(Run(c, ops).entries[k], LatestInsert(ops, k).value, HitsSince(c, ops, k))
  {
    LatestInsertIsInsert(ops, k);
    var last := Latest(ops);
    if !(last.Insert? && last.key == k) {
      StoredEntryAccounts(c, Earlier(ops), k);
    }
  }

  /**
    Every hit carries what the latest insertion under its key stored, is not expired, and counts one
    for the insertion and one for each hit since then, itself included, saturating.
   */
  lemma {:induction false} HitIsFaithful(c: Config, ops: seq<Op>, k: Key, now: U64)
    requires Lookup(Run(c, ops), k, now).Some?
    ensures LatestInsert(ops, k).Some? && LatestInsert(ops, k).value.Insert?
    ensures Accounts(Lookup(Run(c, ops), k, now).value, LatestInsert(ops, k).value,
              HitsSince(c, ops + [Get(k, now)], k))
    ensures Lookup(Run(c, ops), k, now).value.expiresAtMs > now
    ensures Lookup(Run(c, ops), k, now).value.lastUsedMs == now
  {
    StoredEntryAccounts(c, ops, k);
    assert Earlier(ops + [Get(k, now)]) == ops;
  }

  /** The caps are never exceeded after an insertion, and no other call adds an entry. */
  lemma {:induction false} SizeBound(c: Config, ops: seq<Op>)
    ensures |Run(c, ops).entries| <= c.maxEntries
    ensures WithinProviderCap(Run(c, ops).entries, c.providerCap)
  {
    if ops == [] {
      assert forall p :: Peers(Stamps(map[], LastUsed), Family, p) == {};
    } else {
      var t := Run(c, Earlier(ops));
      SizeBound(c, Earlier(ops));
      match Latest(ops) {
        case Insert(key, certDer, keyId, now, ttl) =>
          var live := Unexpired(t.entries[key := FreshEntry(certDer, keyId, now, ttl)], now);
          var capped := CutPerProvider(live, c.providerCap);
          CutPerProviderSize(live, c.providerCap);
          assert |CutOverall(capped, c.maxEntries)| <= c.maxEntries by {
            KeyOrder();
            MostRecentSize(KeyLess, capped, LastUsed, c.maxEntries);
          }
          SubtableWithinCap(CutOverall(capped, c.maxEntries), capped, c.providerCap);
        case Get(key, now) =>
          SubtableSize(AfterGet(t, key, now).entries, t.entries);
          SubtableWithinCap(AfterGet(t, key, now).entries, t.entries, c.providerCap);
        case _ =>
      }
    }
  }

  lemma {:induction false} SubtableSize(part: map<Key, Entry>, whole: map<Key, Entry>)
    requires part.Keys <= whole.Keys
    ensures |part| <= |whole|
  {
    SubsetSize(part.Keys, whole.Keys);
  }

  lemma {:induction false} CutPerProviderSize(live: map<Key, Entry>, cap: nat)
    ensures WithinProviderCap(CutPerProvider(live, cap), cap)
  {
    KeyOrder();
    var capped := CutPerProvider(live, cap);
    if cap > 0 {
      assert Stamps(capped, LastUsed) ==
        Restrict(Stamps(live, LastUsed), Newest(KeyLess, Stamps(live, LastUsed), Family, cap));
      forall p ensures |Peers(Stamps(capped, LastUsed), Family, p)| <= cap {
        NewestSize(KeyLess, Stamps(live, LastUsed), Family, cap, p);
      }
    }
  }

  // ----- the entry just inserted -----

  /**
    The unexpired entries that an insertion under `key` now is not newer than: used later, or now and with a
    greater key.
   */
  ghost function Rivals(entries: map<Key, Entry>, key: Key, now: U64): set<Key> {
    set k | k in entries && entries[k].expiresAtMs > now && k != key
            && (entries[k].lastUsedMs > now || (entries[k].lastUsedMs == now && KeyLess(key, k)))
  }

  /** How many of them the provider cap leaves. */
  ghost function Remaining(rivals: set<Key>, cap: nat): nat {
    if cap == 0 then |rivals|
    else
      Min(cap, |OfFamily(rivals, Google)|) + Min(cap, |OfFamily(rivals, Meta)|)
      + Min(cap, |OfFamily(rivals, Fastly)|) + Min(cap, |OfFamily(rivals, Generic)|)
  }

  lemma {:induction false} FamilySizes(s: set<Key>)
    ensures |s| == |OfFamily(s, Google)| + |OfFamily(s, Meta)| + |OfFamily(s, Fastly)| + |OfFamily(s, Generic)|
  {
    var gm, fg := OfFamily(s, Google) + OfFamily(s, Meta), OfFamily(s, Fastly) + OfFamily(s, Generic);
    assert s == gm + fg && gm !! fg;
    assert |gm| == |OfFamily(s, Google)| + |OfFamily(s, Meta)|;
    assert |fg| == |OfFamily(s, Fastly)| + |OfFamily(s, Generic)|;
  }

  /** In a table that holds an entry used now under `key`, the keys newer than it. */
  ghost function Newer(entries: map<Key, Entry>, key: Key, now: U64): set<Key> {
    set k | k in entries && (entries[k].lastUsedMs > now || (entries[k].lastUsedMs == now && KeyLess(key, k)))
  }

  lemma {:induction false} NewestOfFamily(entries: map<Key, Entry>, key: Key, now: U64, cap: nat)
    requires key in entries && entries[key].lastUsedMs == now && cap > 0
    ensures key in CutPerProvider(entries, cap) <==> |OfFamily(Newer(entries, key, now), key.family)| < cap
  {
    assert NewerPeers(KeyLess, Stamps(entries, LastUsed), Family, key) ==
      OfFamily(Newer(entries, key, now), key.family);
  }

  lemma {:induction false} NewestOverall(entries: map<Key, Entry>, key: Key, now: U64, cap: nat)
    requires key in entries && entries[key].lastUsedMs == now
    ensures key in CutOverall(entries, cap) <==> |Newer(entries, key, now)| < cap
  {
    assert NewerPeers(KeyLess, Stamps(entries, LastUsed), Everyone, key) == Newer(entries, key, now);
  }

  lemma {:induction false} NewerAfterCut(entries: map<Key, Entry>, key: Key, now: U64, cap: nat, p: ProviderFamily)
    requires key in entries && entries[key].lastUsedMs == now && cap > 0
    ensures |OfFamily(Newer(CutPerProvider(entries, cap), key, now), p)| ==
              Min(cap, |OfFamily(Newer(entries, key, now), p)|)
  {
    var stamps, newer := Stamps(entries, LastUsed), Newer(entries, key, now);
    var kept := newer * Newest(KeyLess, stamps, Family, cap);
    NewerAreUpper(entries, key, now);
    KeyOrder();
    NewestOfUpper(KeyLess, stamps, Family, cap, newer, p);
    assert OfFamily(newer, p) == InGroup(newer, Family, p);
    assert Newer(CutPerProvider(entries, cap), key, now) == kept;
    assert OfFamily(kept, p) == InGroup(kept, Family, p);
  }

  lemma {:induction false} NewerAreUpper(entries: map<Key, Entry>, key: Key, now: U64)
    requires key in entries && entries[key].lastUsedMs == now
    ensures var stamps, newer := Stamps(entries, LastUsed), Newer(entries, key, now);
            newer <= stamps.Keys &&
              forall x, y :: x in newer && y in stamps && Older(KeyLess, stamps, x, y) ==> y in newer
  {
    KeyOrder();
    var stamps, newer := Stamps(entries, LastUsed), Newer(entries, key, now);
    forall x, y | x in newer && y in stamps && Older(KeyLess, stamps, x, y) ensures y in newer {
      OlderTransitive(KeyLess, stamps, key, x, y);
    }
  }

  /** How many entries newer than `key` the provider cap leaves. */
  lemma {:induction false} NewerRemaining(entries: map<Key, Entry>, key: Key, now: U64, cap: nat)
    requires key in entries && entries[key].lastUsedMs == now
    ensures |Newer(CutPerProvider(entries, cap), key, now)| == Remaining(Newer(entries, key, now), cap)
  {
    if cap > 0 {
      FamilySizes(Newer(CutPerProvider(entries, cap), key, now));
      NewerAfterCut(entries, key, now, cap, Google);
      NewerAfterCut(entries, key, now, cap, Meta);
      NewerAfterCut(entries, key, now, cap, Fastly);
      NewerAfterCut(entries, key, now, cap, Generic);
    }
  }

  /**
    An insertion keeps its own entry exactly when it does not expire at once, its provider has fewer rivals
    than the provider cap, and all providers together, each counted up to that cap, have fewer than the
    global cap. Otherwise it is the entry just inserted that is evicted.
   */
  lemma {:induction false} FreshEntrySurvives(c: Config, t: Table, key: Key, certDer: seq<Byte>, keyId: string,
    now: U64, ttl: U64)
    ensures var rivals := Rivals(t.entries, key, now);
            key in Step(c, t, Insert(key, certDer, keyId, now, ttl)).entries <==>
              SaturatingAdd(now, ttl) > now
              && (c.providerCap == 0 || |OfFamily(rivals, key.family)| < c.providerCap)
              && Remaining(rivals, c.providerCap) < c.maxEntries
  {
    var live := Unexpired(t.entries[key := FreshEntry(certDer, keyId, now, ttl)], now);
    var capped := CutPerProvider(live, c.providerCap);
    if key in live {
      KeyIrreflexive(key);
      assert Newer(live, key, now) == Rivals(t.entries, key, now);
      if c.providerCap > 0 { NewestOfFamily(live, key, now, c.providerCap); }
      if key in capped { NewestOverall(capped, key, now, c.maxEntries); }
      NewerRemaining(live, key, now, c.providerCap);
    }
  }

  lemma {:induction false} KeyIrreflexive(key: Key)
    ensures !KeyLess(key, key)
  {
    KeyOrder();
  }

  /**
    Two insertions at one millisecond with room for one entry: the cache keeps the older call's, whose key is
    greater.
   */
  lemma {:induction false} NewestIsLost(certDer: seq<Byte>, keyId: string)
    ensures var first, second := Key("b", Google, EcdsaP256), Key("a", Google, EcdsaP256);
            var entries := Run(Config(1, 0), [Insert(first, certDer, keyId, 0, 1),
              Insert(second, certDer, keyId, 0, 1)]).entries;
            first in entries && second !in entries
  {
    var c, first, second := Config(1, 0), Key("b", Google, EcdsaP256), Key("a", Google, EcdsaP256);
    var op1, op2 := Insert(first, certDer, keyId, 0, 1), Insert(second, certDer, keyId, 0, 1);
    var t1 := Run(c, [op1]);
    assert Earlier([op1, op2]) == [op1] && Latest([op1, op2]) == op2;
    FirstInsert(c, op1);
    assert KeyLess(second, first);
    FreshEntrySurvives(c, t1, second, certDer, keyId, 0, 1);
    assert Rivals(t1.entries, second, 0) == {first};
    LastOneStays(t1, op2, first);
  }

  /** A new cache with room for an entry keeps the first. */
  lemma {:induction false} FirstInsert(c: Config, op: Op)
    requires op.Insert? && c.maxEntries > 0 && SaturatingAdd(op.now, op.ttl) > op.now
    ensures Run(c, [op]).entries == map[op.key := FreshEntry(op.certDer, op.keyId, op.now, op.ttl)]
  {
    assert Earlier([op]) == [] && Latest([op]) == op;
    assert Rivals(map[], op.key, op.now) == {};
    FreshEntrySurvives(c, Run(c, []), op.key, op.certDer, op.keyId, op.now, op.ttl);
    assert Run(c, [op]).entries.Keys == {op.key};
  }

  /** With room for one entry and two unexpired ones, whichever is not lost stays. */
  lemma {:induction false} LastOneStays(t: Table, op: Op, k: Key)
    requires op.Insert? && op.key != k && t.entries.Keys == {k} && t.entries[k].expiresAtMs > op.now
    requires op.key !in Step(Config(1, 0), t, op).entries
    ensures k in Step(Config(1, 0), t, op).entries
  {
    KeyOrder();
    var live := Unexpired(t.entries[op.key := FreshEntry(op.certDer, op.keyId, op.now, op.ttl)], op.now);
    assert k in live && live.Keys <= {k, op.key};
    MostRecentSize(KeyLess, live, LastUsed, 1);
    var kept := CutOverall(live, 1);
    assert |kept.Keys| == 1 && kept.Keys <= {k};
  }

  /** All the keys together respect both caps, so that nothing is ever evicted before it expires. */
  ghost predicate Roomy(c: Config, keys: set<Key>) {
    |keys| <= c.maxEntries && (c.providerCap == 0 || forall p :: |OfFamily(keys, p)| <= c.providerCap)
  }

  lemma {:induction false} RoomyProviders(live: map<Key, Entry>, keys: set<Key>, cap: nat)
    requires live.Keys <= keys && (cap == 0 || forall p :: |OfFamily(keys, p)| <= cap)
    ensures CutPerProvider(live, cap) == live
  {
    KeyOrder();
    if cap > 0 {
      forall k | k in live ensures |Peers(Stamps(live, LastUsed), Family, Family(k))| <= cap {
        SubsetSize(Peers(Stamps(live, LastUsed), Family, Family(k)), OfFamily(keys, Family(k)));
      }
      WithinBound(KeyLess, Stamps(live, LastUsed), Family, cap);
    }
  }

  lemma {:induction false} StepKeys(c: Config, t: Table, op: Op)
    ensures Step(c, t, op).entries.Keys <= t.entries.Keys + (if op.Insert? then {op.key} else {})
  {}

  lemma {:induction false} OnlyInsertedKeys(c: Config, ops: seq<Op>)
    ensures Run(c, ops).entries.Keys <= InsertedKeys(ops)
  {
    if ops != [] {
      OnlyInsertedKeys(c, Earlier(ops));
      StepKeys(c, Run(c, Earlier(ops)), Latest(ops));
      assert InsertedKeys(Earlier(ops)) <= InsertedKeys(ops);
      assert Latest(ops) in ops;
    }
  }

  ghost predicate ClockUpTo(ops: seq<Op>, t: U64) {
    forall i :: 0 <= i < |ops| ==> ops[i].now <= t
  }

  /** An insertion evicts nothing that has not expired when all keys fit. */
  lemma {:induction false} RoomyInsert(c: Config, t: Table, op: Op, keys: set<Key>)
    requires op.Insert? && Roomy(c, keys) && t.entries.Keys + {op.key} <= keys
    ensures Step(c, t, op).entries ==
            Unexpired(t.entries[op.key := FreshEntry(op.certDer, op.keyId, op.now, op.ttl)], op.now)
  {
    var live := Unexpired(t.entries[op.key := FreshEntry(op.certDer, op.keyId, op.now, op.ttl)], op.now);
    RoomyProviders(live, keys, c.providerCap);
    KeyOrder();
    SubsetSize(live.Keys, keys);
    FewRemain(KeyLess, live, LastUsed, c.maxEntries);
  }

  lemma {:induction false} UnexpiredIsKept(c: Config, ops: seq<Op>, keys: set<Key>, k: Key, t: U64)
    requires ClockUpTo(ops, t) && InsertedKeys(ops) <= keys && Roomy(c, keys)
    requires LatestInsert(ops, k).Some? && LatestInsert(ops, k).value.Insert?
    requires SaturatingAdd(LatestInsert(ops, k).value.now, LatestInsert(ops, k).value.ttl) > t
    ensures k in Run(c, ops).entries
  {
    var before := Earlier(ops);
    var last := Latest(ops);
    assert last == ops[|ops| - 1] && ClockUpTo(before, t);
    assert ops == before + [last];
    OnlyInsertedKeys(c, before);
    if last.Insert? { RoomyInsert(c, Run(c, before), last, keys); }
    if !(last.Insert? && last.key == k) {
      UnexpiredIsKept(c, before, keys, k, t);
      StoredEntryAccounts(c, before, k);
    }
  }

  /**
    With a clock that has not passed `now` and keys within the caps, a lookup hits exactly when a map
    without bounds, in which each insertion lives for its time to live, would.
   */
  lemma {:induction false} BehavesLikeUnboundedTtlMap(c: Config, ops: seq<Op>, k: Key, now: U64)
    requires ClockUpTo(ops, now) && Roomy(c, InsertedKeys(ops))
    ensures Lookup(Run(c, ops), k, now).Some? <==>
            (LatestInsert(ops, k).Some? && LatestInsert(ops, k).value.Insert?
            && SaturatingAdd(LatestInsert(ops, k).value.now, LatestInsert(ops, k).value.ttl) > now)
  {
    LatestInsertIsInsert(ops, k);
    if Lookup(Run(c, ops), k, now).Some? {
      HitIsFaithful(c, ops, k, now);
    } else if LatestInsert(ops, k).Some?
      && SaturatingAdd(LatestInsert(ops, k).value.now, LatestInsert(ops, k).value.ttl) > now {
      UnexpiredIsKept(c, ops, InsertedKeys(ops), k, now);
      StoredEntryAccounts(c, ops, k);
    }
  }

  lemma {:induction false} StoredDenialAccounts(c: Config, ops: seq<Op>, domain: string)
    ensures AsciiLower(domain) in Run(c, ops).negative ==>
              (LatestDenial(ops, domain).Some? && LatestDenial(ops, domain).value.MarkDenied?
              && Run(c, ops).negative[AsciiLower(domain)] == DenialOf(LatestDenial(ops, domain).value))
  {
    if ops != [] {
      LatestDenialIsDenial(ops, domain);
      StoredDenialAccounts(c, Earlier(ops), domain);
    }
  }

  function DenialOf(op: Op): NegativeEntry
    requires op.MarkDenied?
  {
    NegativeEntry(op.reason, SaturatingAdd(op.now, op.ttl))
  }

  lemma {:induction false} UnexpiredDenialIsKept(c: Config, ops: seq<Op>, domain: string, t: U64)
    requires ClockUpTo(ops, t)
    requires LatestDenial(ops, domain).Some? && LatestDenial(ops, domain).value.MarkDenied?
    requires DenialOf(LatestDenial(ops, domain).value).expiresAtMs > t
    ensures AsciiLower(domain) in Run(c, ops).negative
  {
    var before := Earlier(ops);
    var last := Latest(ops);
    assert last == ops[|ops| - 1] && ClockUpTo(before, t);
    if !(last.MarkDenied? && AsciiLower(last.domain) == AsciiLower(domain)) {
      UnexpiredDenialIsKept(c, before, domain, t);
      StoredDenialAccounts(c, before, domain);
    }
  }

  /** The deny list answers with the reason of the latest denial of that domain, in any letter case, while it lasts. */
  lemma {:induction false} DenialsAreFaithful(c: Config, ops: seq<Op>, domain: string, now: U64)
    requires ClockUpTo(ops, now)
    ensures LookupDenied(Run(c, ops), domain, now) ==
            match LatestDenial(ops, domain)
            case Some(MarkDenied(_, reason, at, ttl)) => if SaturatingAdd(at, ttl) > now then Some(reason) else None
            case _ => None
  {
    LatestDenialIsDenial(ops, domain);
    StoredDenialAccounts(c, ops, domain);
    if LatestDenial(ops, domain).Some? && DenialOf(LatestDenial(ops, domain).value).expiresAtMs > now {
      UnexpiredDenialIsKept(c, ops, domain, now);
    }
  }

  // ----- recency -----

  /** When a key was last inserted or looked up. */
  function LastUse(ops: seq<Op>, k: Key): U64 {
    if ops == [] then 0
    else match Latest(ops)
      case Insert(key, _, _, now, _) => if key == k then now else LastUse(Earlier(ops), k)
      case Get(key, now) => if key == k then now else LastUse(Earlier(ops), k)
      case _ => LastUse(Earlier(ops), k)
  }

  /** In every run, a stored entry was last used when its key was last inserted or looked up. */
  lemma {:induction false} LastUsedIs(c: Config, ops: seq<Op>, k: Key)
    requires k in Run(c, ops).entries
    ensures Run(c, ops).entries[k].lastUsedMs == LastUse(ops, k)
  {
    var before, last := Earlier(ops), Latest(ops);
    StepUse(c, Run(c, before), last, k);
    if !(last.Insert? && last.key == k) { LastUsedIs(c, before, k); }
  }

  lemma {:induction false} StepUse(c: Config, t: Table, op: Op, k: Key)
    requires k in Step(c, t, op).entries
    ensures k in t.entries || (op.Insert? && op.key == k)
    ensures Step(c, t, op).entries[k].lastUsedMs ==
            if (op.Insert? || op.Get?) && op.key == k then op.now else t.entries[k].lastUsedMs
  {}

  /** The unexpired keys under which something was used after `k`, or at the same time under a greater key. */
  ghost function UsedAfter(live: set<Key>, ops: seq<Op>, k: Key): set<Key> {
    set x | x in live && (LastUse(ops, x) > LastUse(ops, k) || (LastUse(ops, x) == LastUse(ops, k) && KeyLess(k, x)))
  }

  /** What an insertion has to choose from: what is stored, with the new entry, less what has expired. */
  ghost function LiveAt(c: Config, ops: seq<Op>, op: Op): map<Key, Entry>
    requires op.Insert?
  {
    Unexpired(Run(c, ops).entries[op.key := FreshEntry(op.certDer, op.keyId, op.now, op.ttl)], op.now)
  }

  lemma {:induction false} LiveUse(c: Config, ops: seq<Op>, op: Op, k: Key)
    requires op.Insert? && k in LiveAt(c, ops, op)
    ensures LiveAt(c, ops, op)[k].lastUsedMs == LastUse(ops + [op], k)
  {
    assert Earlier(ops + [op]) == ops;
    if k != op.key { LastUsedIs(c, ops, k); }
  }

  /**
    In every run, which entries an insertion keeps is decided by the operations alone: of the live ones, those with
    fewer than the provider cap used after them by the same provider, and, each provider counted up to that cap,
    fewer than the global cap used after them altogether.
   */
  lemma {:induction false} InsertKeepsRecentlyUsed(c: Config, ops: seq<Op>, op: Op, k: Key)
    requires op.Insert?
    ensures var live := LiveAt(c, ops, op).Keys;
            var after := UsedAfter(live, ops + [op], k);
            k in Run(c, ops + [op]).entries <==>
              k in live
              && (c.providerCap == 0 || |OfFamily(after, k.family)| < c.providerCap)
              && Remaining(after, c.providerCap) < c.maxEntries
  {
    var live := LiveAt(c, ops, op);
    var capped := CutPerProvider(live, c.providerCap);
    assert Earlier(ops + [op]) == ops && Latest(ops + [op]) == op;
    assert Run(c, ops + [op]).entries == CutOverall(capped, c.maxEntries);
    if k in live {
      var used := live[k].lastUsedMs;
      NewerIsUsedAfter(c, ops, op, k);
      if c.providerCap > 0 { NewestOfFamily(live, k, used, c.providerCap); }
      if k in capped { NewestOverall(capped, k, used, c.maxEntries); }
      NewerRemaining(live, k, used, c.providerCap);
    }
  }

  lemma {:induction false} NewerIsUsedAfter(c: Config, ops: seq<Op>, op: Op, k: Key)
    requires op.Insert? && k in LiveAt(c, ops, op)
    ensures var live := LiveAt(c, ops, op); Newer(live, k, live[k].lastUsedMs) == UsedAfter(live.Keys, ops + [op], k)
  {
    var live := LiveAt(c, ops, op);
    forall x | x in live ensures live[x].lastUsedMs == LastUse(ops + [op], x) { LiveUse(c, ops, op, x); }
  }

  lemma {:induction false} NextUse(ops: seq<Op>, op: Op, k: Key)
    ensures LastUse(ops + [op], k) == if (op.Insert? || op.Get?) && op.key == k then op.now else LastUse(ops, k)
  {
    assert Earlier(ops + [op]) == ops;
  }

  /** With room for two entries: if the older of two is looked up, a third insertion evicts the other one. */
  lemma {:induction false} LookedUpStays(op1: Op, op2: Op, op3: Op, op4: Op)
    requires op1.Insert? && op2.Insert? && op3.Get? && op4.Insert? && op3.key == op1.key
    requires op1.key != op2.key && op4.key !in {op1.key, op2.key} && op1.now < op2.now < op3.now < op4.now
    requires SaturatingAdd(op1.now, op1.ttl) > op4.now && SaturatingAdd(op2.now, op2.ttl) > op4.now
    requires SaturatingAdd(op4.now, op4.ttl) > op4.now
    ensures var entries := Run(Config(2, 0), [op1, op2] + [op3] + [op4]).entries;
            op1.key in entries && op2.key !in entries
  {
    var c, three, live := Config(2, 0), [op1, op2] + [op3], {op1.key, op2.key, op4.key};
    LiveOfThree(op1, op2, op3, op4);
    UsesOfThree(op1, op2, op3, op4, live);
    InsertKeepsRecentlyUsed(c, three, op4, op1.key);
    InsertKeepsRecentlyUsed(c, three, op4, op2.key);
    assert |{op4.key}| == 1 && |{op1.key, op4.key}| == 2;
  }

  lemma {:induction false} LiveOfThree(op1: Op, op2: Op, op3: Op, op4: Op)
    requires op1.Insert? && op2.Insert? && op3.Get? && op4.Insert? && op3.key == op1.key
    requires op1.key != op2.key && op4.key !in {op1.key, op2.key} && op1.now < op2.now < op3.now < op4.now
    requires SaturatingAdd(op1.now, op1.ttl) > op4.now && SaturatingAdd(op2.now, op2.ttl) > op4.now
    requires SaturatingAdd(op4.now, op4.ttl) > op4.now
    ensures LiveAt(Config(2, 0), [op1, op2] + [op3], op4).Keys == {op1.key, op2.key, op4.key}
  {
    var c, three := Config(2, 0), [op1, op2] + [op3];
    TwoStay(c, op1, op2);
    assert Earlier(three) == [op1, op2] && Latest(three) == op3;
    HitKeeps(Run(c, [op1, op2]), op3.key, op3.now);
    LiveKeys(c, three, op4);
  }

  lemma {:induction false} HitKeeps(t: Table, key: Key, now: U64)
    requires key in t.entries && t.entries[key].expiresAtMs > now
    ensures AfterGet(t, key, now).entries.Keys == t.entries.Keys
    ensures forall k :: k in t.entries ==> AfterGet(t, key, now).entries[k].expiresAtMs == t.entries[k].expiresAtMs
  {}

  lemma {:induction false} LiveKeys(c: Config, ops: seq<Op>, op: Op)
    requires op.Insert? && SaturatingAdd(op.now, op.ttl) > op.now
    requires forall k :: k in Run(c, ops).entries ==> Run(c, ops).entries[k].expiresAtMs > op.now
    ensures LiveAt(c, ops, op).Keys == Run(c, ops).entries.Keys + {op.key}
  {}

  lemma {:induction false} UsesOfThree(op1: Op, op2: Op, op3: Op, op4: Op, live: set<Key>)
    requires op1.Insert? && op2.Insert? && op3.Get? && op4.Insert? && op3.key == op1.key
    requires op1.key != op2.key && op4.key !in {op1.key, op2.key} && op1.now < op2.now < op3.now < op4.now
    requires live == {op1.key, op2.key, op4.key}
    ensures UsedAfter(live, [op1, op2] + [op3] + [op4], op1.key) == {op4.key}
    ensures UsedAfter(live, [op1, op2] + [op3] + [op4], op2.key) == {op1.key, op4.key}
  {
    assert [op1, op2] == [op1] + [op2];
    forall k
      ensures LastUse([op1, op2] + [op3] + [op4], k) ==
              if k == op4.key then op4.now else if k == op1.key then op3.now else LastUse([op1] + [op2], k)
    {
      NextUse([op1, op2] + [op3], op4, k);
      NextUse([op1, op2], op3, k);
    }
    NextUse([op1], op2, op2.key);
    KeyIrreflexive(op1.key);
    KeyIrreflexive(op2.key);
  }

  /** Two insertions under different keys, with room for two. */
  lemma {:induction false} TwoStay(c: Config, op1: Op, op2: Op)
    requires c == Config(2, 0) && op1.Insert? && op2.Insert? && op1.key != op2.key
    requires SaturatingAdd(op1.now, op1.ttl) > op2.now && SaturatingAdd(op2.now, op2.ttl) > op2.now
    requires SaturatingAdd(op1.now, op1.ttl) > op1.now
    ensures var entries := Run(c, [op1, op2]).entries;
            && entries.Keys == {op1.key, op2.key}
            && entries[op1.key].expiresAtMs == SaturatingAdd(op1.now, op1.ttl)
            && entries[op2.key].expiresAtMs == SaturatingAdd(op2.now, op2.ttl)
  {
    var ops := [op1, op2];
    assert Earlier(ops) == [op1] && Latest(ops) == op2;
    FirstInsert(c, op1);
    RoomyInsert(c, Run(c, [op1]), op2, {op1.key, op2.key});
  }
}
