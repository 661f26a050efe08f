/**
 The bounded payload caches of `api/geo.py`: the byte cache and the cache of prepared
 trips. Both are dictionaries of entries with a size, an expiry deadline and the
 generation they were computed against, kept within a byte and an entry bound by an
 eviction loop that drops the entry closest to its expiry.
 */
module CacheBounds {
  import opened Wrappers
  import opened MapSum

  /** (owner, project name, payload variant). */
  type Key = (int, string, string)

  datatype Entry = Entry(size: nat, deadline: int, gen: int)

  datatype Limits = Limits(maxBytes: nat, maxEntries: nat, maxEntryBytes: nat)

  const MB: nat := 1024 * 1024
  const GEO_LIMITS := Limits(64 * MB, 200, 16 * MB)
  const TRACK_LIMITS := Limits(32 * MB, 32, 32 * MB)

  /** What the two sets of constants have in common: one admissible entry always fits. */
  predicate Sane(limits: Limits) {
    limits.maxEntryBytes <= limits.maxBytes && 1 <= limits.maxEntries
  }

  function Sizes(m: map<Key, Entry>): map<Key, nat> {
    map k | k in m :: m[k].size
  }

  ghost function TotalBytes(m: map<Key, Entry>): nat {
    Sum(Sizes(m))
  }

  ghost predicate WithinBounds(m: map<Key, Entry>, limits: Limits) {
    TotalBytes(m) <= limits.maxBytes && |m| <= limits.maxEntries
  }

  predicate Admissible(m: map<Key, Entry>, limits: Limits) {
    forall k :: k in m ==> m[k].size <= limits.maxEntryBytes
  }

  /** `kept` is what eviction may leave of `full`: only entries expiring no later than every
      survivor went, and putting the last one back would break a bound. */
  ghost predicate EvictedFrom(full: map<Key, Entry>, kept: map<Key, Entry>, limits: Limits) {
    && (forall k :: k in kept ==> k in full && kept[k] == full[k])
    && (forall g, k :: g in full && g !in kept && k in kept ==> full[g].deadline <= full[k].deadline)
    && (kept != full ==> exists last :: LastEvicted(full, kept, limits, last))
  }

  ghost predicate LastEvicted(full: map<Key, Entry>, kept: map<Key, Entry>, limits: Limits, last: Key) {
    && last in full && last !in kept
    && !WithinBounds(kept[last := full[last]], limits)
    && forall g :: g in full && g !in kept ==> full[g].deadline <= full[last].deadline
  }

  lemma SoleEntryFits(m: map<Key, Entry>, limits: Limits)
    requires Sane(limits) && Admissible(m, limits) && |m| <= 1
    ensures WithinBounds(m, limits)
  {
    if m != map[] {
      var k :| k in m;
      assert |m.Keys - {k}| == 0;
      assert m.Keys == {k};
      SumRemove(Sizes(m), k);
      assert Sizes(m) - {k} == map[];
    } else {
      assert Sizes(m) == map[];
    }
  }

  /** The bytes held are those of the entries, each counted once. */
  lemma TotalBytesAdds(m: map<Key, Entry>, k: Key, e: Entry)
    requires k !in m
    ensures TotalBytes(map[]) == 0 && TotalBytes(m[k := e]) == TotalBytes(m) + e.size
  {
    assert Sizes(map[]) == map[];
    assert Sizes(m[k := e]) == Sizes(m)[k := e.size];
    SumAdd(Sizes(m), k, e.size);
  }

  lemma SizesWithout(m: map<Key, Entry>, ks: set<Key>)
    ensures Sizes(m - ks) == Sizes(m) - ks
  {
  }

  lemma FewerKeys(m: map<Key, Entry>, ks: set<Key>)
    ensures |m - ks| <= |m|
  {
    var kept := (m - ks).Keys;
    assert m.Keys == kept + (m.Keys - kept);
  }

  lemma FewerBytes(m: map<Key, Entry>, ks: set<Key>)
    ensures TotalBytes(m - ks) <= TotalBytes(m) && |m - ks| <= |m|
  {
    SumSplit(Sizes(m), ks);
    SizesWithout(m, ks);
    FewerKeys(m, ks);
  }

  method SumOfSizes(m: map<Key, Entry>) returns (total: nat)
    ensures total == TotalBytes(m)
  {
    total := 0;
    var left := m.Keys;
    assert Only(Sizes(m), left) == Sizes(m);
    while left != {}
      invariant left <= m.Keys
      invariant total + Sum(Only(Sizes(m), left)) == TotalBytes(m)
    {
      var k :| k in left;
      SumRemove(Only(Sizes(m), left), k);
      assert Only(Sizes(m), left) - {k} == Only(Sizes(m), left - {k});
      total := total + m[k].size;
      left := left - {k};
    }
    assert Only(Sizes(m), left) == map[];
  }

  ghost predicate Soonest(m: map<Key, Entry>, k: Key) {
    k in m && forall j :: j in m ==> m[k].deadline <= m[j].deadline
  }

  /** `min(cache, key=deadline)`; which of several equal ones is returned is left open. */
  method FindSoonest(m: map<Key, Entry>) returns (k: Key)
    requires m != map[]
    ensures Soonest(m, k)
  {
    k :| k in m;
    var left := m.Keys - {k};
    while left != {}
      invariant left <= m.Keys && k in m
      invariant forall j :: j in m && j !in left ==> m[k].deadline <= m[j].deadline
    {
      var j :| j in left;
      if m[j].deadline < m[k].deadline {
        k := j;
      }
      left := left - {j};
    }
  }

  /** Dropping the soonest entry of a cache over its bounds is a justified eviction. */
  lemma EvictOne(full: map<Key, Entry>, m: map<Key, Entry>, limits: Limits, s: Key)
    requires EvictedFrom(full, m, limits) && !WithinBounds(m, limits) && Soonest(m, s)
    ensures EvictedFrom(full, m - {s}, limits) && |m - {s}| < |m|
  {
    var kept := m - {s};
    assert kept.Keys == m.Keys - {s};
    assert kept[s := full[s]] == m;
    assert LastEvicted(full, kept, limits, s);
  }

  /** Entries whose deadline has passed are gone. */
  function Live(m: map<Key, Entry>, now: int): map<Key, Entry> {
    map k | k in m && m[k].deadline > now :: m[k]
  }

  function Dropped(m: map<Key, Entry>, owner: int, project: string): map<Key, Entry> {
    map k | k in m && !(k.0 == owner && k.1 == project) :: m[k]
  }

  lemma LiveFits(m: map<Key, Entry>, now: int, limits: Limits)
    requires WithinBounds(m, limits)
    ensures WithinBounds(Live(m, now), limits)
  {
    var gone := set k | k in m && m[k].deadline <= now;
    assert Live(m, now) == m - gone;
    FewerBytes(m, gone);
  }

  lemma SameSizesFit(m: map<Key, Entry>, k: Key, e: Entry, limits: Limits)
    requires k in m && e.size == m[k].size && WithinBounds(m, limits)
    ensures WithinBounds(m[k := e], limits)
  {
    assert Sizes(m[k := e]) == Sizes(m);
    assert m[k := e].Keys == m.Keys;
  }

  lemma DroppedFits(m: map<Key, Entry>, owner: int, project: string, limits: Limits)
    requires WithinBounds(m, limits)
    ensures WithinBounds(Dropped(m, owner, project), limits)
  {
    var gone := set k | k in m && k.0 == owner && k.1 == project;
    assert Dropped(m, owner, project) == m - gone;
    FewerBytes(m, gone);
  }

  class PayloadCache {
    const limits: Limits
    var entries: map<Key, Entry>

    /** Both bounds hold, and no entry is larger than the per-entry cap. */
    ghost predicate Valid()
      reads this
    {
      Sane(limits) && WithinBounds(entries, limits) && Admissible(entries, limits)
    }

    constructor (limits: Limits)
      requires Sane(limits)
      ensures Valid() && entries == map[] && this.limits == limits
    {
      this.limits := limits;
      entries := map[];
      new;
      SoleEntryFits(entries, limits);
    }

    /** The eviction loop. It ends within both bounds, having evicted no more than needed. */
    method Evict(protect: Key)
      requires Sane(limits) && Admissible(entries, limits)
      modifies this`entries
      ensures Valid() && EvictedFrom(old(entries), entries, limits)
    {
      ghost var full := entries;
      var total := SumOfSizes(entries);
      while entries != map[] && (total > limits.maxBytes || |entries| > limits.maxEntries)
        invariant Admissible(entries, limits) && total == TotalBytes(entries)
        invariant EvictedFrom(full, entries, limits)
        decreases |entries|
      {
        var soonest := FindSoonest(entries);
        if |entries| == 1 { SoleEntryFits(entries, limits); }
        if soonest == protect && |entries| == 1 {
          break;
        }
        EvictOne(full, entries, limits, soonest);
        entries := entries - {soonest};
        total := SumOfSizes(entries);
      }
      if entries == map[] { SoleEntryFits(entries, limits); }
    }

    // Each method below is one section under the cache lock, so what
    // it keeps holds however the sections of different requests are interleaved.

    /** The locked section of `_geo_cache_store` and `_track_cache_store`: expired entries are
        swept; an oversized payload is refused; a stored one displaces only what eviction
        justifies. */
    method Insert(key: Key, size: nat, gen: int, now: int, ttl: int)
      requires Valid()
      modifies this`entries
      ensures Valid()
      ensures forall k :: k in entries && k != key ==>
                k in old(entries) && entries[k] == old(entries)[k] && now < entries[k].deadline
      ensures key in entries ==> entries[key] == Entry(size, now + ttl, gen) && size <= limits.maxEntryBytes
      ensures size > limits.maxEntryBytes ==> entries == Live(old(entries), now) - {key}
      ensures size <= limits.maxEntryBytes ==>
                EvictedFrom(Live(old(entries), now)[key := Entry(size, now + ttl, gen)], entries, limits)
    {
      LiveFits(entries, now, limits);
      entries := Live(entries, now);
      if size > limits.maxEntryBytes {
        FewerBytes(entries, {key});
        entries := entries - {key};
        return;
      }
      entries := entries[key := Entry(size, now + ttl, gen)];
      Evict(key);
    }

    /** The first locked section of `_geo_cache_get`, and with a `renewal` that of
        `_track_cache_get`: the live entry of the key, of whatever generation, its deadline
        renewed; an expired one is dropped. */
    method Peek(key: Key, now: int, renewal: Option<int>) returns (held: Option<Entry>)
      requires Valid()
      modifies this`entries
      ensures Valid()
      ensures held.Some? <==> key in old(entries) && now < old(entries)[key].deadline
      ensures held.Some? ==> held.value == old(entries)[key]
      ensures held.None? ==> entries == old(entries) - {key}
      ensures held.Some? ==>
                entries == if renewal.None? then old(entries)
                           else old(entries)[key := held.value.(deadline := renewal.value)]
    {
      held := None;
      if key !in entries {
        assert entries == entries - {key};
        return;
      }
      var entry := entries[key];
      if now >= entry.deadline {
        FewerBytes(entries, {key});
        entries := entries - {key};
        return;
      }
      if renewal.Some? {
        SameSizesFit(entries, key, entry.(deadline := renewal.value), limits);
        entries := entries[key := entry.(deadline := renewal.value)];
      }
      held := Some(entry);
    }

    /** The second locked section of both lookups: a superseded entry is dropped. */
    method Discard(key: Key)
      requires Valid()
      modifies this`entries
      ensures Valid() && entries == old(entries) - {key}
    {
      FewerBytes(entries, {key});
      entries := entries - {key};
    }

    /** The part of `bust_geo_cache` that drops a project's entries, every variant of them. */
    method Bust(owner: int, project: string)
      requires Valid()
      modifies this`entries
      ensures Valid()
      ensures forall k :: k in entries <==> k in old(entries) && (k.0 != owner || k.1 != project)
      ensures forall k :: k in entries ==> entries[k] == old(entries)[k]
    {
      DroppedFits(entries, owner, project, limits);
      entries := Dropped(entries, owner, project);
    }
  }

  /** The two caches of the process start within their bounds; both sets of constants are sane. */
  method NewCaches() returns (geo: PayloadCache, track: PayloadCache)
    ensures geo.Valid() && geo.limits == Limits(67108864, 200, 16777216) && geo.entries == map[]
    ensures track.Valid() && track.limits == Limits(33554432, 32, 33554432) && track.entries == map[]
  {
    geo := new PayloadCache(GEO_LIMITS);
    track := new PayloadCache(TRACK_LIMITS);
  }

  /** `more` keeps some of `full`, and with an entry every entry expiring later. */
  ghost predicate LatestOf(full: map<Key, Entry>, more: map<Key, Entry>) {
    && (forall k :: k in more ==> k in full && more[k] == full[k])
    && (forall j, k :: k in more && j in full && j !in more ==> full[j].deadline < full[k].deadline)
  }

  lemma SupersetOver(small: map<Key, Entry>, big: map<Key, Entry>, limits: Limits)
    requires !WithinBounds(small, limits)
    requires forall k :: k in small ==> k in big && big[k] == small[k]
    ensures !WithinBounds(big, limits)
  {
    FewerBytes(big, big.Keys - small.Keys);
    assert big - (big.Keys - small.Keys) == small;
  }

  /** Eviction keeps as much as it may: a strictly larger set of latest-expiring entries
      would break a bound. */
  lemma EvictionKeepsMost(full: map<Key, Entry>, kept: map<Key, Entry>, more: map<Key, Entry>, limits: Limits)
    requires EvictedFrom(full, kept, limits) && LatestOf(full, more)
    requires kept.Keys < more.Keys
    ensures !WithinBounds(more, limits)
  {
    var extra :| extra in more.Keys && extra !in kept.Keys;
    var last :| LastEvicted(full, kept, limits, last);
    assert last in more;
    SupersetOver(kept[last := full[last]], more, limits);
  }
}
