/**
 * bitmaps/BitmapLruCache.java: the in-memory, least-recently-used cache of
 * BitmapWrappers.  Every entry holds one cache reference on its wrapper:
 * put takes it, and the base class's entryRemoved callback (called on
 * replacement, removal and eviction) gives it back.
 *
 * The base class android.support.v4.util.LruCache is modelled by its
 * observable state: the key-to-wrapper map and the access order of keys.
 */
module MemoryCache {
  import opened JavaLang
  import opened BitmapRefs

  /** DEFAULT_CACHE_SIZE: one eighth of the heap. */
  const DEFAULT_CACHE_SIZE: real := 1.0 / 8.0
  /** MAX_CACHE_SIZE: never more than the whole heap. */
  const MAX_CACHE_SIZE: real := 1.0
  const MEGABYTE: int := 1024 * 1024

  /**
   * The capacity the Context constructors pass to LruCache:
   * Math.round(MEGABYTE * memoryClass * Math.min(percentageOfHeap, 1)).
   */
  function CacheCapacity(heapMegabytes: nat, percentageOfHeap: real): (bytes: int)
    ensures percentageOfHeap >= MAX_CACHE_SIZE ==> bytes == MEGABYTE * heapMegabytes
    ensures 0.0 <= percentageOfHeap ==> 0 <= bytes <= MEGABYTE * heapMegabytes
  {
    var heap := MEGABYTE * heapMegabytes;
    var fraction := if percentageOfHeap < MAX_CACHE_SIZE then percentageOfHeap else MAX_CACHE_SIZE;
    RoundScaled(heap, fraction);
    (heap as real * fraction + 0.5).Floor
  }

  /** Rounding a fraction of a whole number stays between zero and that number. */
  lemma RoundScaled(n: nat, f: real)
    requires f <= 1.0
    ensures f == 1.0 ==> (n as real * f + 0.5).Floor == n
    ensures 0.0 <= f ==> 0 <= (n as real * f + 0.5).Floor <= n
  {
    if 0.0 <= f {
      assert 0.0 <= n as real * f <= n as real;
    }
  }

  /** The default cache is exactly one eighth of the heap, in bytes. */
  lemma DefaultCapacity(heapMegabytes: nat)
    ensures CacheCapacity(heapMegabytes, DEFAULT_CACHE_SIZE) == 131072 * heapMegabytes
  {
    var exact := (MEGABYTE * heapMegabytes) as real * DEFAULT_CACHE_SIZE;
    assert exact == (131072 * heapMegabytes) as real;
  }

  /** sizeOf: the bitmap's byte count while it is valid, zero once recycled. */
  function SizeOf(w: BitmapWrapper): (n: int)
    reads w
    ensures w.recycled ==> n == 0
    ensures !w.recycled ==> n == w.bitmap.rowBytes * w.bitmap.height
  {
    if w.HasValidBitmap() then w.bitmap.rowBytes * w.bitmap.height else 0
  }

  // ---------------------------------------------------------------------
  // Helpers on the access order
  // ---------------------------------------------------------------------

  predicate NoDuplicates(s: seq<string>)
  {
    forall i, j :: 0 <= i < j < |s| ==> s[i] != s[j]
  }

  /** The keys of s that belong to keep, in their order in s. */
  function Keep(s: seq<string>, keep: set<string>): (r: seq<string>)
    ensures forall x :: x in r <==> x in s && x in keep
    ensures NoDuplicates(s) ==> NoDuplicates(r)
  {
    if |s| == 0 then []
    else if s[0] in keep then
      assert NoDuplicates(s) ==> s[0] !in s[1..];
      [s[0]] + Keep(s[1..], keep)
    else Keep(s[1..], keep)
  }

  /** s without the key k. */
  function Without(s: seq<string>, k: string): (r: seq<string>)
    ensures forall x :: x in r <==> x in s && x != k
    ensures NoDuplicates(s) ==> NoDuplicates(r)
  {
    if |s| == 0 then []
    else if s[0] == k then Without(s[1..], k)
    else
      assert NoDuplicates(s) ==> s[0] !in s[1..];
      [s[0]] + Without(s[1..], k)
  }

  lemma {:induction false} WithoutKeep(s: seq<string>, keep: set<string>, k: string)
    ensures Without(Keep(s, keep), k) == Keep(s, keep - {k})
  {
    if |s| > 0 {
      WithoutKeep(s[1..], keep, k);
    }
  }

  lemma WithoutAbsent(s: seq<string>, k: string)
    requires k !in s
    ensures Without(s, k) == s
  {
  }

  lemma KeepAll(s: seq<string>, keep: set<string>)
    requires forall x :: x in s ==> x in keep
    ensures Keep(s, keep) == s
  {
  }

  /** No wrapper is stored under two keys. */
  predicate Injective(m: map<string, BitmapWrapper>)
  {
    forall a, b :: a in m && b in m && m[a] == m[b] ==> a == b
  }

  // ---------------------------------------------------------------------
  // The cache
  // ---------------------------------------------------------------------

  class BitmapLruCache {
    /** The base class's byte budget. */
    const maxSize: int
    /** The base class's map from key to wrapper. */
    var entries: map<string, BitmapWrapper>
    /** The keys in access order, least recently used first. */
    var order: seq<string>

    /**
     * The order lists exactly the stored keys, once each; no wrapper is
     * stored under two keys; and every stored wrapper holds a cache reference.
     */
    ghost predicate Valid()
      reads this, entries.Values
    {
      (forall k :: k in order <==> k in entries)
      && NoDuplicates(order)
      && Injective(entries)
      && (forall k :: k in entries ==> entries[k].Valid() && entries[k].cacheRefCount >= 1)
    }

    /** The wrapper stored under k, if any (LruCache.get without reordering). */
    function Lookup(k: string): Option<BitmapWrapper>
      reads this
    {
      if k in entries then Some(entries[k]) else None
    }

    /** The wrapper stored under k, as the set of objects an update of that entry may change. */
    function Held(k: string): set<BitmapWrapper>
      reads this
    {
      if k in entries then {entries[k]} else {}
    }

    /** BitmapLruCache(int maxSize) and, through CacheCapacity, the Context constructors. */
    constructor(maxSize: int)
      ensures Valid()
      ensures this.maxSize == maxSize && entries == map[] && order == []
    {
      this.maxSize := maxSize;
      entries := map[];
      order := [];
    }

    /** LruCache.get: the stored wrapper, which becomes the most recently used entry. */
    method Get(key: Option<string>) returns (r: Result<Option<BitmapWrapper>, Exception>)
      requires Valid()
      modifies this
      ensures Valid() && entries == old(entries)
      ensures key.None? ==> r == Failure(NullPointer) && order == old(order)
      ensures key.Some? ==> r == Success(Lookup(key.value))
      ensures key.Some? && key.value in entries ==> order == Without(old(order), key.value) + [key.value]
      ensures key.Some? && key.value !in entries ==> order == old(order)
    {
      if key.None? {
        return Failure(NullPointer);
      }
      var k := key.value;
      if k in entries {
        order := Without(order, k) + [k];
        return Success(Some(entries[k]));
      }
      return Success(None);
    }

    /**
     * Whether putting value under key keeps the cache consistent: the value
     * is not stored under another key, and its counter is not negative.
     */
    predicate Admissible(key: string, value: BitmapWrapper)
      reads this, value
    {
      (forall j :: j in entries && entries[j] == value ==> j == key) && value.cacheRefCount >= 0
    }

    /**
     * put(key, value): take a cache reference on the new value, store it, and
     * give back the reference of the value it displaces (even when that is
     * the same wrapper).  A null key is rejected by the base class only after
     * the counter was raised.
     */
    method Put(key: Option<string>, value: BitmapWrapper) returns (r: Result<Option<BitmapWrapper>, Exception>)
      requires Valid() && value.Valid()
      modifies this, value, if key.Some? then Held(key.value) else {}
      ensures value.Valid()
      ensures key.None? ==> Valid() && r == Failure(NullPointer) && entries == old(entries) && order == old(order)
                            && value.State() == Step(old(value.State()), CacheOp(true))
      ensures key.Some? ==> (old(Admissible(key.value, value)) ==> Valid())
                            && r == Success(old(Lookup(key.value)))
                            && entries == old(entries)[key.value := value]
                            && order == Without(old(order), key.value) + [key.value]
      ensures key.Some? && old(Lookup(key.value)) == Some(value) ==> value.State() == old(value.State())
      ensures key.Some? && old(Lookup(key.value)) != Some(value) ==>
                value.State() == Step(old(value.State()), CacheOp(true))
      ensures key.Some? && old(key.value in entries) && old(entries[key.value]) != value ==>
                var previous := old(entries[key.value]);
                previous.Valid() && previous.State() == Step(old(previous.State()), CacheOp(false))
    {
      value.SetCached(true);
      if key.None? {
        return Failure(NullPointer);
      }
      var k := key.value;
      var previous := Lookup(k);
      StoreEntry(k, value);
      return Success(previous);
    }

    /** The base class's store of one entry, followed by entryRemoved on the value it displaces. */
    method StoreEntry(k: string, value: BitmapWrapper)
      requires Valid() && value.Valid()
      modifies this, Held(k)
      ensures value.Valid()
      ensures (old(forall j :: j in entries && entries[j] == value ==> j == k) &&
               old(value.cacheRefCount >= (if Lookup(k) == Some(value) then 2 else 1))) ==> Valid()
      ensures entries == old(entries)[k := value] && order == Without(old(order), k) + [k]
      ensures old(k in entries) ==>
                var previous := old(entries[k]);
                previous.Valid() && previous.State() == Step(old(previous.State()), CacheOp(false))
      ensures old(Lookup(k)) != Some(value) ==> value.State() == old(value.State())
    {
      var previous := Lookup(k);
      entries := entries[k := value];
      order := Without(order, k) + [k];
      if previous.Some? {
        previous.value.SetCached(false);
      }
    }

    /** put(newValue): store a wrapper under its own key. */
    method PutWrapper(value: BitmapWrapper) returns (r: Result<Option<BitmapWrapper>, Exception>)
      requires Valid() && value.Valid()
      modifies this, value, if value.key.Some? then Held(value.key.value) else {}
      ensures value.Valid()
      ensures value.key.None? ==> Valid() && r == Failure(NullPointer) && entries == old(entries) && order == old(order)
      ensures value.key.Some? ==> (old(Admissible(value.key.value, value)) ==> Valid())
                                  && r == Success(old(Lookup(value.key.value)))
                                  && entries == old(entries)[value.key.value := value]
                                  && order == Without(old(order), value.key.value) + [value.key.value]
      ensures old(if value.key.Some? then Lookup(value.key.value) else None) != Some(value) ==>
                value.State() == Step(old(value.State()), CacheOp(true))
      ensures old(if value.key.Some? then Lookup(value.key.value) else None) == Some(value) ==>
                value.State() == old(value.State())
      ensures value.key.Some? && old(value.key.value in entries) && old(entries[value.key.value]) != value ==>
                var previous := old(entries[value.key.value]);
                previous.Valid() && previous.State() == Step(old(previous.State()), CacheOp(false))
    {
      r := Put(value.key, value);
    }

    /** remove(key): drop the entry and give back its cache reference. */
    method Remove(key: Option<string>) returns (r: Result<Option<BitmapWrapper>, Exception>)
      requires Valid()
      modifies this, if key.Some? then Held(key.value) else {}
      ensures Valid()
      ensures key.None? ==> r == Failure(NullPointer) && entries == old(entries) && order == old(order)
      ensures key.Some? ==> r == Success(old(Lookup(key.value)))
                            && entries == old(entries) - {key.value}
                            && order == Without(old(order), key.value)
      ensures key.Some? && old(key.value in entries) ==>
                var previous := old(entries[key.value]);
                previous.Valid() && previous.State() == Step(old(previous.State()), CacheOp(false))
    {
      if key.None? {
        return Failure(NullPointer);
      }
      var k := key.value;
      var previous := Lookup(k);
      RemoveEntry(k);
      return Success(previous);
    }

    /** The base class's removal of one entry, followed by entryRemoved. */
    method RemoveEntry(k: string)
      requires Valid()
      modifies this, Held(k)
      ensures Valid()
      ensures entries == old(entries) - {k} && order == Without(old(order), k)
      ensures k in old(entries) ==>
                var previous := old(entries[k]);
                previous.Valid() && previous.State() == Step(old(previous.State()), CacheOp(false))
    {
      var previous := Lookup(k);
      entries := entries - {k};
      order := Without(order, k);
      if previous.Some? {
        previous.value.SetCached(false);
      }
    }

    /** One step of the base class's trimToSize: evict the least recently used entry. */
    method EvictEldest() returns (evicted: Option<string>)
      requires Valid()
      modifies this, if |order| > 0 then Held(order[0]) else {}
      ensures Valid()
      ensures old(|order|) == 0 ==> evicted.None? && entries == old(entries) && order == old(order)
      ensures old(|order|) > 0 ==> evicted == Some(old(order[0]))
                                   && entries == old(entries) - {old(order[0])} && order == old(order[1..])
      ensures old(|order|) > 0 ==>
                var previous := old(entries[order[0]]);
                previous.Valid() && previous.State() == Step(old(previous.State()), CacheOp(false))
    {
      if |order| == 0 {
        return None;
      }
      var k := order[0];
      assert order == [k] + order[1..];
      assert k !in order[1..];
      WithoutAbsent(order[1..], k);
      RemoveEntry(k);
      return Some(k);
    }

    /**
     * The state of trimMemory's walk once the first i keys of the snapshot
     * were visited, relative to the entries m0 and wrapper states s0 it
     * started from: every visited entry that is still stored is displayed,
     * every dropped one was not and gave back its reference, and the rest
     * is untouched.
     */
    ghost predicate TrimmedUpTo(snapshot: seq<string>, i: int, m0: map<string, BitmapWrapper>, s0: map<string, RefState>)
      reads this, m0.Values
    {
      && 0 <= i <= |snapshot|
      && Injective(m0) && s0.Keys == m0.Keys && NoDuplicates(snapshot)
      && (forall j :: i <= j < |snapshot| ==> snapshot[j] in entries)
      && (forall k :: k in entries ==> k in m0 && entries[k] == m0[k])
      && (forall j :: 0 <= j < i && snapshot[j] in entries ==> s0[snapshot[j]].viewRefs > 0)
      && order == Keep(snapshot, entries.Keys)
      && (forall k :: k in m0 ==>
            m0[k].Valid() && if k in entries then m0[k].State() == s0[k]
                             else s0[k].viewRefs <= 0 && m0[k].State() == Step(s0[k], CacheOp(false)))
    }

    /**
     * trimMemory: walk a snapshot of the keys, in access order, and remove
     * every entry whose wrapper no view is displaying.  Each removed wrapper
     * gives back its cache reference, so one that only the cache held is
     * recycled; displayed wrappers are left untouched.
     */
    method TrimMemory()
      requires Valid()
      modifies this, entries.Values
      ensures Valid()
      ensures forall k :: k in entries <==> k in old(entries) && old(entries[k].imageViewRefCount) > 0
      ensures forall k :: k in entries ==> entries[k] == old(entries[k])
      ensures order == Keep(old(order), entries.Keys)
      ensures forall k :: k in old(entries) ==>
                var x := old(entries[k]);
                x.Valid() && x.State() == if old(x.imageViewRefCount) > 0 then old(x.State())
                                          else Step(old(x.State()), CacheOp(false))
    {
      var snapshot := order;
      ghost var m0 := entries;
      ghost var s0 := map k | k in m0 :: m0[k].State();
      KeepAll(snapshot, entries.Keys);
      var i := 0;
      while i < |snapshot|
        invariant Valid() && TrimmedUpTo(snapshot, i, m0, s0)
      {
        TrimStep(snapshot, i, m0, s0);
        i := i + 1;
      }
    }

    /** One iteration of trimMemory's loop: drop the i-th snapshot key unless it is displayed. */
    method TrimStep(snapshot: seq<string>, i: int, ghost m0: map<string, BitmapWrapper>, ghost s0: map<string, RefState>)
      requires Valid() && TrimmedUpTo(snapshot, i, m0, s0) && i < |snapshot|
      modifies this, Held(snapshot[i])
      ensures Valid() && TrimmedUpTo(snapshot, i + 1, m0, s0)
    {
      var k := snapshot[i];
      if !entries[k].IsBeingDisplayed() {
        ghost var current := entries;
        ghost var w := entries[k];
        label before:
        RemoveEntry(k);
        WithoutKeep(snapshot, current.Keys, k);
        forall j | j in m0
          ensures m0[j].Valid() && if j in entries then m0[j].State() == s0[j]
                                   else s0[j].viewRefs <= 0 && m0[j].State() == Step(s0[j], CacheOp(false))
        {
          if j != k {
            assert m0[j] != w;
            assert unchanged@before(m0[j]);
          }
        }
      }
    }

    /**
     * evictAll: the base class's trimToSize(-1), evicting every entry from
     * the least recently used on; each wrapper gives back its reference.
     */
    method EvictAll()
      requires Valid()
      modifies this, entries.Values
      ensures Valid() && entries == map[] && order == []
      ensures forall k :: k in old(entries) ==>
                var x := old(entries[k]);
                x.Valid() && x.State() == Step(old(x.State()), CacheOp(false))
    {
      ghost var m0 := entries;
      ghost var s0 := map k | k in m0 :: m0[k].State();
      while |order| > 0
        invariant Valid() && Injective(m0)
        invariant forall k :: k in entries ==> k in m0 && entries[k] == m0[k]
        invariant forall k :: k in m0 ==>
                    m0[k].Valid() && m0[k].State() == if k in entries then s0[k] else Step(s0[k], CacheOp(false))
        decreases |order|
      {
        ghost var w := entries[order[0]];
        label before:
        var evicted := EvictEldest();
        forall j | j in m0
          ensures m0[j].Valid() && m0[j].State() == if j in entries then s0[j] else Step(s0[j], CacheOp(false))
        {
          if Some(j) != evicted {
            assert m0[j] != w;
            assert unchanged@before(m0[j]);
          }
        }
      }
    }
  }
}
