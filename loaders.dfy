/**
 * bitmaps/AbstractBitmapLoader.java: the two-level bitmap loader.  L1 is
 * the shared memory cache, L2 a disk cache; a miss shows the placeholder,
 * tags the view with the cache key and starts a FetchBitmapTask, whose
 * result is bound only if the view still carries that tag.
 *
 * DiskLruCache is modelled by what BitmapFactory.decodeStream reads back
 * from each entry: a bitmap, or None for bytes it cannot decode.  Tasks
 * are started by recording them; running one is the explicit Call step
 * (the worker thread) followed by OnSuccess (the UI thread).
 */
module Loaders {
  import opened JavaLang
  import opened BitmapRefs
  import opened MemoryCache
  import opened ImageViews
  import opened BitmapKeys

  /** The L2 cache: each stored key and what decoding its file gives. */
  type DiskCache = map<string, Option<Bitmap>>

  /** A FetchBitmapTask: its (weakly held) view, the url, the cache key and the view's size. */
  datatype FetchTask = FetchTask(view: CacheableImageView, url: string, key: string, width: int, height: int)

  /** What call() returns or throws (the bitmap of the wrapper it builds), and the L2 cache afterwards. */
  datatype TaskOutcome = TaskOutcome(result: Result<Option<Bitmap>, Exception>, disk: Option<DiskCache>)

  // ---------------------------------------------------------------------
  // The L2 lookup and the background task, as values
  // ---------------------------------------------------------------------

  /**
   * getBitmapFromL2Cache as written: a stored entry is wrapped as it
   * decodes, and an entry that does not decode reaches the BitmapWrapper
   * constructor as null, which throws IllegalArgumentException.
   */
  function L2LookupAsWritten(disk: Option<DiskCache>, key: string): (r: Result<Option<Bitmap>, Exception>)
    ensures r.Failure? <==> disk.Some? && key in disk.value && disk.value[key].None?
    ensures r.Failure? ==> r.error == IllegalArgument
    ensures r.Success? && r.value.Some? <==> disk.Some? && key in disk.value && disk.value[key].Some?
    ensures r.Success? && r.value.Some? ==> r.value == disk.value[key]
  {
    if disk.Some? && key in disk.value then
      if disk.value[key].Some? then Success(disk.value[key]) else Failure(IllegalArgument)
    else Success(None)
  }

  /** getBitmapFromL2Cache as intended: an entry that does not decode is a miss, like an absent one. */
  function L2Lookup(disk: Option<DiskCache>, key: string): (r: Option<Bitmap>)
    ensures r.Some? <==> disk.Some? && key in disk.value && disk.value[key].Some?
    ensures r.Some? ==> r == disk.value[key]
  {
    if disk.Some? && key in disk.value then disk.value[key] else None
  }

  /** addBitmapToL2Cache of a fetched bitmap: stored under the key when the L2 cache exists and the loader is live. */
  function L2Store(released: bool, disk: Option<DiskCache>, key: string, b: Bitmap): (d: Option<DiskCache>)
    ensures released || disk.None? ==> d == disk
    ensures !released && disk.Some? ==> d.Some? && d.value == disk.value[key := Some(b)]
  {
    if released || disk.None? then disk else Some(disk.value[key := Some(b)])
  }

  /**
   * FetchBitmapTask.call as written.  fetched stands for what
   * loadMissingBitmap returns or throws for this task (the subclass hook).
   */
  function FetchAsWritten(released: bool, disk: Option<DiskCache>, task: FetchTask,
                          fetched: Result<Option<Bitmap>, Exception>): (o: TaskOutcome)
    ensures |task.url| == 0 || |task.key| == 0 || released ==> o == TaskOutcome(Success(None), disk)
    ensures o.result.Failure? ==> o.disk == disk
                                  && (fetched.Failure? || (disk.Some? && task.key in disk.value && disk.value[task.key].None?))
    ensures o.disk != disk ==> fetched.Success? && fetched.value.Some?
                               && o == TaskOutcome(fetched, L2Store(released, disk, task.key, fetched.value.value))
  {
    if |task.url| == 0 || |task.key| == 0 || released then TaskOutcome(Success(None), disk)
    else
      match L2LookupAsWritten(disk, task.key)
      case Failure(e) => TaskOutcome(Failure(e), disk)
      case Success(Some(b)) => TaskOutcome(Success(Some(b)), disk)
      case Success(None) =>
        match fetched
        case Success(Some(b)) => TaskOutcome(fetched, L2Store(released, disk, task.key, b))
        case _ => TaskOutcome(fetched, disk)
  }

  /** FetchBitmapTask.call with an undecodable L2 entry treated as a miss. */
  function Fetch(released: bool, disk: Option<DiskCache>, task: FetchTask,
                 fetched: Result<Option<Bitmap>, Exception>): (o: TaskOutcome)
    ensures |task.url| == 0 || |task.key| == 0 || released ==> o == TaskOutcome(Success(None), disk)
    ensures o.result.Failure? ==> o == TaskOutcome(fetched, disk)
    ensures !(|task.url| == 0 || |task.key| == 0 || released) && L2Lookup(disk, task.key).Some? ==>
              o == TaskOutcome(Success(L2Lookup(disk, task.key)), disk)
    ensures o.disk != disk ==> fetched.Success? && fetched.value.Some?
                               && o == TaskOutcome(fetched, L2Store(released, disk, task.key, fetched.value.value))
  {
    if |task.url| == 0 || |task.key| == 0 || released then TaskOutcome(Success(None), disk)
    else
      match L2Lookup(disk, task.key)
      case Some(b) => TaskOutcome(Success(Some(b)), disk)
      case None =>
        match fetched
        case Success(Some(b)) => TaskOutcome(fetched, L2Store(released, disk, task.key, b))
        case _ => TaskOutcome(fetched, disk)
  }

  /**
   * As written, an L2 entry that does not decode makes the task fail
   * whatever the network would give, and leaves the entry in place, so
   * every later task for the same key fails the same way.
   */
  lemma UndecodableEntryIsPermanent(disk: DiskCache, task: FetchTask, fetched: Result<Option<Bitmap>, Exception>)
    requires |task.url| > 0 && |task.key| > 0
    requires task.key in disk && disk[task.key].None?
    ensures FetchAsWritten(false, Some(disk), task, fetched) == TaskOutcome(Failure(IllegalArgument), Some(disk))
  {
  }

  /** The entry that shows it: an empty L2 file under the key, and a network that would succeed. */
  lemma UndecodableEntryExample(task: FetchTask, b: Bitmap)
    requires |task.url| > 0 && |task.key| > 0
    ensures var disk := map[task.key := None];
            FetchAsWritten(false, Some(disk), task, Success(Some(b))).result == Failure(IllegalArgument)
            && Fetch(false, Some(disk), task, Success(Some(b))).result == Success(Some(b))
  {
    var disk := map[task.key := None];
    UndecodableEntryIsPermanent(disk, task, Success(Some(b)));
    assert L2Lookup(Some(disk), task.key) == None;
  }

  /** The two agree wherever the L2 cache holds nothing undecodable under the key. */
  lemma FetchAgreesWhenDecodable(released: bool, disk: Option<DiskCache>, task: FetchTask,
                                 fetched: Result<Option<Bitmap>, Exception>)
    requires !(disk.Some? && task.key in disk.value && disk.value[task.key].None?)
    ensures Fetch(released, disk, task, fetched) == FetchAsWritten(released, disk, task, fetched)
  {
  }

  /**
   * The corrected task: a disk hit is returned without refetching or
   * rewriting; a bitmap fetched on a live loader is stored, so running the
   * same task again is a disk hit that returns it.
   */
  lemma {:induction false} FetchWritesBack(disk: DiskCache, task: FetchTask, b: Bitmap,
                                           again: Result<Option<Bitmap>, Exception>)
    requires |task.url| > 0 && |task.key| > 0
    ensures var first := Fetch(false, Some(disk), task, Success(Some(b)));
            first.result.Success? && first.result.value.Some? && first.disk.Some?
            && L2Lookup(first.disk, task.key) == first.result.value
            && (L2Lookup(Some(disk), task.key).None? ==> first.result == Success(Some(b)))
            && Fetch(false, first.disk, task, again) == first
  {
    var first := Fetch(false, Some(disk), task, Success(Some(b)));
    match L2Lookup(Some(disk), task.key)
    case Some(c) =>
      assert first == TaskOutcome(Success(Some(c)), Some(disk));
    case None =>
      assert first.disk == Some(disk[task.key := Some(b)]);
  }

  /** A task that finds a decodable disk entry ignores the fetch and changes no disk entry. */
  lemma DiskHitSkipsFetch(released: bool, disk: Option<DiskCache>, task: FetchTask,
                          fetched: Result<Option<Bitmap>, Exception>)
    requires |task.url| > 0 && |task.key| > 0 && !released
    requires L2Lookup(disk, task.key).Some?
    ensures Fetch(released, disk, task, fetched) == TaskOutcome(Success(L2Lookup(disk, task.key)), disk)
  {
  }

  /** A task on a released loader, or without url or key, returns null and leaves the disk alone. */
  lemma InertTask(released: bool, disk: Option<DiskCache>, task: FetchTask,
                  fetched: Result<Option<Bitmap>, Exception>)
    requires released || |task.url| == 0 || |task.key| == 0
    ensures Fetch(released, disk, task, fetched) == TaskOutcome(Success(None), disk)
  {
  }

  /** A failed or empty fetch on a miss is passed through and stores nothing. */
  lemma FailedFetchStoresNothing(released: bool, disk: Option<DiskCache>, task: FetchTask,
                                 fetched: Result<Option<Bitmap>, Exception>)
    requires !(fetched.Success? && fetched.value.Some?)
    ensures Fetch(released, disk, task, fetched).disk == disk
    ensures !released && |task.url| > 0 && |task.key| > 0 && L2Lookup(disk, task.key).None? ==>
              Fetch(released, disk, task, fetched).result == fetched
  {
  }

  // ---------------------------------------------------------------------
  // setImage: the static helpers that bind a view
  // ---------------------------------------------------------------------

  /**
   * setImage(Drawable, view, tag): show the drawable, then write the tag
   * under the loader's tag id.  Any wrapper a cache holds keeps its cache
   * reference.
   */
  method ShowDrawable(view: CacheableImageView, image: Drawable, slot: TagSlot, tag: Option<string>, ghost c: BitmapLruCache)
    requires view.Valid() && c.Valid()
    modifies view, view.Shown()
    ensures view.Valid() && c.Valid() && view.drawable == image && view.displayed == None
    ensures view.Tag(slot) == tag
    ensures slot == AvatarSlot ==> view.bannerTag == old(view.bannerTag)
    ensures slot == BannerSlot ==> view.avatarTag == old(view.avatarTag)
    ensures old(view.displayed).Some? ==>
              var w := old(view.displayed.value);
              w.Valid() && w.State() == Step(old(w.State()), ViewOp(false))
  {
    ghost var before := view.displayed;
    label start:
    view.SetImageDrawable(image);
    view.SetTag(slot, tag);
    forall k | k in c.entries
      ensures c.entries[k].Valid() && c.entries[k].cacheRefCount >= 1
    {
      if Some(c.entries[k]) != before {
        assert unchanged@start(c.entries[k]);
      }
    }
  }

  /** setImage(BitmapWrapper, view, tag): hand the wrapper to the view, then write the tag. */
  method ShowWrapper(view: CacheableImageView, image: BitmapWrapper, slot: TagSlot, tag: Option<string>, ghost c: BitmapLruCache)
    requires view.Valid() && image.Valid() && c.Valid()
    modifies view, view.Shown(), image
    ensures view.Valid() && c.Valid() && view.displayed == Some(image)
    ensures view.Tag(slot) == tag
    ensures slot == AvatarSlot ==> view.bannerTag == old(view.bannerTag)
    ensures slot == BannerSlot ==> view.avatarTag == old(view.avatarTag)
    ensures !old(image.recycled) ==> view.drawable == BitmapImage(image.bitmap)
    ensures old(image.recycled) ==> view.drawable == NoDrawable
    ensures image.Valid() && image.cacheRefCount == old(image.cacheRefCount)
    ensures !old(image.recycled) && old(view.displayed) != Some(image) ==>
              image.State() == Step(old(image.State()), ViewOp(true))
    ensures old(view.displayed).Some? && old(view.displayed) != Some(image) ==>
              var w := old(view.displayed.value);
              w.Valid() && w.State() == Step(old(w.State()), ViewOp(false))
    ensures !old(image.recycled) && old(image.cacheRefCount) >= 1 ==> !image.recycled
  {
    ghost var s := image.State();
    ghost var before := view.displayed;
    label start:
    view.SetImageCachedBitmap(Some(image));
    if !s.recycled && before == Some(image) && s.cacheRefs >= 1 {
      RedisplayKeepsState(s);
    }
    view.SetTag(slot, tag);
    forall k | k in c.entries
      ensures c.entries[k].Valid() && c.entries[k].cacheRefCount >= 1
    {
      if Some(c.entries[k]) != before && c.entries[k] != image {
        assert unchanged@start(c.entries[k]);
      }
    }
  }

  // ---------------------------------------------------------------------
  // The loader
  // ---------------------------------------------------------------------

  class BitmapLoader {
    /** mMemoryCache: the application-wide L1 cache. */
    const cache: BitmapLruCache
    /** mPlaceHolderDrawable. */
    const placeholder: Drawable
    /** MessageDigest.getInstance("SHA-1").digest, which the key computation relies on. */
    const sha1: seq<byte> -> Digest
    /** mReleased. */
    var released: bool
    /** mDiskCache: None when DiskLruCache.open failed. */
    var disk: Option<DiskCache>
    /** Whether mDiskCache.close() was called. */
    var diskClosed: bool
    /** The FetchBitmapTasks load started, in order. */
    var launched: seq<FetchTask>

    /** The shared cache is consistent, and the L2 cache is closed exactly once the loader was released. */
    ghost predicate Valid()
      reads this, cache, cache.entries.Values
    {
      cache.Valid() && (diskClosed <==> released && disk.Some?)
    }

    /** AbstractBitmapLoader(context, placeholderResId), given the L2 cache that opening gave (or None). */
    constructor(cache: BitmapLruCache, placeholder: Drawable, disk: Option<DiskCache>, sha1: seq<byte> -> Digest)
      requires cache.Valid()
      ensures Valid()
      ensures this.cache == cache && this.placeholder == placeholder && this.sha1 == sha1
      ensures this.disk == disk && !released && !diskClosed && launched == []
    {
      this.cache := cache;
      this.placeholder := placeholder;
      this.sha1 := sha1;
      this.disk := disk;
      released := false;
      diskClosed := false;
      launched := [];
    }

    /** getBitmapKey for this loader's digest. */
    function Key(url: string, width: int, height: int): (key: string)
      reads this
      ensures |key| == HASH_LENGTH
      ensures key == HexBytes(sha1(Utf8(KeySource(url, width, height))))
    {
      BitmapKey(url, width, height, sha1)
    }

    /**
     * release(evictAll): only once; a second call throws
     * IllegalStateException.  Optionally empties the memory cache, then
     * closes an open L2 cache (an IOException from closing is swallowed).
     */
    method Release(evictAll: bool) returns (r: Outcome<Exception>)
      requires Valid()
      modifies this, cache, cache.entries.Values
      ensures Valid() && released
      ensures disk == old(disk) && launched == old(launched)
      ensures old(released) ==> r == Fail(IllegalState) && diskClosed == old(diskClosed)
                                && cache.entries == old(cache.entries) && cache.order == old(cache.order)
      ensures !old(released) ==> r == Pass && diskClosed == disk.Some?
      ensures old(released) || !evictAll ==>
                cache.entries == old(cache.entries) && cache.order == old(cache.order)
                && forall k :: k in old(cache.entries) ==> old(cache.entries[k]).State() == old(cache.entries[k].State())
      ensures !old(released) && evictAll ==>
                cache.entries == map[] && cache.order == []
                && forall k :: k in old(cache.entries) ==>
                     var x := old(cache.entries[k]);
                     x.Valid() && x.State() == Step(old(x.State()), CacheOp(false))
    {
      if released {
        return Fail(IllegalState);
      }
      released := true;
      if evictAll {
        cache.EvictAll();
      }
      if disk.Some? {
        diskClosed := true;
      }
      return Pass;
    }

    /** getBitmapFromL1Cache: IllegalStateException once released, otherwise the cache's get. */
    method GetFromL1(key: string) returns (r: Result<Option<BitmapWrapper>, Exception>)
      requires Valid()
      modifies cache
      ensures Valid() && cache.entries == old(cache.entries)
      ensures released ==> r == Failure(IllegalState) && cache.order == old(cache.order)
      ensures !released ==> r == Success(cache.Lookup(key))
      ensures !released && key in cache.entries ==> cache.order == Without(old(cache.order), key) + [key]
      ensures !released && key !in cache.entries ==> cache.order == old(cache.order)
    {
      if released {
        return Failure(IllegalState);
      }
      r := cache.Get(Some(key));
    }

    /**
     * getBitmapFromL2Cache, as intended: IllegalStateException once
     * released; otherwise a fresh wrapper under the key around what the L2
     * cache holds, null on a miss.
     */
    method GetFromL2(key: string) returns (r: Result<Option<BitmapWrapper>, Exception>)
      ensures released ==> r == Failure(IllegalState)
      ensures !released ==> r.Success? && (r.value.Some? <==> L2Lookup(disk, key).Some?)
      ensures !released && r.Success? && r.value.Some? ==>
                var w := r.value.value;
                fresh(w) && w.Valid() && w.key == Some(key) && Some(w.bitmap) == L2Lookup(disk, key)
                && w.State() == RefState(0, 0, false)
    {
      if released {
        return Failure(IllegalState);
      }
      var found := L2Lookup(disk, key);
      if found.None? {
        return Success(None);
      }
      var w := new BitmapWrapper(Some(key), found.value);
      return Success(Some(w));
    }

    /** addBitmapToL1Cache: nothing once released, otherwise put(wrapper) under its own key. */
    method AddToL1(w: BitmapWrapper) returns (r: Outcome<Exception>)
      requires Valid() && w.Valid()
      modifies cache, w, if w.key.Some? then cache.Held(w.key.value) else {}
      ensures w.Valid()
      ensures released ==> r == Pass && Valid() && cache.entries == old(cache.entries)
                           && cache.order == old(cache.order) && w.State() == old(w.State())
      ensures !released && w.key.None? ==> r == Fail(NullPointer) && Valid()
                                           && cache.entries == old(cache.entries) && cache.order == old(cache.order)
      ensures !released && w.key.Some? ==>
                var k := w.key.value;
                r == Pass && (old(cache.Admissible(k, w)) ==> Valid())
                && cache.entries == old(cache.entries)[k := w]
                && cache.order == Without(old(cache.order), k) + [k]
                && (old(cache.Lookup(k)) != Some(w) ==> w.State() == Step(old(w.State()), CacheOp(true)))
                && (old(cache.Lookup(k)) == Some(w) ==> w.State() == old(w.State()))
      ensures !released && w.key.Some? && old(w.key.value in cache.entries) && old(cache.entries[w.key.value]) != w ==>
                var previous := old(cache.entries[w.key.value]);
                previous.Valid() && previous.State() == Step(old(previous.State()), CacheOp(false))
    {
      if released {
        return Pass;
      }
      var put := cache.PutWrapper(w);
      if put.Failure? {
        return Fail(put.error);
      }
      return Pass;
    }

    /**
     * addBitmapToL2Cache: nothing once released or without an L2 cache;
     * otherwise the bitmap is stored under the wrapper's key (a null key
     * is rejected by DiskLruCache.edit).
     */
    method AddToL2(w: BitmapWrapper) returns (r: Outcome<Exception>)
      modifies this
      ensures released == old(released) && diskClosed == old(diskClosed) && launched == old(launched)
      ensures (released || old(disk).None?) ==> r == Pass && disk == old(disk)
      ensures !released && old(disk).Some? && w.key.None? ==> r == Fail(NullPointer) && disk == old(disk)
      ensures !released && old(disk).Some? && w.key.Some? ==>
                r == Pass && disk == L2Store(released, old(disk), w.key.value, w.bitmap)
    {
      if released || disk.None? {
        return Pass;
      }
      if w.key.None? {
        return Fail(NullPointer);
      }
      disk := L2Store(released, disk, w.key.value, w.bitmap);
      return Pass;
    }

    /**
     * load(view, url).  A null view throws NullPointerException.  A null
     * url, or a released loader, shows the placeholder with a null tag.  A
     * memory hit with a valid bitmap is bound at once with a null tag;
     * anything else shows the placeholder tagged with the cache key and
     * starts one task for it.
     */
    method Load(view: Option<CacheableImageView>, url: Option<string>) returns (r: Outcome<Exception>)
      requires Valid() && (view.Some? ==> view.value.Valid())
      modifies this, cache, cache.entries.Values, if view.Some? then {view.value} + view.value.Shown() else {}
      ensures Valid()
      ensures released == old(released) && disk == old(disk) && diskClosed == old(diskClosed)
      ensures cache.entries == old(cache.entries)
      ensures view.None? ==> r == Fail(NullPointer) && launched == old(launched) && cache.order == old(cache.order)
      ensures view.Some? ==>
                var v := view.value;
                r == Pass && v.Valid() && v.bannerTag == old(v.bannerTag)
                && (url.None? || released ==>
                      v.drawable == placeholder && v.displayed == None && v.avatarTag == None
                      && launched == old(launched) && cache.order == old(cache.order))
                && (url.Some? && !released ==>
                      var key := Key(url.value, v.width, v.height);
                      var hit := old(cache.Lookup(key));
                      (key in cache.entries ==> cache.order == Without(old(cache.order), key) + [key])
                      && (key !in cache.entries ==> cache.order == old(cache.order))
                      && (hit.Some? && !old(hit.value.recycled) ==>
                            v.displayed == hit && v.drawable == BitmapImage(hit.value.bitmap) && v.avatarTag == None
                            && !hit.value.recycled && launched == old(launched))
                      && (!(hit.Some? && !old(hit.value.recycled)) ==>
                            v.drawable == placeholder && v.displayed == None && v.avatarTag == Some(key)
                            && launched == old(launched) + [FetchTask(v, url.value, key, v.width, v.height)]))
    {
      if view.None? {
        return Fail(NullPointer);
      }
      var v := view.value;
      if url.None? {
        ShowDrawable(v, placeholder, AvatarSlot, None, cache);
        return Pass;
      }
      Request(v, url.value);
      return Pass;
    }

    /** The part of load(view, url) after the null checks: a memory hit is bound, a miss starts a task. */
    method Request(v: CacheableImageView, url: string)
      requires Valid() && v.Valid()
      modifies this, cache, cache.entries.Values, {v} + v.Shown()
      ensures Valid() && v.Valid() && v.bannerTag == old(v.bannerTag)
      ensures released == old(released) && disk == old(disk) && diskClosed == old(diskClosed)
      ensures cache.entries == old(cache.entries)
      ensures released ==>
                v.drawable == placeholder && v.displayed == None && v.avatarTag == None
                && launched == old(launched) && cache.order == old(cache.order)
      ensures !released ==>
                var key := Key(url, v.width, v.height);
                var hit := old(cache.Lookup(key));
                (key in cache.entries ==> cache.order == Without(old(cache.order), key) + [key])
                && (key !in cache.entries ==> cache.order == old(cache.order))
                && (hit.Some? && !old(hit.value.recycled) ==>
                      v.displayed == hit && v.drawable == BitmapImage(hit.value.bitmap) && v.avatarTag == None
                      && !hit.value.recycled && launched == old(launched))
                && (!(hit.Some? && !old(hit.value.recycled)) ==>
                      v.drawable == placeholder && v.displayed == None && v.avatarTag == Some(key)
                      && launched == old(launched) + [FetchTask(v, url, key, v.width, v.height)])
    {
      var key := Key(url, v.width, v.height);
      var loaded := GetFromL1(key);
      if loaded.Failure? {
        ShowDrawable(v, placeholder, AvatarSlot, None, cache);
        return;
      }
      if loaded.value.Some? && loaded.value.value.HasValidBitmap() {
        ShowWrapper(v, loaded.value.value, AvatarSlot, None, cache);
      } else {
        ShowDrawable(v, placeholder, AvatarSlot, Some(key), cache);
        launched := launched + [FetchTask(v, url, key, v.width, v.height)];
      }
    }

    /**
     * FetchBitmapTask.call on the worker thread, as intended: the task's
     * outcome is Fetch's, and a bitmap comes back wrapped under the task's
     * key.  fetched is what loadMissingBitmap returns or throws.
     */
    method Call(task: FetchTask, fetched: Result<Option<Bitmap>, Exception>) returns (r: Result<Option<BitmapWrapper>, Exception>)
      modifies this
      ensures released == old(released) && diskClosed == old(diskClosed) && launched == old(launched)
      ensures var o := Fetch(old(released), old(disk), task, fetched);
              disk == o.disk
              && (r.Failure? <==> o.result.Failure?)
              && (r.Failure? ==> r.error == o.result.error)
              && (r.Success? ==> (r.value.Some? <==> o.result.value.Some?))
              && (r.Success? && r.value.Some? ==>
                    var w := r.value.value;
                    fresh(w) && w.Valid() && w.key == Some(task.key) && Some(w.bitmap) == o.result.value
                    && w.State() == RefState(0, 0, false))
    {
      if |task.url| == 0 || |task.key| == 0 {
        return Success(None);
      }
      var cached := GetFromL2(task.key);
      if cached.Failure? {
        return Success(None);
      }
      if cached.value.Some? {
        return cached;
      }
      if fetched.Failure? {
        return Failure(fetched.error);
      }
      if fetched.value.None? {
        return Success(None);
      }
      var w := new BitmapWrapper(Some(task.key), fetched.value.value);
      var stored := AddToL2(w);
      return Success(Some(w));
    }

    /**
     * FetchBitmapTask.onSuccess on the UI thread: a non-null result goes
     * into L1, and is bound (with a null tag) only when the view is still
     * alive and still tagged with the task's key.  viewAlive stands for
     * the weak reference not having been cleared.
     */
    method OnSuccess(task: FetchTask, result: Option<BitmapWrapper>, viewAlive: bool) returns (r: Outcome<Exception>)
      requires Valid() && task.view.Valid()
      requires result.Some? ==> result.value.Valid() && result.value.key == Some(task.key)
                                && cache.Admissible(task.key, result.value)
      modifies cache, task.view, task.view.Shown(), cache.Held(task.key),
               if result.Some? then {result.value} else {}
      ensures Valid() && r == Pass && task.view.Valid()
      ensures task.view.bannerTag == old(task.view.bannerTag)
      ensures result.None? || released ==> cache.entries == old(cache.entries) && cache.order == old(cache.order)
      ensures result.Some? && !released ==>
                cache.entries == old(cache.entries)[task.key := result.value]
                && cache.order == Without(old(cache.order), task.key) + [task.key]
      ensures var bound := result.Some? && viewAlive && old(task.view.avatarTag) == Some(task.key);
              (bound ==> task.view.displayed == result && task.view.avatarTag == None
                         && (!old(result.value.recycled) ==> task.view.drawable == BitmapImage(result.value.bitmap)))
              && (!bound ==> task.view.displayed == old(task.view.displayed) && task.view.drawable == old(task.view.drawable)
                             && task.view.avatarTag == old(task.view.avatarTag))
    {
      if result.None? {
        return Pass;
      }
      var w := result.value;
      var added := AddToL1(w);
      if viewAlive && task.view.avatarTag == Some(task.key) {
        ShowWrapper(task.view, w, AvatarSlot, None, cache);
      }
      return Pass;
    }
  }
}
