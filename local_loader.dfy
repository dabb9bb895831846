/**
 * bitmaps/SimpleBitmapLoader.java: the loader for local bitmap resources.
 * It shares the memory cache with the other loaders but has no disk cache
 * and no released state, and tags views under R.id.iv_banner.
 */
module LocalLoaders {
  import opened JavaLang
  import opened BitmapRefs
  import opened MemoryCache
  import opened ImageViews
  import opened BitmapKeys
  import opened Loaders

  /** A BitmapLoaderTask: its (weakly held) view, the cache key and the resource id. */
  datatype LocalTask = LocalTask(view: CacheableImageView, key: string, resId: int)

  class SimpleBitmapLoader {
    /** mCache: the application-wide memory cache. */
    const cache: BitmapLruCache
    /** mPlaceholder: the R.drawable.empty drawable. */
    const placeholder: Drawable
    /** The BitmapLoaderTasks load started, in order. */
    var launched: seq<LocalTask>

    ghost predicate Valid()
      reads this, cache, cache.entries.Values
    {
      cache.Valid()
    }

    constructor(cache: BitmapLruCache, placeholder: Drawable)
      requires cache.Valid()
      ensures Valid() && this.cache == cache && this.placeholder == placeholder && launched == []
    {
      this.cache := cache;
      this.placeholder := placeholder;
      launched := [];
    }

    /**
     * load(view, resId).  A null view throws IllegalArgumentException.  A
     * memory hit with a valid bitmap is bound at once and the banner tag
     * cleared; anything else shows the placeholder with the banner tag set
     * to the key and starts one task.
     */
    method Load(view: Option<CacheableImageView>, resId: int) returns (r: Outcome<Exception>)
      requires Valid() && (view.Some? ==> view.value.Valid())
      modifies this, cache, cache.entries.Values, if view.Some? then {view.value} + view.value.Shown() else {}
      ensures Valid() && cache.entries == old(cache.entries)
      ensures view.None? ==> r == Fail(IllegalArgument) && launched == old(launched) && cache.order == old(cache.order)
      ensures view.Some? ==>
                var v := view.value;
                var key := LocalKey(resId);
                var hit := old(cache.Lookup(key));
                r == Pass && v.Valid() && v.avatarTag == old(v.avatarTag)
                && (key in cache.entries ==> cache.order == Without(old(cache.order), key) + [key])
                && (key !in cache.entries ==> cache.order == old(cache.order))
                && (hit.Some? && !old(hit.value.recycled) ==>
                      v.displayed == hit && v.drawable == BitmapImage(hit.value.bitmap) && v.bannerTag == None
                      && !hit.value.recycled && launched == old(launched))
                && (!(hit.Some? && !old(hit.value.recycled)) ==>
                      v.drawable == placeholder && v.displayed == None && v.bannerTag == Some(key)
                      && launched == old(launched) + [LocalTask(v, key, resId)])
    {
      if view.None? {
        return Fail(IllegalArgument);
      }
      var v := view.value;
      var key := LocalKey(resId);
      ghost var hit := cache.Lookup(key);
      ghost var wasRecycled := hit.Some? && hit.value.recycled;  // old(hit.value.recycled) of the postcondition
      var got := cache.Get(Some(key));
      var bitmap := got.value;
      assert bitmap == hit;
      if bitmap.Some? && bitmap.value.HasValidBitmap() {
        ShowWrapper(v, bitmap.value, BannerSlot, None, cache);
      } else {
        ShowDrawable(v, placeholder, BannerSlot, Some(key), cache);
        launched := launched + [LocalTask(v, key, resId)];
      }
      return Pass;
    }

    /**
     * BitmapLoaderTask.call: decode the resource (decoded stands for
     * BitmapFactory.decodeResource's result) and wrap it under the key,
     * or return null when decoding fails.
     */
    static method Call(task: LocalTask, decoded: Option<Bitmap>) returns (r: Option<BitmapWrapper>)
      ensures r.None? <==> decoded.None?
      ensures r.Some? ==> fresh(r.value) && r.value.Valid() && r.value.key == Some(task.key)
                          && Some(r.value.bitmap) == decoded && r.value.State() == RefState(0, 0, false)
    {
      if decoded.None? {
        return None;
      }
      var w := new BitmapWrapper(Some(task.key), decoded.value);
      return Some(w);
    }

    /**
     * BitmapLoaderTask.onSuccess: every non-null result is put into the
     * cache, and bound (clearing the banner tag) only when the view is
     * still alive and its banner tag still equals the key.
     */
    method OnSuccess(task: LocalTask, result: Option<BitmapWrapper>, viewAlive: bool)
      requires Valid() && task.view.Valid()
      requires result.Some? ==> result.value.Valid() && result.value.key == Some(task.key)
                                && cache.Admissible(task.key, result.value)
      modifies cache, task.view, task.view.Shown(), cache.Held(task.key),
               if result.Some? then {result.value} else {}
      ensures Valid() && task.view.Valid()
      ensures task.view.avatarTag == old(task.view.avatarTag)
      ensures result.None? ==> cache.entries == old(cache.entries) && cache.order == old(cache.order)
      ensures result.Some? ==>
                cache.entries == old(cache.entries)[task.key := result.value]
                && cache.order == Without(old(cache.order), task.key) + [task.key]
                && (!old(result.value.recycled) ==> !result.value.recycled)
      ensures var bound := result.Some? && viewAlive && old(task.view.bannerTag) == Some(task.key);
              (bound ==> task.view.displayed == result && task.view.bannerTag == None
                         && (!old(result.value.recycled) ==> task.view.drawable == BitmapImage(result.value.bitmap)))
              && (!bound ==> task.view.displayed == old(task.view.displayed) && task.view.drawable == old(task.view.drawable)
                             && task.view.bannerTag == old(task.view.bannerTag))
    {
      if result.None? {
        return;
      }
      var w := result.value;
      var put := cache.PutWrapper(w);
      if viewAlive && task.view.bannerTag == Some(task.key) {
        ShowWrapper(task.view, w, BannerSlot, None, cache);
      }
    }
  }
}
