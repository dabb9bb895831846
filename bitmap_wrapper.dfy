/**
 * bitmaps/BitmapWrapper.java: a decoded bitmap together with two reference
 * counters, one for the memory cache and one for the image views showing
 * it.  The bitmap is recycled, once and for good, by the first counter
 * update after which both counters are at most zero.
 */
module BitmapRefs {
  import opened JavaLang

  /** The dimensions of an android.graphics.Bitmap that the cache reads. */
  datatype Bitmap = Bitmap(rowBytes: int, height: int)

  // ---------------------------------------------------------------------
  // The counting protocol, as a pure state machine
  // ---------------------------------------------------------------------

  /** The observable state of a wrapper: its two counters and whether the bitmap is recycled. */
  datatype RefState = RefState(cacheRefs: int, viewRefs: int, recycled: bool)

  /** A call of setCached(cached) (CacheOp) or setBeingUsed(used) (ViewOp). */
  datatype RefOp = CacheOp(cached: bool) | ViewOp(used: bool)

  /** Both counters at most zero: the condition checkRefCount recycles on. */
  predicate Unreferenced(s: RefState)
  {
    s.cacheRefs <= 0 && s.viewRefs <= 0
  }

  /** One counter update followed by checkRefCount. */
  function Step(s: RefState, op: RefOp): (t: RefState)
    ensures t.recycled <==> s.recycled || Unreferenced(t)
    ensures op.CacheOp? ==> t.viewRefs == s.viewRefs && t.cacheRefs == s.cacheRefs + (if op.cached then 1 else -1)
    ensures op.ViewOp? ==> t.cacheRefs == s.cacheRefs && t.viewRefs == s.viewRefs + (if op.used then 1 else -1)
  {
    var counted := match op
      case CacheOp(c) => s.(cacheRefs := s.cacheRefs + (if c then 1 else -1))
      case ViewOp(u) => s.(viewRefs := s.viewRefs + (if u then 1 else -1));
    counted.(recycled := s.recycled || Unreferenced(counted))
  }

  /** A sequence of counter updates, applied in order. */
  function Run(s: RefState, ops: seq<RefOp>): RefState
    decreases |ops|
  {
    if |ops| == 0 then s else Run(Step(s, ops[0]), ops[1..])
  }

  lemma RunAppend(s: RefState, ops: seq<RefOp>, op: RefOp)
    ensures Run(s, ops + [op]) == Step(Run(s, ops), op)
    decreases |ops|
  {
    if |ops| > 0 {
      assert (ops + [op])[1..] == ops[1..] + [op];
      RunAppend(Step(s, ops[0]), ops[1..], op);
    }
  }

  /** Recycling is irreversible: no later update brings a bitmap back. */
  lemma {:induction false} RecycledStaysRecycled(s: RefState, ops: seq<RefOp>)
    requires s.recycled
    ensures Run(s, ops).recycled
    decreases |ops|
  {
    if |ops| > 0 {
      RecycledStaysRecycled(Step(s, ops[0]), ops[1..]);
    }
  }

  /**
   * After a sequence of updates the bitmap is recycled exactly when it was
   * recycled to begin with, or some update left both counters at most zero.
   */
  lemma {:induction false} RecycledIffOnceUnreferenced(s: RefState, ops: seq<RefOp>)
    ensures Run(s, ops).recycled <==>
            s.recycled || exists i :: 1 <= i <= |ops| && Unreferenced(Run(s, ops[..i]))
    decreases |ops|
  {
    if |ops| > 0 {
      var i := |ops| - 1;
      var init := ops[..i];
      assert ops == init + [ops[i]];
      RunAppend(s, init, ops[i]);
      RecycledIffOnceUnreferenced(s, init);
      assert ops[..|ops|] == ops;
      forall j | 1 <= j <= i
        ensures ops[..j] == init[..j]
      {
      }
    }
  }

  /**
   * While the cache holds a reference, no amount of image-view traffic
   * recycles the bitmap.
   */
  lemma {:induction false} CachedSurvivesViewTraffic(s: RefState, ops: seq<RefOp>)
    requires !s.recycled && s.cacheRefs >= 1
    requires forall i :: 0 <= i < |ops| ==> ops[i].ViewOp?
    ensures !Run(s, ops).recycled
    ensures Run(s, ops).cacheRefs == s.cacheRefs
    decreases |ops|
  {
    if |ops| > 0 {
      CachedSurvivesViewTraffic(Step(s, ops[0]), ops[1..]);
    }
  }

  /** While some view holds a reference, cache traffic alone does not recycle the bitmap. */
  lemma {:induction false} DisplayedSurvivesCacheTraffic(s: RefState, ops: seq<RefOp>)
    requires !s.recycled && s.viewRefs >= 1
    requires forall i :: 0 <= i < |ops| ==> ops[i].CacheOp?
    ensures !Run(s, ops).recycled
    ensures Run(s, ops).viewRefs == s.viewRefs
    decreases |ops|
  {
    if |ops| > 0 {
      DisplayedSurvivesCacheTraffic(Step(s, ops[0]), ops[1..]);
    }
  }

  /**
   * Re-displaying a wrapper takes the new reference before dropping the
   * old one; in that order a wrapper solely held by one view survives,
   * while the opposite order would recycle it in between.
   */
  lemma HandOffOrder(s: RefState)
    requires !s.recycled && s.cacheRefs <= 0 && s.viewRefs == 1
    ensures Run(s, [ViewOp(true), ViewOp(false)]) == s
    ensures Run(s, [ViewOp(false), ViewOp(true)]).recycled
  {
  }

  /**
   * The counters are not clamped: releasing a reference that was never
   * taken drives the counter below zero.
   */
  lemma UnmatchedReleaseGoesNegative(s: RefState)
    requires s.viewRefs <= 0
    ensures Step(s, ViewOp(false)).viewRefs < 0
    ensures s.cacheRefs <= 0 ==> Step(s, ViewOp(false)).recycled
  {
  }

  // ---------------------------------------------------------------------
  // The wrapper object
  // ---------------------------------------------------------------------

  class BitmapWrapper {
    /** mKey: the cache key, null for wrappers built without one. */
    const key: Option<string>
    /** mBitmap. */
    const bitmap: Bitmap
    /** mCacheRefCount. */
    var cacheRefCount: int
    /** mImageViewRefCount. */
    var imageViewRefCount: int
    /** Bitmap.isRecycled() of the wrapped bitmap. */
    var recycled: bool
    /** How many times Bitmap.recycle() has been called on the wrapped bitmap. */
    ghost var recycleCalls: nat

    /** The bitmap is recycled exactly when recycle() was called on it, and then only once. */
    ghost predicate Valid()
      reads this
    {
      recycleCalls == (if recycled then 1 else 0)
    }

    function State(): RefState
      reads this
    {
      RefState(cacheRefCount, imageViewRefCount, recycled)
    }

    /** BitmapWrapper(key, bitmap) for a non-null bitmap. */
    constructor(key: Option<string>, bitmap: Bitmap)
      ensures Valid()
      ensures this.key == key && this.bitmap == bitmap
      ensures State() == RefState(0, 0, false)
    {
      this.key := key;
      this.bitmap := bitmap;
      cacheRefCount := 0;
      imageViewRefCount := 0;
      recycled := false;
      recycleCalls := 0;
    }

    /** The BitmapWrapper constructors, including the rejection of a null bitmap. */
    static method Create(key: Option<string>, bitmap: Option<Bitmap>) returns (r: Result<BitmapWrapper, Exception>)
      ensures r.Failure? <==> bitmap.None?
      ensures r.Failure? ==> r.error == IllegalArgument
      ensures r.Success? ==> fresh(r.value) && r.value.Valid() && r.value.key == key
                             && Some(r.value.bitmap) == bitmap && r.value.State() == RefState(0, 0, false)
    {
      if bitmap.None? {
        return Failure(IllegalArgument);
      }
      var w := new BitmapWrapper(key, bitmap.value);
      return Success(w);
    }

    /** isReferencedByCache. */
    predicate IsReferencedByCache()
      reads this
      ensures IsReferencedByCache() <==> State().cacheRefs > 0
      ensures IsReferencedByCache() ==> !Unreferenced(State())
    {
      cacheRefCount > 0
    }

    /** isBeingDisplayed. */
    predicate IsBeingDisplayed()
      reads this
      ensures IsBeingDisplayed() <==> State().viewRefs > 0
      ensures IsBeingDisplayed() ==> !Unreferenced(State())
    {
      imageViewRefCount > 0
    }

    /** hasValidBitmap. */
    predicate HasValidBitmap()
      reads this
      ensures HasValidBitmap() <==> !State().recycled
      ensures Valid() ==> (HasValidBitmap() <==> recycleCalls == 0)
    {
      !recycled
    }

    /** setCached: move the cache counter by one, then check the counters. */
    method SetCached(cached: bool)
      requires Valid()
      modifies this
      ensures Valid()
      ensures State() == Step(old(State()), CacheOp(cached))
    {
      if cached {
        cacheRefCount := cacheRefCount + 1;
      } else {
        cacheRefCount := cacheRefCount - 1;
      }
      CheckRefCount();
    }

    /** setBeingUsed: move the image-view counter by one, then check the counters. */
    method SetBeingUsed(used: bool)
      requires Valid()
      modifies this
      ensures Valid()
      ensures State() == Step(old(State()), ViewOp(used))
    {
      if used {
        imageViewRefCount := imageViewRefCount + 1;
      } else {
        imageViewRefCount := imageViewRefCount - 1;
      }
      CheckRefCount();
    }

    /** checkRefCount: recycle a still valid bitmap once neither counter is positive. */
    method CheckRefCount()
      requires Valid()
      modifies this
      ensures Valid()
      ensures cacheRefCount == old(cacheRefCount) && imageViewRefCount == old(imageViewRefCount)
      ensures recycled <==> old(recycled) || Unreferenced(State())
      ensures recycleCalls == old(recycleCalls) + (if recycled && !old(recycled) then 1 else 0)
    {
      if cacheRefCount <= 0 && imageViewRefCount <= 0 && !recycled {
        Recycle();
      }
    }

    /** Bitmap.recycle() on the wrapped bitmap. */
    method Recycle()
      modifies this
      ensures recycled && recycleCalls == old(recycleCalls) + 1
      ensures cacheRefCount == old(cacheRefCount) && imageViewRefCount == old(imageViewRefCount)
    {
      recycled := true;
      recycleCalls := recycleCalls + 1;
    }
  }
}
