/**
 * ui/CacheableImageView.java: an image view that takes a view reference on
 * the wrapper it displays and gives it back when the content is replaced,
 * reset or the view is detached.
 *
 * The android.widget.ImageView base class is modelled by the content it
 * shows and by the two tag slots the bitmap loaders write.
 */
module ImageViews {
  import opened JavaLang
  import opened BitmapRefs

  /** What an ImageView draws. */
  datatype Drawable =
    | NoDrawable                 // setImageDrawable(null)
    | BitmapImage(bitmap: Bitmap) // a BitmapDrawable over a bitmap
    | ResourceImage(resId: int)   // a drawable loaded from a resource id

  /**
   * Re-displaying a wrapper that still holds some reference takes a view
   * reference and gives it back without recycling it on the way.
   */
  lemma RedisplayKeepsState(s: RefState)
    requires !s.recycled && (s.viewRefs >= 1 || s.cacheRefs >= 1)
    ensures Run(s, [ViewOp(true), ViewOp(false)]) == s
  {
    var ops := [ViewOp(true), ViewOp(false)];
    assert ops[1..] == [ViewOp(false)] && ops[1..][1..] == [];
  }

  /** The view tag ids the loaders write: R.id.iv_avatar_tag and R.id.iv_banner. */
  datatype TagSlot = AvatarSlot | BannerSlot

  class CacheableImageView {
    /** getWidth() and getHeight() at the time a loader reads them. */
    const width: int
    const height: int
    /** The content the base view draws. */
    var drawable: Drawable
    /** mDisplayedBitmapWrapper. */
    var displayed: Option<BitmapWrapper>
    /** The tag stored under R.id.iv_avatar_tag. */
    var avatarTag: Option<string>
    /** The tag stored under R.id.iv_banner. */
    var bannerTag: Option<string>

    /** The wrapper this view records, as a set. */
    function Shown(): set<BitmapWrapper>
      reads this
    {
      if displayed.Some? then {displayed.value} else {}
    }

    /** The recorded wrapper keeps its own invariant. */
    ghost predicate Valid()
      reads this, Shown()
    {
      displayed.Some? ==> displayed.value.Valid()
    }

    /** CacheableImageView(context) and CacheableImageView(context, attrs). */
    constructor(width: int, height: int)
      ensures Valid()
      ensures this.width == width && this.height == height
      ensures drawable == NoDrawable && displayed == None && avatarTag == None && bannerTag == None
    {
      this.width := width;
      this.height := height;
      drawable := NoDrawable;
      displayed := None;
      avatarTag := None;
      bannerTag := None;
    }

    /** getCachedBitmapWrapper: the last recorded wrapper, None after a release. */
    function CachedBitmapWrapper(): (w: Option<BitmapWrapper>)
      reads this
      ensures w.None? <==> Shown() == {}
      ensures w.Some? ==> Shown() == {w.value}
    {
      displayed
    }

    /** getTag(id) for the two tag ids the loaders use. */
    function Tag(slot: TagSlot): (tag: Option<string>)
      reads this
      ensures tag == if slot == AvatarSlot then avatarTag else bannerTag
    {
      match slot
      case AvatarSlot => avatarTag
      case BannerSlot => bannerTag
    }

    /** setTag(id, tag): only the slot named changes. */
    method SetTag(slot: TagSlot, tag: Option<string>)
      modifies this
      ensures Tag(slot) == tag
      ensures slot == AvatarSlot ==> bannerTag == old(bannerTag)
      ensures slot == BannerSlot ==> avatarTag == old(avatarTag)
      ensures drawable == old(drawable) && displayed == old(displayed)
    {
      match slot
      case AvatarSlot => avatarTag := tag;
      case BannerSlot => bannerTag := tag;
    }

    /** resetCachedBitmap: give back the recorded wrapper's view reference, once, and forget it. */
    method ResetCachedBitmap()
      requires Valid()
      modifies this, Shown()
      ensures Valid() && displayed == None
      ensures drawable == old(drawable) && avatarTag == old(avatarTag) && bannerTag == old(bannerTag)
      ensures old(displayed).Some? ==>
                var w := old(displayed.value);
                w.Valid() && w.State() == Step(old(w.State()), ViewOp(false))
    {
      if displayed.Some? {
        displayed.value.SetBeingUsed(false);
        displayed := None;
      }
    }

    /** setImageDrawable: show the drawable, then release the recorded wrapper. */
    method SetImageDrawable(d: Drawable)
      requires Valid()
      modifies this, Shown()
      ensures Valid() && drawable == d && displayed == None
      ensures avatarTag == old(avatarTag) && bannerTag == old(bannerTag)
      ensures old(displayed).Some? ==>
                var w := old(displayed.value);
                w.Valid() && w.State() == Step(old(w.State()), ViewOp(false))
    {
      drawable := d;
      ResetCachedBitmap();
    }

    /** setImageResource: show the resource, then release the recorded wrapper. */
    method SetImageResource(resId: int)
      requires Valid()
      modifies this, Shown()
      ensures Valid() && drawable == ResourceImage(resId) && displayed == None
      ensures avatarTag == old(avatarTag) && bannerTag == old(bannerTag)
      ensures old(displayed).Some? ==>
                var w := old(displayed.value);
                w.Valid() && w.State() == Step(old(w.State()), ViewOp(false))
    {
      drawable := ResourceImage(resId);
      ResetCachedBitmap();
    }

    /** onDetachedFromWindow: setImageDrawable(null), so the wrapper can be recycled. */
    method OnDetachedFromWindow()
      requires Valid()
      modifies this, Shown()
      ensures Valid() && drawable == NoDrawable && displayed == None
      ensures avatarTag == old(avatarTag) && bannerTag == old(bannerTag)
      ensures old(displayed).Some? ==>
                var w := old(displayed.value);
                w.Valid() && w.State() == Step(old(w.State()), ViewOp(false))
    {
      SetImageDrawable(NoDrawable);
    }

    /**
     * setImageCachedBitmap: a wrapper with a valid bitmap first takes a view
     * reference and is drawn, and only then is the previous wrapper
     * released; a null or recycled wrapper just clears the content.  Either
     * way the argument becomes the recorded wrapper.
     */
    method SetImageCachedBitmap(wrapper: Option<BitmapWrapper>)
      requires Valid() && (wrapper.Some? ==> wrapper.value.Valid())
      modifies this, Shown(), if wrapper.Some? then {wrapper.value} else {}
      ensures Valid() && displayed == wrapper
      ensures avatarTag == old(avatarTag) && bannerTag == old(bannerTag)
      ensures wrapper.Some? && !old(wrapper.value.recycled) ==> drawable == BitmapImage(wrapper.value.bitmap)
      ensures wrapper.None? || old(wrapper.value.recycled) ==> drawable == NoDrawable
      // the new wrapper, when valid, takes its reference before the previous one is released
      ensures wrapper.Some? && !old(wrapper.value.recycled) && old(displayed) == wrapper ==>
                wrapper.value.State() == Run(old(wrapper.value.State()), [ViewOp(true), ViewOp(false)])
      ensures wrapper.Some? && !old(wrapper.value.recycled) && old(displayed) != wrapper ==>
                wrapper.value.State() == Step(old(wrapper.value.State()), ViewOp(true))
      ensures (wrapper.None? || old(wrapper.value.recycled)) && old(displayed) == wrapper && wrapper.Some? ==>
                wrapper.value.State() == Step(old(wrapper.value.State()), ViewOp(false))
      ensures (wrapper.None? || old(wrapper.value.recycled)) && old(displayed) != wrapper && wrapper.Some? ==>
                wrapper.value.State() == old(wrapper.value.State())
      ensures old(displayed).Some? && old(displayed) != wrapper ==>
                var w := old(displayed.value);
                w.Valid() && w.State() == Step(old(w.State()), ViewOp(false))
    {
      if wrapper.Some? && wrapper.value.HasValidBitmap() {
        ghost var s := wrapper.value.State();
        wrapper.value.SetBeingUsed(true);
        assert wrapper.value.State() == Run(s, [ViewOp(true)]);
        SetImageDrawable(BitmapImage(wrapper.value.bitmap));
      } else {
        SetImageDrawable(NoDrawable);
      }
      displayed := wrapper;
    }

    /** setImageBitmap: wrap the raw bitmap in a wrapper without a key and display it. */
    method SetImageBitmap(bm: Option<Bitmap>) returns (r: Outcome<Exception>)
      requires Valid()
      modifies this, Shown()
      ensures Valid()
      ensures bm.None? ==> r == Fail(IllegalArgument) && unchanged(this) && unchanged(Shown())
      ensures bm.Some? ==> r == Pass && displayed.Some? && fresh(displayed.value)
                           && displayed.value.key.None? && displayed.value.bitmap == bm.value
                           && displayed.value.State() == RefState(0, 1, false)
                           && drawable == BitmapImage(bm.value)
      ensures avatarTag == old(avatarTag) && bannerTag == old(bannerTag)
      ensures bm.Some? && old(displayed).Some? ==>
                var w := old(displayed.value);
                w.Valid() && w.State() == Step(old(w.State()), ViewOp(false))
    {
      var created := BitmapWrapper.Create(None, bm);
      if created.Failure? {
        return Fail(created.error);
      }
      SetImageCachedBitmap(Some(created.value));
      return Pass;
    }
  }
}
