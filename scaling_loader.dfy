/**
 * bitmaps/ScalingBitmapLoader.java: the L1/L2 loader for local resources.
 * The resource id travels through the loader's url parameter as
 * Integer.toHexString and is parsed back with Integer.valueOf(url, 16).
 */
module ScalingLoaders {
  import opened JavaLang
  import opened BitmapRefs

  /** DISK_CACHE_SUBDIR. */
  const DISK_CACHE_SUBDIR: string := "bitmaps/local"

  /** getDiskCacheName: the L2 cache lives in the local directory under the bitmaps cache root. */
  function DiskCacheName(): (name: string)
    ensures name == DISK_CACHE_SUBDIR
    ensures |name| > 8 && name[..8] == "bitmaps/" && '/' !in name[8..]
  {
    DISK_CACHE_SUBDIR
  }

  /** The url load(view, resId) passes on: the id in lower-case hexadecimal, two's complement for negatives. */
  function ResourceUrl(resId: int): (url: string)
    requires IsInt(resId)
    ensures 1 <= |url| <= 8
  {
    ToHexString(resId)
  }

  /**
   * loadMissingBitmap: parse the url back into a resource id (a
   * NumberFormatException escapes for a url that does not parse), then
   * decode it; decode stands for decodeSampledBitmapFromResource at the
   * requested size, null on failure.  The wrapper is built under the key
   * from the returned bitmap.
   */
  function LoadMissing(url: string, decode: int -> Option<Bitmap>): (r: Result<Option<Bitmap>, Exception>)
    ensures ParseInt(url, 16).Failure? ==> r == Failure(NumberFormat)
    ensures ParseInt(url, 16).Success? ==> r == Success(decode(ParseInt(url, 16).value))
  {
    match ParseInt(url, 16)
    case Failure(e) => Failure(e)
    case Success(id) => Success(decode(id))
  }

  /** A non-negative resource id survives the round trip through its url. */
  lemma ResourceUrlRoundTrip(resId: int, decode: int -> Option<Bitmap>)
    requires 0 <= resId <= INT_MAX
    ensures ParseInt(ResourceUrl(resId), 16) == Success(resId)
    ensures LoadMissing(ResourceUrl(resId), decode) == Success(decode(resId))
  {
    HexRoundTrip(resId);
  }

  /** A negative id prints above 0x7fffffff, which the parse rejects: the task fails with NumberFormatException. */
  lemma NegativeResourceRejected(resId: int, decode: int -> Option<Bitmap>)
    requires INT_MIN <= resId < 0
    ensures LoadMissing(ResourceUrl(resId), decode) == Failure(NumberFormat)
  {
    HexRoundTrip(resId);
  }
}
