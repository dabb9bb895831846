/**
 * bitmaps/BitmapUtils.java, calculateInSampleSize: the power-free sample
 * size used to decode an image no larger than about twice the requested
 * pixel count.  The int products and the increment wrap as in Java; the
 * float quotients are compared exactly (see README).
 */
module Sampling {
  import opened JavaLang

  /** Math.round(a / b) for b > 0: round half up. */
  function RoundDiv(a: int, b: int): (r: int)
    requires b > 0
    ensures 2 * b * r <= 2 * a + b < 2 * b * (r + 1)
  {
    (2 * a + b) / (2 * b)
  }

  /**
   * Math.round((float) a / (float) b) for a divisor b >= 0.  A zero divisor
   * gives +Infinity, NaN or -Infinity, which Math.round turns into
   * Integer.MAX_VALUE, 0 and Integer.MIN_VALUE.
   */
  function RoundQuotient(a: int, b: int): (r: int)
    requires IsInt(a) && b >= 0
    ensures IsInt(r)
    ensures b > 0 ==> 2 * b * r <= 2 * a + b < 2 * b * (r + 1)
    ensures b == 0 ==> (r == INT_MAX <==> a > 0) && (r == 0 <==> a == 0) && (r == INT_MIN <==> a < 0)
    ensures a >= 0 ==> r >= 0
  {
    if b > 0 then
      RoundDivBounds(a, b);
      RoundDiv(a, b)
    else if a > 0 then INT_MAX
    else if a == 0 then 0
    else INT_MIN
  }

  /** A product of two non-negative numbers is non-negative. */
  lemma MulNonNegative(x: int, y: int)
    requires x >= 0 && y >= 0
    ensures x * y >= 0
  {
  }

  /** Comparing two multiples of the same positive number compares the factors. */
  lemma LessFactor(x: int, y: int, z: int)
    requires x > 0 && x * y < x * z
    ensures y < z
  {
    if y >= z {
      assert x * y - x * z == x * (y - z);
      MulNonNegative(x, y - z);
    }
  }

  /** Rounding a quotient by b >= 1 moves towards zero but never past it. */
  lemma RoundDivBounds(a: int, b: int)
    requires b > 0
    ensures a >= 0 ==> 0 <= RoundDiv(a, b) <= a
    ensures a < 0 ==> a <= RoundDiv(a, b) <= 0
  {
    var r := RoundDiv(a, b);
    var x := 2 * b;
    assert x * r <= 2 * a + b < x * (r + 1);
    if a >= 0 {
      RoundNonNegative(a, b, x, r);
    } else {
      RoundNegative(a, b, x, r);
    }
  }

  lemma RoundNonNegative(a: int, b: int, x: int, r: int)
    requires a >= 0 && b > 0 && x == 2 * b && x * r <= 2 * a + b < x * (r + 1)
    ensures 0 <= r <= a
  {
    assert x * 0 < x * (r + 1);
    LessFactor(x, 0, r + 1);
    MulNonNegative(2 * a, b - 1);
    assert x * r < x * (a + 1) by {
      assert x * (a + 1) == 2 * a * (b - 1) + 2 * a + x;
    }
    LessFactor(x, r, a + 1);
  }

  lemma RoundNegative(a: int, b: int, x: int, r: int)
    requires a < 0 && b > 0 && x == 2 * b && x * r <= 2 * a + b < x * (r + 1)
    ensures a <= r <= 0
  {
    assert x * r < x * 1;
    LessFactor(x, r, 1);
    MulNonNegative(-2 * a, b - 1);
    assert x * a < x * (r + 1) by {
      assert x * a == 2 * a - (-2 * a) * (b - 1);
    }
    LessFactor(x, a, r + 1);
  }

  /** The sample size the search starts from: the ratio along the shorter axis. */
  function StartSample(width: int, height: int, reqWidth: int, reqHeight: int): (r: int)
    requires IsInt(width) && IsInt(height) && reqWidth >= 0 && reqHeight >= 0
    ensures IsInt(r)
  {
    if width > height then RoundQuotient(height, reqHeight) else RoundQuotient(width, reqWidth)
  }

  /**
   * The loop condition totalPixels / (s * s) > totalReqPixelsCap, where
   * s * s is an int product that wraps.  Over a negative square the
   * comparison flips; over a zero square the float division gives
   * +Infinity for a positive pixel count, which exceeds any cap, and NaN
   * or -Infinity otherwise, which does not.
   */
  predicate TooLarge(pixels: int, cap: int, s: int)
  {
    var q := WrapInt(s * s);
    if q > 0 then pixels > cap * q
    else if q < 0 then pixels < cap * q
    else pixels > 0
  }

  /** The sample size tried at step t of the search from start: start + t in int arithmetic. */
  function Candidate(start: int, t: int): (s: int)
    ensures IsInt(s) && (s - (start + t)) % TWO_32 == 0
  {
    WrapInt(start + t)
  }

  /** Whether the image needs downsampling at all. */
  predicate NeedsDownsampling(width: int, height: int, reqWidth: int, reqHeight: int)
  {
    height > reqHeight || width > reqWidth
  }

  /** The least positive int whose int square wraps to a negative value. */
  const FIRST_NEGATIVE_SQUARE: int := 46341

  /** A sample size at which the search is bound to stop, whatever the (non-negative) cap. */
  function Stopper(pixels: int): (z: int)
    ensures IsInt(z)
  {
    if pixels > 0 then FIRST_NEGATIVE_SQUARE else 0
  }

  lemma StopperStops(pixels: int, cap: int)
    requires cap >= 0
    ensures !TooLarge(pixels, cap, Stopper(pixels))
  {
    if pixels > 0 {
      assert FIRST_NEGATIVE_SQUARE * FIRST_NEGATIVE_SQUARE == 2147488281;
      assert WrapInt(2147488281) == 2147488281 - TWO_32 by {
        WrapIntCongruent(2147488281, 2147488281 - TWO_32);
      }
      assert cap * (2147488281 - TWO_32) <= 0;
    }
  }

  /** One wrapped increment brings s one step closer to z, counted upwards modulo 2^32. */
  lemma StepCloser(s: int, z: int)
    requires IsInt(s) && IsInt(z) && s != z
    ensures (z - WrapInt(s + 1)) % TWO_32 == (z - s) % TWO_32 - 1
  {
    var d := (z - s) % TWO_32;
    assert d != 0 by {
      if z > s {
        assert (z - s) % TWO_32 == z - s;
      } else {
        assert (z - s) % TWO_32 == z - s + TWO_32 by {
          ModuloShift(z - s, 1);
        }
      }
    }
    var k := (z - s) / TWO_32;
    assert z - s == k * TWO_32 + d;
    var w := WrapInt(s + 1);
    var m := (s + 1 - w) / TWO_32;
    assert s + 1 == w + m * TWO_32;
    assert z - w == (d - 1) + (k + m) * TWO_32;
    ModuloShift(d - 1, k + m);
  }

  /** A zero sample size never ends the search over a non-empty image. */
  lemma ZeroTooLarge(pixels: int, cap: int)
    requires pixels > 0
    ensures TooLarge(pixels, cap, 0)
  {
    assert WrapInt(0 * 0) == 0;
  }

  /** One step of the search: the next candidate is the wrapped increment, closer to the stopper. */
  lemma Advance(pixels: int, cap: int, start: int, k: nat, s: int)
    requires cap >= 0 && IsInt(s) && s == Candidate(start, k) && TooLarge(pixels, cap, s)
    ensures WrapInt(s + 1) == Candidate(start, k + 1)
    ensures (Stopper(pixels) - WrapInt(s + 1)) % TWO_32 < (Stopper(pixels) - s) % TWO_32
    ensures pixels > 0 && 0 <= start <= s <= FIRST_NEGATIVE_SQUARE ==> WrapInt(s + 1) == s + 1 <= FIRST_NEGATIVE_SQUARE
  {
    StopperStops(pixels, cap);
    StepCloser(s, Stopper(pixels));
    WrapIntCongruent(s + 1, start + k + 1);
  }

  /**
   * What the search result means in pixels: a positive sample size whose
   * square does not wrap brings the image within twice the requested
   * pixel count.
   */
  lemma SearchResult(pixels: int, reqWidth: int, reqHeight: int, s: int)
    requires !TooLarge(pixels, reqWidth * reqHeight * 2, s)
    requires 0 < s && s * s <= INT_MAX
    ensures pixels <= 2 * reqWidth * reqHeight * (s * s)
  {
    assert WrapInt(s * s) == s * s;
    assert reqWidth * reqHeight * 2 * (s * s) == 2 * reqWidth * reqHeight * (s * s);
  }

  /**
   * calculateInSampleSize: 1 when the image already fits; otherwise the
   * first sample size, counting up from the start value with int
   * wrap-around, at which the image is not too large.
   */
  method CalculateInSampleSize(width: int, height: int, reqWidth: int, reqHeight: int) returns (s: int)
    requires IsInt(width) && IsInt(height) && IsInt(reqWidth) && IsInt(reqHeight)
    requires 0 <= reqWidth && 0 <= reqHeight && reqWidth * reqHeight * 2 <= INT_MAX
    ensures IsInt(s)
    ensures !NeedsDownsampling(width, height, reqWidth, reqHeight) ==> s == 1
    ensures NeedsDownsampling(width, height, reqWidth, reqHeight) ==>
              var start := StartSample(width, height, reqWidth, reqHeight);
              var pixels := WrapInt(width * height);
              var cap := reqWidth * reqHeight * 2;
              !TooLarge(pixels, cap, s)
              && exists k: nat :: s == Candidate(start, k)
                                  && forall t :: 0 <= t < k ==> TooLarge(pixels, cap, Candidate(start, t))
    ensures NeedsDownsampling(width, height, reqWidth, reqHeight) && 0 < s && s * s <= INT_MAX ==>
              WrapInt(width * height) <= 2 * reqWidth * reqHeight * (s * s)
    ensures NeedsDownsampling(width, height, reqWidth, reqHeight) && WrapInt(width * height) > 0
            && 0 <= StartSample(width, height, reqWidth, reqHeight) <= FIRST_NEGATIVE_SQUARE ==>
              StartSample(width, height, reqWidth, reqHeight) <= s <= FIRST_NEGATIVE_SQUARE && s >= 1
  {
    s := 1;
    if height > reqHeight || width > reqWidth {
      s := StartSample(width, height, reqWidth, reqHeight);
      var pixels := WrapInt(width * height);
      var cap := reqWidth * reqHeight * 2;
      ghost var start := s;
      ghost var k: nat := 0;
      ghost var z := Stopper(pixels);
      while TooLarge(pixels, cap, s)
        invariant s == Candidate(start, k)
        invariant forall t :: 0 <= t < k ==> TooLarge(pixels, cap, Candidate(start, t))
        invariant pixels > 0 && 0 <= start <= FIRST_NEGATIVE_SQUARE ==> start <= s <= FIRST_NEGATIVE_SQUARE
        decreases (z - s) % TWO_32
      {
        Advance(pixels, cap, start, k, s);
        s := WrapInt(s + 1);
        k := k + 1;
      }
      assert s == Candidate(start, k) && forall t :: 0 <= t < k ==> TooLarge(pixels, cap, Candidate(start, t));
      if 0 < s && s * s <= INT_MAX {
        SearchResult(pixels, reqWidth, reqHeight, s);
      }
      if pixels > 0 {
        ZeroTooLarge(pixels, cap);
      }
    }
  }

  // ---------------------------------------------------------------------
  // A view with no size yet
  // ---------------------------------------------------------------------

  /** Counting up from Integer.MAX_VALUE, step t (t >= 1) lands on Integer.MIN_VALUE + t - 1. */
  lemma WrapPastMax(t: int)
    requires 1 <= t <= FIRST_NEGATIVE_SQUARE + 1
    ensures Candidate(INT_MAX, t) == INT_MIN + t - 1
  {
    WrapIntCongruent(INT_MAX + t, INT_MIN + t - 1);
  }

  /** Near Integer.MIN_VALUE the int square of MIN_VALUE + j is j * j. */
  lemma SquareNearMin(j: int)
    requires 0 <= j <= FIRST_NEGATIVE_SQUARE
    ensures WrapInt((INT_MIN + j) * (INT_MIN + j)) == WrapInt(j * j)
  {
    assert (INT_MIN + j) * (INT_MIN + j) == j * j + TWO_32 * (0x4000_0000 - j);
    WrapIntCongruent((INT_MIN + j) * (INT_MIN + j), j * j);
  }

  /** Below the first negative square, squares are ints. */
  lemma SmallSquare(j: int)
    requires 0 <= j < FIRST_NEGATIVE_SQUARE
    ensures 0 <= j * j <= 46340 * 46340 && WrapInt(j * j) == j * j
  {
    MulNonNegative(j, j);
    MulNonNegative(46340 - j, 46340 + j);
    assert (46340 - j) * (46340 + j) == 46340 * 46340 - j * j;
  }

  /** Before the first negative square every candidate is too large for a zero cap. */
  lemma TooLargeUnsized(pixels: int, t: int)
    requires pixels > 0 && 0 <= t <= FIRST_NEGATIVE_SQUARE
    ensures TooLarge(pixels, 0, Candidate(INT_MAX, t))
  {
    var c := Candidate(INT_MAX, t);
    if t == 0 {
      assert c == INT_MAX;
      assert INT_MAX * INT_MAX == 1 + TWO_32 * 0x3fff_ffff;
      WrapIntCongruent(INT_MAX * INT_MAX, 1);
      assert WrapInt(c * c) == 1;
    } else {
      var j := t - 1;
      WrapPastMax(t);
      assert c == INT_MIN + j;
      SquareNearMin(j);
      SmallSquare(j);
      assert WrapInt(c * c) == j * j;
    }
  }

  /** The first negative square near Integer.MIN_VALUE stops the search for a zero cap. */
  lemma StopsUnsized(pixels: int)
    requires pixels > 0
    ensures !TooLarge(pixels, 0, Candidate(INT_MAX, FIRST_NEGATIVE_SQUARE + 1))
  {
    var c := Candidate(INT_MAX, FIRST_NEGATIVE_SQUARE + 1);
    WrapPastMax(FIRST_NEGATIVE_SQUARE + 1);
    assert c == INT_MIN + FIRST_NEGATIVE_SQUARE;
    SquareNearMin(FIRST_NEGATIVE_SQUARE);
    StopperStops(pixels, 0);
    assert WrapInt(c * c) == WrapInt(FIRST_NEGATIVE_SQUARE * FIRST_NEGATIVE_SQUARE);
  }

  /**
   * A view that has not been laid out yet requests 0x0.  For a non-empty
   * image the search then starts from Math.round(+Infinity), that is
   * Integer.MAX_VALUE, wraps around and stops at the first int whose
   * square wraps negative: the sample size is Integer.MIN_VALUE + 46341.
   */
  lemma UnsizedRequest(width: int, height: int, k: nat)
    requires IsInt(width) && IsInt(height) && width > 0 && height > 0 && WrapInt(width * height) > 0
    requires forall t :: 0 <= t < k ==> TooLarge(WrapInt(width * height), 0, Candidate(StartSample(width, height, 0, 0), t))
    requires !TooLarge(WrapInt(width * height), 0, Candidate(StartSample(width, height, 0, 0), k))
    ensures StartSample(width, height, 0, 0) == INT_MAX
    ensures Candidate(StartSample(width, height, 0, 0), k) == INT_MIN + FIRST_NEGATIVE_SQUARE
  {
    var pixels := WrapInt(width * height);
    if k <= FIRST_NEGATIVE_SQUARE {
      TooLargeUnsized(pixels, k);
      assert false;
    } else if k > FIRST_NEGATIVE_SQUARE + 1 {
      StopsUnsized(pixels);
      assert false;
    }
    WrapPastMax(k);
  }
}
