/**
 * The memory- and disk-cache keys of the bitmap loaders.
 *
 * bitmaps/AbstractBitmapLoader.java, getBitmapKey: SHA-1 over the UTF-8
 * bytes of "url::WxH", printed as a 40-digit lower-case hexadecimal number.
 * SHA-1 (FIPS 180-4) is a parameter of the model: any function from byte
 * strings to 20-byte digests.
 *
 * bitmaps/SimpleBitmapLoader.java: the key "local:" followed by the
 * decimal resource id.
 */
module BitmapKeys {
  import opened JavaLang

  /** HASH_LENGTH: the hexadecimal digits of a SHA-1 digest. */
  const HASH_LENGTH: nat := 40

  type byte = b: int | 0 <= b < 256

  /** A SHA-1 digest: twenty bytes. */
  type Digest = d: seq<byte> | |d| == 20 witness seq(20, i => 0)

  // ---------------------------------------------------------------------
  // The string that is hashed
  // ---------------------------------------------------------------------

  /** new StringBuilder(url).append("::").append(width).append('x').append(height). */
  function KeySource(url: string, width: int, height: int): string
  {
    url + "::" + ToDecimal(width) + "x" + ToDecimal(height)
  }

  /** Where one split point lies before the other, the later separator falls inside the earlier suffix. */
  lemma SeparatorInSuffix(p: string, c: char, s: string, p': string, s': string)
    requires p + [c] + s == p' + [c] + s'
    ensures |p'| < |p| ==> c in s'
  {
    if |p'| < |p| {
      var whole := p + [c] + s;
      assert s'[|p| - |p'| - 1] == whole[|p|];
    }
  }

  /** A separator that does not occur after it splits a string in one way only. */
  lemma SplitAtLast(p: string, c: char, s: string, p': string, s': string)
    requires p + [c] + s == p' + [c] + s'
    requires c !in s && c !in s'
    ensures p == p' && s == s'
  {
    var whole := p + [c] + s;
    SeparatorInSuffix(p, c, s, p', s');
    SeparatorInSuffix(p', c, s', p, s);
    assert p == whole[..|p|] == p';
    assert s == whole[|p| + 1..] == s';
  }

  /**
   * Distinct (url, width, height) triples give distinct key sources: the
   * decimal numbers contain neither 'x' nor ':', so the last 'x' and the
   * ':' before it recover all three.
   */
  lemma KeySourceInjective(url1: string, w1: int, h1: int, url2: string, w2: int, h2: int)
    requires KeySource(url1, w1, h1) == KeySource(url2, w2, h2)
    ensures url1 == url2 && w1 == w2 && h1 == h2
  {
    var d1, e1 := ToDecimal(w1), ToDecimal(h1);
    var d2, e2 := ToDecimal(w2), ToDecimal(h2);
    assert KeySource(url1, w1, h1) == (url1 + "::" + d1) + ['x'] + e1;
    assert KeySource(url2, w2, h2) == (url2 + "::" + d2) + ['x'] + e2;
    SplitAtLast(url1 + "::" + d1, 'x', e1, url2 + "::" + d2, e2);
    assert url1 + "::" + d1 == (url1 + ":") + [':'] + d1;
    assert url2 + "::" + d2 == (url2 + ":") + [':'] + d2;
    SplitAtLast(url1 + ":", ':', d1, url2 + ":", d2);
    assert url1 == (url1 + ":")[..|url1|];
    assert url2 == (url2 + ":")[..|url2|];
    ToDecimalInjective(w1, w2);
    ToDecimalInjective(h1, h2);
  }

  /** String.getBytes("UTF-8") for a sequence of Unicode scalar values. */
  function Utf8(s: string): seq<byte>
  {
    if |s| == 0 then []
    else
      var c := s[0] as int;
      var head: seq<byte> :=
        if c < 0x80 then [c]
        else if c < 0x800 then [0xC0 + c / 0x40, 0x80 + c % 0x40]
        else if c < 0x10000 then [0xE0 + c / 0x1000, 0x80 + c / 0x40 % 0x40, 0x80 + c % 0x40]
        else [0xF0 + c / 0x40000 % 8, 0x80 + c / 0x1000 % 0x40, 0x80 + c / 0x40 % 0x40, 0x80 + c % 0x40];
      head + Utf8(s[1..])
  }

  // ---------------------------------------------------------------------
  // Printing the digest
  // ---------------------------------------------------------------------

  /** new BigInteger(1, digest): the bytes as an unsigned big-endian number. */
  function BytesValue(d: seq<byte>): nat
  {
    if |d| == 0 then 0 else BytesValue(d[..|d| - 1]) * 256 + d[|d| - 1]
  }

  /** The value of n bytes is below 256^n. */
  lemma {:induction false} BytesValueBound(d: seq<byte>)
    ensures BytesValue(d) < Pow(256, |d|)
  {
    if |d| > 0 {
      var init := d[..|d| - 1];
      var v := BytesValue(init);
      BytesValueBound(init);
      assert v * 256 + 256 <= Pow(256, |init|) * 256;
      assert Pow(256, |d|) == 256 * Pow(256, |init|);
    }
  }

  function Zeros(n: nat): (s: string)
    ensures |s| == n && forall i :: 0 <= i < n ==> s[i] == '0'
  {
    if n == 0 then [] else Zeros(n - 1) + ['0']
  }

  /** The padding step: toString(16) of the value, left-padded with '0' to k digits. */
  function PaddedHex(v: nat, k: nat): (s: string)
    requires k >= 1 && v < Pow(16, k)
    ensures |s| == k
  {
    var hashed := ToBase(v, 16);
    ToBaseLength(v, 16, k);
    var padding := k - |hashed|;
    if padding == 0 then hashed else Zeros(padding) + hashed
  }

  /** getBitmapKey, with sha1 standing for MessageDigest.getInstance("SHA-1").digest. */
  function BitmapKey(url: string, width: int, height: int, sha1: seq<byte> -> Digest): (key: string)
    ensures |key| == HASH_LENGTH
    ensures key == HexBytes(sha1(Utf8(KeySource(url, width, height))))
  {
    var digest := sha1(Utf8(KeySource(url, width, height)));
    PaddedBytes(digest);
    PaddedHex(BytesValue(digest), 2 * |digest|)
  }

  // ---------------------------------------------------------------------
  // The reference rendering: two hexadecimal digits per byte
  // ---------------------------------------------------------------------

  /** Exactly k hexadecimal digits of n, most significant first. */
  function FixedHex(n: nat, k: nat): (s: string)
    ensures |s| == k
  {
    if k == 0 then [] else FixedHex(n / 16, k - 1) + [DigitChar(n % 16)]
  }

  /** Each byte printed as two lower-case hexadecimal digits, in order. */
  function HexBytes(d: seq<byte>): (s: string)
    ensures |s| == 2 * |d|
  {
    if |d| == 0 then []
    else
      var b := d[|d| - 1];
      HexBytes(d[..|d| - 1]) + [DigitChar(b / 16), DigitChar(b % 16)]
  }

  lemma DivUnique16(n: int, q: int, r: int)
    requires n == q * 16 + r && 0 <= r < 16
    ensures n / 16 == q && n % 16 == r
  {
  }

  /** Appending byte b to a value v appends b's two hexadecimal digits. */
  lemma ByteDigits(v: nat, b: byte)
    ensures (v * 256 + b) / 16 == v * 16 + b / 16 && (v * 256 + b) % 16 == b % 16
    ensures (v * 16 + b / 16) / 16 == v && (v * 16 + b / 16) % 16 == b / 16
  {
    DivUnique16(v * 256 + b, v * 16 + b / 16, b % 16);
    DivUnique16(v * 16 + b / 16, v, b / 16);
  }

  /** One more digit place for a value of at least one digit. */
  lemma DigitPlace(n: nat, k: nat)
    requires k >= 1 && 16 <= n < Pow(16, k)
    ensures k >= 2 && n / 16 < Pow(16, k - 1)
  {
    assert k != 1 by {
      assert Pow(16, 1) == 16;
    }
    DivBound(n, 16, Pow(16, k - 1));
  }

  /** One unfolding of FixedHex, stated apart from the arithmetic around it. */
  lemma FixedHexStep(n: nat, k: nat)
    ensures FixedHex(n, k + 1) == FixedHex(n / 16, k) + [DigitChar(n % 16)]
  {
  }

  lemma {:induction false} FixedHexZero(k: nat)
    ensures FixedHex(0, k) == Zeros(k)
  {
    if k > 0 {
      FixedHexZero(k - 1);
    }
  }

  /** One byte is two hexadecimal digits. */
  lemma {:induction false} PowSquare(k: nat)
    ensures Pow(256, k) == Pow(16, 2 * k)
  {
    if k > 0 {
      PowSquare(k - 1);
      assert Pow(16, 2 * k) == 16 * (16 * Pow(16, 2 * k - 2));
    }
  }

  /** Padding the shortest digits of n to k places is printing n in exactly k places. */
  lemma {:induction false} PaddedIsFixed(n: nat, k: nat)
    requires k >= 1 && n < Pow(16, k)
    ensures |ToBase(n, 16)| <= k
    ensures Zeros(k - |ToBase(n, 16)|) + ToBase(n, 16) == FixedHex(n, k)
    decreases k
  {
    ToBaseLength(n, 16, k);
    if n < 16 {
      DivUnique16(n, 0, n);
      assert ToBase(n, 16) == [DigitChar(n)];
      FixedHexZero(k - 1);
      assert FixedHex(n, k) == FixedHex(0, k - 1) + [DigitChar(n)];
      assert Zeros(k - 1) + [DigitChar(n)] == FixedHex(n, k);
    } else {
      var q := n / 16;
      DigitPlace(n, k);
      PaddedIsFixed(q, k - 1);
      var c := DigitChar(n % 16);
      var digits := ToBase(q, 16);
      assert ToBase(n, 16) == digits + [c];
      assert FixedHex(n, k) == FixedHex(q, k - 1) + [c];
      assert Zeros(k - |digits + [c]|) + (digits + [c]) == (Zeros(k - 1 - |digits|) + digits) + [c];
    }
  }

  /** Appending a byte to a value appends that byte's two digits to its fixed-width print. */
  lemma FixedHexByte(v: nat, b: byte, k: nat)
    ensures FixedHex(v * 256 + b, k + 2) == FixedHex(v, k) + [DigitChar(b / 16), DigitChar(b % 16)]
  {
    var n := v * 256 + b;
    ByteDigits(v, b);
    FixedHexStep(n / 16, k);
    FixedHexStep(n, k + 1);
  }

  /** Printing a byte string's value in two digits per byte gives each byte its own two digits. */
  lemma {:induction false} BytesHex(d: seq<byte>)
    ensures FixedHex(BytesValue(d), 2 * |d|) == HexBytes(d)
  {
    if |d| > 0 {
      var init := d[..|d| - 1];
      var b := d[|d| - 1];
      var v, k := BytesValue(init), 2 * |init|;
      var digits := [DigitChar(b / 16), DigitChar(b % 16)];
      calc {
        FixedHex(BytesValue(d), 2 * |d|);
        { assert BytesValue(d) == v * 256 + b && 2 * |d| == k + 2; }
        FixedHex(v * 256 + b, k + 2);
        { FixedHexByte(v, b, k); }
        FixedHex(v, k) + digits;
        { BytesHex(init); }
        HexBytes(init) + digits;
        HexBytes(d);
      }
    }
  }

  /** PaddedHex prints in exactly k places. */
  lemma PaddedFixed(v: nat, k: nat)
    requires k >= 1 && v < Pow(16, k)
    ensures PaddedHex(v, k) == FixedHex(v, k)
  {
    PaddedIsFixed(v, k);
    var hashed := ToBase(v, 16);
    assert Zeros(0) + hashed == hashed;
  }

  /** The padded value of a non-empty byte string is its bytes in two digits each. */
  lemma PaddedBytes(d: seq<byte>)
    requires |d| >= 1
    ensures BytesValue(d) < Pow(16, 2 * |d|)
    ensures PaddedHex(BytesValue(d), 2 * |d|) == HexBytes(d)
  {
    PowSquare(|d|);
    BytesValueBound(d);
    PaddedFixed(BytesValue(d), 2 * |d|);
    BytesHex(d);
  }

  // ---------------------------------------------------------------------
  // Local resource keys
  // ---------------------------------------------------------------------

  /** SimpleBitmapLoader's key: "local:" followed by the decimal resource id. */
  function LocalKey(resId: int): string
  {
    "local:" + ToDecimal(resId)
  }

  /** Distinct resource ids give distinct local keys. */
  lemma LocalKeyInjective(a: int, b: int)
    requires LocalKey(a) == LocalKey(b)
    ensures a == b
  {
    assert ToDecimal(a) == LocalKey(a)[6..];
    assert ToDecimal(b) == LocalKey(b)[6..];
    ToDecimalInjective(a, b);
  }
}
