/**
 * The Java vocabulary the rest of the model is written in: nullable values,
 * thrown exceptions, 32-bit arithmetic and the java.lang conversions between
 * integers and strings that the app relies on (Integer.toString,
 * Integer.toHexString, Integer.valueOf(s, 16), String.hashCode).
 */
module JavaLang {

  /** A Java reference that may be null. */
  datatype Option<T> = None | Some(value: T)

  /** A Java call that either returns a value or throws. */
  datatype Result<T, E> = Success(value: T) | Failure(error: E)

  /** A void Java call that either returns or throws. */
  datatype Outcome<E> = Pass | Fail(error: E)

  /** The exception classes the core throws, catches or routes. */
  datatype Exception =
    | IllegalArgument        // java.lang.IllegalArgumentException
    | IllegalState           // java.lang.IllegalStateException
    | NullPointer            // java.lang.NullPointerException
    | NumberFormat           // java.lang.NumberFormatException
    | UnsupportedOperation   // java.lang.UnsupportedOperationException
    | FileNotFound           // java.io.FileNotFoundException
    | IOError                // java.io.IOException
    | InterruptedIO          // java.io.InterruptedIOException
    | Interrupted            // java.lang.InterruptedException
    | JsonDeserializer       // the app's checked JsonDeserializerException
    | TimeFormat             // android.util.TimeFormatException, unchecked
    | IndexOutOfBounds       // java.lang.IndexOutOfBoundsException
    | SQLError               // android.database.SQLException
    | ClassCast              // java.lang.ClassCastException
    | OtherException         // any other subclass of java.lang.Exception

  /** The exceptions a `catch (IOException e)` clause catches. */
  predicate IsIOException(e: Exception)
  {
    e == IOError || e == InterruptedIO || e == FileNotFound
  }

  // ---------------------------------------------------------------------
  // 32-bit and 64-bit two's complement integers
  // ---------------------------------------------------------------------

  const TWO_32: int := 0x1_0000_0000
  const INT_MIN: int := -0x8000_0000
  const INT_MAX: int := 0x7fff_ffff
  const LONG_MIN: int := -0x8000_0000_0000_0000
  const LONG_MAX: int := 0x7fff_ffff_ffff_ffff

  predicate IsInt(x: int) { INT_MIN <= x <= INT_MAX }

  predicate IsLong(x: int) { LONG_MIN <= x <= LONG_MAX }

  /** The Java `int` that arithmetic producing the mathematical value x yields. */
  function WrapInt(x: int): (r: int)
    ensures IsInt(r)
    ensures (x - r) % TWO_32 == 0
    ensures IsInt(x) ==> r == x
  {
    (x - INT_MIN) % TWO_32 + INT_MIN
  }

  /** Wrapping only depends on the value modulo 2^32. */
  lemma WrapIntCongruent(x: int, y: int)
    requires (x - y) % TWO_32 == 0
    ensures WrapInt(x) == WrapInt(y)
  {
    var k := (x - y) / TWO_32;
    assert x - INT_MIN == (y - INT_MIN) + k * TWO_32;
    ModuloShift(y - INT_MIN, k);
  }

  lemma ModuloShift(a: int, k: int)
    ensures (a + k * TWO_32) % TWO_32 == a % TWO_32
  {
    var q := a / TWO_32;
    var r := a % TWO_32;
    assert a + k * TWO_32 == (q + k) * TWO_32 + r;
  }

  // ---------------------------------------------------------------------
  // Digits in a radix
  // ---------------------------------------------------------------------

  /** Character.forDigit for radix up to 16: lower-case letters. */
  function DigitChar(d: nat): (c: char)
    requires d < 16
    ensures c != '-' && c != '+' && c != ':' && c != 'x'
  {
    "0123456789abcdef"[d]
  }

  /** Character.digit restricted to ASCII digits and letters. */
  function DigitValue(c: char): nat
  {
    if '0' <= c <= '9' then c as int - '0' as int
    else if 'a' <= c <= 'z' then c as int - 'a' as int + 10
    else if 'A' <= c <= 'Z' then c as int - 'A' as int + 10
    else 36
  }

  predicate IsDigit(c: char, radix: nat) { DigitValue(c) < radix }

  predicate AllDigits(s: string, radix: nat)
  {
    forall i :: 0 <= i < |s| ==> IsDigit(s[i], radix)
  }

  lemma DigitCharValue(d: nat)
    requires d < 16
    ensures DigitValue(DigitChar(d)) == d
  {
  }

  /** The digits of n in the given radix, most significant first, no leading zero. */
  function ToBase(n: nat, radix: nat): (s: string)
    requires 2 <= radix <= 16
    ensures |s| >= 1 && AllDigits(s, radix)
    ensures s[0] == '0' <==> n == 0
    ensures forall i :: 0 <= i < |s| ==> s[i] != '-' && s[i] != '+' && s[i] != ':' && s[i] != 'x'
    decreases n
  {
    if n < radix then
      DigitCharValue(n);
      [DigitChar(n)]
    else
      QuotientFacts(n, radix);
      DigitCharValue(n % radix);
      ToBase(n / radix, radix) + [DigitChar(n % radix)]
  }

  /** The value of a string of digits. */
  function DigitsValue(s: string, radix: nat): nat
    requires AllDigits(s, radix)
  {
    if |s| == 0 then 0
    else DigitsValue(s[..|s| - 1], radix) * radix + DigitValue(s[|s| - 1])
  }

  lemma {:induction false} DigitsValueToBase(n: nat, radix: nat)
    requires 2 <= radix <= 16
    ensures DigitsValue(ToBase(n, radix), radix) == n
    decreases n
  {
    var s := ToBase(n, radix);
    DigitCharValue(n % radix);
    if n >= radix {
      var q := n / radix;
      DivModFacts(n, radix);
      var init := ToBase(q, radix);
      DigitsValueToBase(q, radix);
      assert s == init + [DigitChar(n % radix)];
      DigitsValueSnoc(init, DigitChar(n % radix), radix);
      assert DigitsValue(s, radix) == q * radix + n % radix;
    } else {
      assert s == [DigitChar(n)];
      assert s[..0] == [];
    }
  }

  lemma QuotientFacts(n: nat, radix: nat)
    requires 2 <= radix <= n
    ensures 1 <= n / radix < n && 0 <= n % radix < radix
  {
    DivModFacts(n, radix);
    var q := n / radix;
    assert q * radix == n - n % radix > 0;
  }

  lemma DivModFacts(n: nat, radix: nat)
    requires radix >= 2 && n >= 1
    ensures n / radix < n
    ensures (n / radix) * radix + n % radix == n
  {
    var q := n / radix;
    var r := n % radix;
    assert q * radix + r == n;
    var extra: nat := radix - 2;
    assert q * radix == 2 * q + q * extra;
    assert q * extra >= 0;
  }

  lemma DigitsValueSnoc(init: string, c: char, radix: nat)
    requires AllDigits(init, radix) && IsDigit(c, radix)
    ensures AllDigits(init + [c], radix)
    ensures DigitsValue(init + [c], radix) == DigitsValue(init, radix) * radix + DigitValue(c)
  {
    assert (init + [c])[..|init|] == init;
  }

  lemma ToBaseInjective(a: nat, b: nat, radix: nat)
    requires 2 <= radix <= 16
    requires ToBase(a, radix) == ToBase(b, radix)
    ensures a == b
  {
    DigitsValueToBase(a, radix);
    DigitsValueToBase(b, radix);
  }

  // ---------------------------------------------------------------------
  // Integer <-> String
  // ---------------------------------------------------------------------

  /** Integer.toString / Long.toString, which string concatenation uses. */
  function ToDecimal(n: int): (s: string)
    ensures |s| >= 1
    ensures forall i :: 0 <= i < |s| ==> s[i] != ':' && s[i] != 'x'
  {
    if n < 0 then "-" + ToBase(-n, 10) else ToBase(n, 10)
  }

  /** A decimal string starts with '-' exactly when the number is negative, and the magnitude follows the sign. */
  lemma ToDecimalSign(n: int)
    ensures ToDecimal(n)[0] == '-' <==> n < 0
    ensures n < 0 ==> ToDecimal(n)[1..] == ToBase(-n, 10)
  {
    if n < 0 {
      assert ToDecimal(n) == "-" + ToBase(-n, 10);
    }
  }

  /** Reading a decimal string back: an optional '-' and then the digits (0 for anything else). */
  function DecimalValue(s: string): int
  {
    if |s| > 0 && s[0] == '-' && AllDigits(s[1..], 10) then 0 - DigitsValue(s[1..], 10) as int
    else if AllDigits(s, 10) then DigitsValue(s, 10)
    else 0
  }

  /** String.valueOf(long) is read back by DecimalValue. */
  lemma DecimalValueOf(n: int)
    ensures DecimalValue(ToDecimal(n)) == n
  {
    ToDecimalSign(n);
    if n < 0 {
      DigitsValueToBase(-n, 10);
    } else {
      DigitsValueToBase(n, 10);
    }
  }

  lemma ToDecimalInjective(a: int, b: int)
    requires ToDecimal(a) == ToDecimal(b)
    ensures a == b
  {
    DecimalValueOf(a);
    DecimalValueOf(b);
  }

  /** Integer.toHexString: the unsigned 32-bit value in lower-case hex, no leading zeros. */
  function ToHexString(n: int): (s: string)
    requires IsInt(n)
    ensures 1 <= |s| <= 8
  {
    var u := if n < 0 then n + TWO_32 else n;
    ToBaseLength(u, 16, 8);
    ToBase(u, 16)
  }

  function Pow(b: nat, k: nat): (r: nat)
    ensures r >= 1 || b == 0
  {
    if k == 0 then 1 else b * Pow(b, k - 1)
  }

  lemma {:induction false} ToBaseLength(n: nat, radix: nat, k: nat)
    requires 2 <= radix <= 16 && k >= 1
    requires n < Pow(radix, k)
    ensures |ToBase(n, radix)| <= k
    decreases k
  {
    if n >= radix {
      assert n / radix < Pow(radix, k - 1) by {
        DivBound(n, radix, Pow(radix, k - 1));
      }
      ToBaseLength(n / radix, radix, k - 1);
    }
  }

  lemma DivBound(n: nat, d: nat, p: nat)
    requires d > 0 && n < d * p
    ensures n / d < p
  {
  }

  /**
   * Integer.parseInt(s, radix) (and Integer.valueOf(s, radix)) as Android's
   * libcore implements it: an optional '-', then at least one digit, and the
   * value must fit in an int.
   */
  function ParseInt(s: string, radix: nat): (r: Result<int, Exception>)
    requires 2 <= radix <= 16
    ensures r.Success? ==> IsInt(r.value)
    ensures r.Failure? ==> r.error == NumberFormat
    ensures |s| == 0 || s == "-" ==> r == Failure(NumberFormat)
  {
    if |s| == 0 then Failure(NumberFormat)
    else
      var signed := s[0] == '-';
      var digits := if signed then s[1..] else s;
      if |digits| == 0 || !AllDigits(digits, radix) then Failure(NumberFormat)
      else
        var v: int := if s[0] == '-' then -(DigitsValue(digits, radix) as int) else DigitsValue(digits, radix);
        if IsInt(v) then Success(v) else Failure(NumberFormat)
  }

  /** Integer.valueOf(Integer.toHexString(n), 16) gives n back exactly when n is not negative. */
  lemma HexRoundTrip(n: int)
    requires IsInt(n)
    ensures n >= 0 ==> ParseInt(ToHexString(n), 16) == Success(n)
    ensures n < 0 ==> ParseInt(ToHexString(n), 16) == Failure(NumberFormat)
  {
    var u := if n < 0 then n + TWO_32 else n;
    DigitsValueToBase(u, 16);
  }

  // ---------------------------------------------------------------------
  // String.hashCode
  // ---------------------------------------------------------------------

  /** The UTF-16 code units of a string: supplementary characters become surrogate pairs. */
  function Utf16(s: string): (units: seq<int>)
    ensures |units| >= |s|
    ensures forall i :: 0 <= i < |units| ==> 0 <= units[i] < 0x10000
  {
    if |s| == 0 then []
    else
      var c := s[0] as int;
      var head := if c < 0x10000 then [c]
                  else [0xD800 + (c - 0x10000) / 0x400, 0xDC00 + (c - 0x10000) % 0x400];
      head + Utf16(s[1..])
  }

  /** Java's int-wrapping hash loop `h = 31 * h + unit` over a sequence of code units. */
  function HashUnits(units: seq<int>): (h: int)
    ensures IsInt(h)
  {
    if |units| == 0 then 0
    else WrapInt(31 * HashUnits(units[..|units| - 1]) + units[|units| - 1])
  }

  /** String.hashCode. */
  function StringHash(s: string): (h: int)
    ensures IsInt(h)
  {
    HashUnits(Utf16(s))
  }

  /** The polynomial sum of the units with weights 31^(n-1-i), computed without wrapping. */
  function Polynomial(units: seq<int>): int
  {
    if |units| == 0 then 0
    else 31 * Polynomial(units[..|units| - 1]) + units[|units| - 1]
  }

  /** Wrapping at every step gives the same int as wrapping the exact polynomial once. */
  lemma {:induction false} HashIsWrappedPolynomial(units: seq<int>)
    ensures HashUnits(units) == WrapInt(Polynomial(units))
  {
    if |units| > 0 {
      var init := units[..|units| - 1];
      var last := units[|units| - 1];
      HashIsWrappedPolynomial(init);
      var h := HashUnits(init);
      var p := Polynomial(init);
      var k := (p - h) / TWO_32;
      assert p - h == k * TWO_32;
      assert (31 * p + last) - (31 * h + last) == (31 * k) * TWO_32;
      assert ((31 * p + last) - (31 * h + last)) % TWO_32 == 0 by {
        ModuloShift(0, 31 * k);
      }
      WrapIntCongruent(31 * p + last, 31 * h + last);
    }
  }
}
