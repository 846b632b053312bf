/**
 * Rendering and reading digits the way JavaScript does for non-negative
 * integers: `Number.prototype.toString(16)` (lower-case hex digits, no
 * leading zeros), template-literal interpolation `${n}` (decimal, no leading
 * zeros) and `parseInt(_, 16)` on hex digit characters.
 */
module Radix {

  /** The lower-case hex digit character for a digit value. */
  function HexDigit(d: nat): char
    requires d < 16
  {
    if d < 10 then ('0' as int + d) as char else ('a' as int + (d - 10)) as char
  }

  /** A printed digit is a lower-case hex digit that reads back as its value. */
  lemma HexDigitReadsBack(d: nat)
    requires d < 16
    ensures IsHexChar(HexDigit(d)) && HexValue(HexDigit(d)) == d
    ensures !('A' <= HexDigit(d) <= 'F')
  {
  }

  /** A character matched by `[a-f\d]` under the case-insensitive flag. */
  predicate IsHexChar(c: char) {
    '0' <= c <= '9' || 'a' <= c <= 'f' || 'A' <= c <= 'F'
  }

  /** The value `parseInt` gives a single hex digit character, in either case. */
  function HexValue(c: char): (v: nat)
    requires IsHexChar(c)
    ensures v < 16
  {
    if '0' <= c <= '9' then c as int - '0' as int
    else if 'a' <= c <= 'f' then c as int - 'a' as int + 10
    else c as int - 'A' as int + 10
  }

  /** Lower-case form of a hex digit character. */
  function LowerHex(c: char): char
    requires IsHexChar(c)
  {
    if 'A' <= c <= 'F' then (c as int - 'A' as int + 'a' as int) as char else c
  }

  /** Printing the value of a digit gives back the digit, lower-cased. */
  lemma HexDigitOfValue(c: char)
    requires IsHexChar(c)
    ensures HexDigit(HexValue(c)) == LowerHex(c)
  {
  }

  function Pow16(k: nat): (p: nat)
    ensures p >= 1
  {
    if k == 0 then 1 else 16 * Pow16(k - 1)
  }

  /** `n.toString(16)` for a non-negative integer `n`. */
  function ToHexString(n: nat): (s: string)
    ensures |s| >= 1
    ensures forall i :: 0 <= i < |s| ==> IsHexChar(s[i])
  {
    if n < 16 then [HexDigit(n)] else ToHexString(n / 16) + [HexDigit(n % 16)]
  }

  /** The last `width` hex digits of `n`, zero-padded on the left. */
  function PaddedHex(n: nat, width: nat): (s: string)
    ensures |s| == width
  {
    if width == 0 then [] else PaddedHex(n / 16, width - 1) + [HexDigit(n % 16)]
  }

  /** A byte as exactly two lower-case hex digits, high nibble first. */
  function ByteHex(x: nat): string
    requires x < 256
  {
    [HexDigit(x / 16), HexDigit(x % 16)]
  }

  /** Two digit values side by side make a byte whose two digits are those values. */
  lemma ByteOfDigits(hi: nat, lo: nat)
    requires hi < 16 && lo < 16
    ensures 16 * hi + lo < 256
    ensures ByteHex(16 * hi + lo) == [HexDigit(hi), HexDigit(lo)]
  {
    var x := 16 * hi + lo;
    assert x / 16 == hi && x % 16 == lo;
  }

  lemma PaddedHexByte(x: nat)
    requires x < 256
    ensures PaddedHex(x, 2) == ByteHex(x)
  {
    assert PaddedHex(x / 16, 1) == [HexDigit(x / 16)];
  }

  /**
   * Dropping the last hex digit of `hi * 16p + low`, for `low < 16p`, leaves
   * `hi * p + low / 16`, and that digit is the last digit of `low`.
   */
  lemma ShiftOutDigit(hi: nat, p: nat, low: nat)
    requires low < 16 * p
    ensures (hi * (16 * p) + low) / 16 == hi * p + low / 16
    ensures (hi * (16 * p) + low) % 16 == low % 16
    ensures low / 16 < p
  {
    var q := hi * p + low / 16;
    assert hi * (16 * p) + low == 16 * q + low % 16;
  }

  /** `hi` moved up by `k` hex digits, one digit (a factor of 16) at a time. */
  function Shift16(hi: nat, k: nat): nat {
    if k == 0 then hi else 16 * Shift16(hi, k - 1)
  }

  /** Moving up by `k` hex digits is multiplying by 16^k. */
  lemma {:induction false} Shift16IsProduct(hi: nat, k: nat)
    ensures Shift16(hi, k) == hi * Pow16(k)
  {
    if k > 0 {
      Shift16IsProduct(hi, k - 1);
    }
  }

  /**
   * Writing a number whose hex digits are those of `hi` followed by the
   * `k` digits of `low`: its padded rendering is the two renderings joined.
   */
  lemma {:induction false} PaddedHexSplit(hi: nat, low: nat, m: nat, k: nat)
    requires low < Pow16(k)
    ensures PaddedHex(Shift16(hi, k) + low, m + k) == PaddedHex(hi, m) + PaddedHex(low, k)
  {
    if k > 0 {
      var n := Shift16(hi, k) + low;
      assert n / 16 == Shift16(hi, k - 1) + low / 16 && n % 16 == low % 16;
      PaddedHexSplit(hi, low / 16, m, k - 1);
    }
  }

  /**
   * `toString(16)` of `16^k + low` with `low < 16^k` is "1" followed by the
   * `k` zero-padded digits of `low`: the leading one guards the zeros.
   */
  lemma {:induction false} ToHexStringLeadingOne(low: nat, k: nat)
    requires low < Pow16(k)
    ensures ToHexString(Pow16(k) + low) == "1" + PaddedHex(low, k)
  {
    if k > 0 {
      ShiftOutDigit(1, Pow16(k - 1), low);
      ToHexStringLeadingOne(low / 16, k - 1);
    }
  }

  /** The decimal digit character for a digit value. */
  function DecDigit(d: nat): (c: char)
    requires d < 10
    ensures IsDecChar(c) && c as int - '0' as int == d
  {
    ('0' as int + d) as char
  }

  predicate IsDecChar(c: char) {
    '0' <= c <= '9'
  }

  predicate AllDecimal(s: string) {
    forall i :: 0 <= i < |s| ==> IsDecChar(s[i])
  }

  /** `${n}` for a non-negative integer `n`. */
  function ToDecimalString(n: nat): (s: string)
    ensures |s| >= 1 && AllDecimal(s)
    ensures s[0] == '0' <==> n == 0
  {
    if n < 10 then [DecDigit(n)] else ToDecimalString(n / 10) + [DecDigit(n % 10)]
  }

  /** The value of a string of decimal digits, most significant first. */
  function DecimalValue(s: string): nat
    requires AllDecimal(s)
  {
    if s == [] then 0 else 10 * DecimalValue(s[..|s| - 1]) + (s[|s| - 1] as int - '0' as int)
  }

  /** Reading back the decimal rendering of `n` gives `n`. */
  lemma {:induction false} DecimalRoundTrip(n: nat)
    ensures DecimalValue(ToDecimalString(n)) == n
  {
    var s := ToDecimalString(n);
    if n >= 10 {
      DecimalRoundTrip(n / 10);
      assert s[..|s| - 1] == ToDecimalString(n / 10);
    }
  }

  /** Distinct numbers render to distinct decimal strings. */
  lemma DecimalInjective(a: nat, b: nat)
    requires ToDecimalString(a) == ToDecimalString(b)
    ensures a == b
  {
    DecimalRoundTrip(a);
    DecimalRoundTrip(b);
  }

  /**
   * A run of decimal digits followed by a non-digit is read back unambiguously:
   * if two such strings coincide, so do their digit runs and their tails.
   */
  lemma DigitRunUnique(d1: string, t1: string, d2: string, t2: string)
    requires AllDecimal(d1) && AllDecimal(d2)
    requires |t1| > 0 && !IsDecChar(t1[0]) && |t2| > 0 && !IsDecChar(t2[0])
    requires d1 + t1 == d2 + t2
    ensures d1 == d2 && t1 == t2
  {
    assert d1 == (d1 + t1)[..|d1|];
    assert d2 == (d2 + t2)[..|d2|];
    assert t1 == (d1 + t1)[|d1|..];
    assert t2 == (d2 + t2)[|d2|..];
  }
}
