/** Digits, digit runs and their values: the decimal digits of integer
    literals and entity names, and the upper-case hexadecimal digits of
    binary literals and of the `\X2\` and `\X4\` string escapes
    (ISO 10303-21 allows only `0`-`9` and `A`-`F` as hexadecimal digits). */
module Numerals {
  import opened Results

  datatype Radix = Decimal | Hex

  function Base(r: Radix): (b: nat)
    ensures b == 10 || b == 16
  {
    if r == Decimal then 10 else 16
  }

  predicate IsDigit(c: char) { '0' <= c <= '9' }

  predicate IsDigitOf(c: char, r: Radix) {
    IsDigit(c) || (r == Hex && 'A' <= c <= 'F')
  }

  function DigitValue(c: char, r: Radix): (d: nat)
    requires IsDigitOf(c, r)
    ensures d < Base(r)
  {
    if IsDigit(c) then c as int - '0' as int else c as int - 'A' as int + 10
  }

  /** The digit that stands for `d`; the inverse of DigitValue. */
  function DigitChar(d: nat, r: Radix): (c: char)
    requires d < Base(r)
    ensures IsDigitOf(c, r) && DigitValue(c, r) == d
  {
    if d < 10 then ('0' as int + d) as char else ('A' as int + d - 10) as char
  }

  function Pow(b: nat, k: nat): nat {
    if k == 0 then 1 else b * Pow(b, k - 1)
  }

  /** m * 10^k, written as k decimal shifts of m. */
  function Shift(m: nat, k: nat): nat {
    if k == 0 then m else 10 * Shift(m, k - 1)
  }

  /** Shifting m by k digits multiplies it by the k-th power of ten. */
  lemma {:induction false} ShiftIsScale(m: nat, k: nat)
    ensures Shift(m, k) == m * Pow(10, k)
  {
    if k > 0 {
      ShiftIsScale(m, k - 1);
      assert 10 * (m * Pow(10, k - 1)) == m * (10 * Pow(10, k - 1));
    }
  }

  /** Every character of s[i..j] is a digit of radix r. */
  predicate AllDigits(s: seq<char>, i: nat, j: nat, r: Radix)
    requires i <= j <= |s|
  {
    forall k {:trigger IsDigitOf(s[k], r)} :: i <= k < j ==> IsDigitOf(s[k], r)
  }

  /** The value of the digits s[i..j], most significant first, or None when
      one of them is not a digit of radix r. */
  function NumeralValue(s: seq<char>, i: nat, j: nat, r: Radix): (v: Option<nat>)
    requires i <= j <= |s|
    ensures v.Some? <==> AllDigits(s, i, j, r)
    ensures v.Some? ==> v.value < Pow(Base(r), j - i)
    decreases j - i
  {
    if i == j then Some(0)
    else if !IsDigitOf(s[j - 1], r) then None
    else match NumeralValue(s, i, j - 1, r)
      case None => None
      case Some(v) =>
        var d := DigitValue(s[j - 1], r);
        BoundStep(v, d, Base(r), Pow(Base(r), j - 1 - i));
        Some(Base(r) * v + d)
  }

  lemma BoundStep(v: nat, d: nat, b: nat, p: nat)
    requires v < p && d < b
    ensures b * v + d < b * p
  {
    assert b * v + d < b * v + b;
    assert b * v + b == b * (v + 1);
    assert b * (v + 1) <= b * p;
  }

  /** The end of the maximal run of decimal digits that starts at i. */
  function DigitsEnd(s: seq<char>, i: nat): (j: nat)
    requires i <= |s|
    ensures i <= j <= |s| && AllDigits(s, i, j, Decimal)
    ensures j < |s| ==> !IsDigit(s[j])
    decreases |s| - i
  {
    if i < |s| && IsDigit(s[i]) then DigitsEnd(s, i + 1) else i
  }

  /** The value of a digit run that DigitsEnd delimits. */
  function DecimalValue(s: seq<char>, i: nat, j: nat): (n: nat)
    requires i <= j <= |s| && AllDigits(s, i, j, Decimal)
  {
    NumeralValue(s, i, j, Decimal).value
  }

  /** The w-digit numeral of n in radix r, with leading zeros. */
  function NumeralText(n: nat, w: nat, r: Radix): (t: seq<char>)
    ensures |t| == w
    ensures forall k :: 0 <= k < w ==> IsDigitOf(t[k], r)
  {
    if w == 0 then [] else NumeralText(n / Base(r), w - 1, r) + [DigitChar(n % Base(r), r)]
  }

  /** The number of decimal digits of n (at least one). */
  function Width(n: nat): (w: nat)
    ensures w >= 1 && n < Pow(10, w)
  {
    if n < 10 then 1 else 1 + Width(n / 10)
  }

  /** The shortest decimal numeral of n. */
  function DecimalText(n: nat): (t: seq<char>)
    ensures |t| >= 1 && forall k :: 0 <= k < |t| ==> IsDigit(t[k])
  {
    NumeralText(n, Width(n), Decimal)
  }

  /** Reading back a numeral that NumeralText wrote, wherever it stands in s,
      gives the number it was written from. */
  lemma {:induction false} NumeralRoundTrip(n: nat, w: nat, r: Radix, s: seq<char>, i: nat)
    requires n < Pow(Base(r), w)
    requires i + w <= |s| && s[i..i + w] == NumeralText(n, w, r)
    ensures NumeralValue(s, i, i + w, r) == Some(n)
  {
    if w > 0 {
      var b := Base(r);
      NumeralTextLast(n, w, r, s, i);
      LastDigitSplit(n, b, w);
      NumeralRoundTrip(n / b, w - 1, r, s, i);
      NumeralStep(s, i, i + w, r, n / b, n % b);
    }
  }

  /** Below b^w, n is b times a number below b^(w-1), plus a digit. */
  lemma {:induction false} LastDigitSplit(n: nat, b: nat, w: nat)
    requires b > 0 && w > 0 && n < Pow(b, w)
    ensures n / b < Pow(b, w - 1) && b * (n / b) + n % b == n
  {
    assert Pow(b, w) == b * Pow(b, w - 1);
    DivBound(n, b, Pow(b, w - 1));
  }

  /** The numeral of n without its last digit is the numeral of n / b. */
  lemma {:induction false} NumeralTextLast(n: nat, w: nat, r: Radix, s: seq<char>, i: nat)
    requires w > 0 && i + w <= |s| && s[i..i + w] == NumeralText(n, w, r)
    ensures s[i..i + w - 1] == NumeralText(n / Base(r), w - 1, r)
    ensures s[i + w - 1] == DigitChar(n % Base(r), r)
  {
    var t := NumeralText(n / Base(r), w - 1, r);
    assert NumeralText(n, w, r) == t + [DigitChar(n % Base(r), r)];
    assert s[i..i + w - 1] == s[i..i + w][..w - 1];
    assert s[i + w - 1] == s[i..i + w][w - 1];
  }

  /** One more digit d after digits worth q is worth b * q + d. */
  lemma {:induction false} NumeralStep(s: seq<char>, i: nat, j: nat, r: Radix, q: nat, d: nat)
    requires i < j <= |s| && NumeralValue(s, i, j - 1, r) == Some(q)
    requires d < Base(r) && s[j - 1] == DigitChar(d, r)
    ensures NumeralValue(s, i, j, r) == Some(Base(r) * q + d)
  {
  }

  /** The value of a run of digits depends on those digits alone. */
  lemma {:induction false} NumeralValueLocal(s: seq<char>, i: nat, j: nat, t: seq<char>, r: Radix)
    requires i <= j <= |s| && s[i..j] == t
    ensures NumeralValue(s, i, j, r) == NumeralValue(t, 0, |t|, r)
    decreases j - i
  {
    if i < j {
      assert s[j - 1] == t[|t| - 1];
      assert s[i..j - 1] == t[..|t| - 1];
      NumeralValueLocal(s, i, j - 1, t[..|t| - 1], r);
      NumeralValueLocal(t, 0, |t| - 1, t[..|t| - 1], r);
    }
  }

  lemma DivBound(n: nat, b: nat, p: nat)
    requires b > 0 && n < b * p
    ensures n / b < p
  {
  }

  lemma {:induction false} DecimalTextValue(n: nat, s: seq<char>, i: nat)
    requires i + |DecimalText(n)| <= |s| && s[i..i + |DecimalText(n)|] == DecimalText(n)
    ensures AllDigits(s, i, i + |DecimalText(n)|, Decimal)
    ensures DecimalValue(s, i, i + |DecimalText(n)|) == n
  {
    NumeralRoundTrip(n, Width(n), Decimal, s, i);
  }

  /** A digit run that stops at a non-digit is the run DigitsEnd finds. */
  lemma {:induction false} DigitsEndAt(s: seq<char>, i: nat, j: nat)
    requires i <= j <= |s| && AllDigits(s, i, j, Decimal)
    requires j < |s| ==> !IsDigit(s[j])
    ensures DigitsEnd(s, i) == j
    decreases j - i
  {
    if i < j {
      assert IsDigitOf(s[i], Decimal);
      DigitsEndAt(s, i + 1, j);
    }
  }

  /** 16 to the k is 2 to the 4k: k hexadecimal digits hold 4k bits. */
  lemma {:induction false} HexDigitsAreNibbles(k: nat)
    ensures Pow(16, k) == Pow(2, 4 * k)
  {
    if k > 0 {
      HexDigitsAreNibbles(k - 1);
      var m := 4 * (k - 1);
      assert Pow(2, m + 4) == 2 * Pow(2, m + 3) == 4 * Pow(2, m + 2) == 8 * Pow(2, m + 1);
      assert Pow(2, m + 1) == 2 * Pow(2, m);
    }
  }
}
