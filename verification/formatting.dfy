/** Fixed-point formatting of file sizes (`f"{size / 1024:.1f} KB"` and the
    like). The divisors are powers of two, so the float quotient is exact and
    Python prints it correctly rounded, ties to even; the model computes the
    same digits with integers. */
module Formatting {
  import opened Strings
  import opened Clock

  /** The padded digits of a number below 10^width read back as that number. */
  lemma {:induction false} ParsePadded(n: nat, width: nat)
    requires n < Power10(width)
    ensures ParseDigits(Padded(n, width)) == n
    decreases width
  {
    if width > 0 {
      var p := Padded(n, width);
      assert p[..|p| - 1] == Padded(n / 10, width - 1);
      assert n == 10 * (n / 10) + n % 10;
      ParsePadded(n / 10, width - 1);
    } else {
      assert n == 0;
    }
  }

  lemma MulSucc(a: int, b: int)
    ensures (a + 1) * b == a * b + b
  {
  }

  /** `scaled / den` rounded to nearest, ties to even. */
  function RoundHalfEven(scaled: nat, den: nat): (q: nat)
    requires den > 0
    ensures -(den as int) <= 2 * (q * den - scaled) <= den
  {
    var q0 := scaled / den;
    var r := scaled % den;
    assert q0 * den + r == scaled;
    if 2 * r > den || (2 * r == den && q0 % 2 == 1) then
      MulSucc(q0, den);
      q0 + 1
    else q0
  }

  /** `num / den` in units of 10^-digits, rounded to nearest, ties to even:
      within half a unit of the exact quotient. */
  function RoundedUnits(num: nat, den: nat, digits: nat): (q: nat)
    requires den > 0
    ensures -(den as int) <= 2 * (q * den - num * Power10(digits)) <= den
  {
    RoundHalfEven(num * Power10(digits), den)
  }

  /** A count of 10^-digits units printed with `digits` decimals. */
  function UnitsText(q: nat, digits: nat): string {
    var P := Power10(digits);
    DivModRecompose(q, P);
    var whole: nat := q / P;
    var fraction: nat := q % P;
    if digits == 0 then NatToString(whole)
    else NatToString(whole) + "." + Padded(fraction, digits)
  }

  /** Python's `f"{num / den:.{digits}f}"` for an exact quotient. */
  function FixedPoint(num: nat, den: nat, digits: nat): string
    requires den > 0
  {
    UnitsText(RoundedUnits(num, den, digits), digits)
  }

  /** Reading printed units back gives the count: the digits before the
      point are the whole units, the `digits` after it the fraction. */
  lemma UnitsTextReadBack(q: nat, digits: nat)
    requires digits > 0
    ensures var s := UnitsText(q, digits);
            var k := |s| - digits - 1;
            0 < k && s[k] == '.'
            && (forall i :: 0 <= i < |s| && i != k ==> IsDigit(s[i]))
            && ParseDigits(s[..k]) * Power10(digits) + ParseDigits(s[k + 1..]) == q
  {
    var P := Power10(digits);
    DivModRecompose(q, P);
    var w: nat, f: nat := q / P, q % P;
    var whole := NatToString(w);
    var frac := Padded(f, digits);
    var s := UnitsText(q, digits);
    assert s == whole + "." + frac;
    PointSplit(whole, frac);
    ParseNatToString(w);
    ParsePadded(f, digits);
  }

  /** The pieces on either side of a point between two digit strings. */
  lemma PointSplit(whole: string, frac: string)
    requires forall i :: 0 <= i < |whole| ==> IsDigit(whole[i])
    requires forall i :: 0 <= i < |frac| ==> IsDigit(frac[i])
    ensures var s := whole + "." + frac;
            s[|whole|] == '.' && s[..|whole|] == whole && s[|whole| + 1..] == frac
            && forall i :: 0 <= i < |s| && i != |whole| ==> IsDigit(s[i])
  {
    var s := whole + "." + frac;
    forall i | 0 <= i < |s| && i != |whole|
      ensures IsDigit(s[i])
    {
      if i < |whole| {
        assert s[i] == whole[i];
      } else {
        assert s[i] == frac[i - |whole| - 1];
      }
    }
  }

  lemma DivModRecompose(q: nat, p: nat)
    requires p > 0
    ensures 0 <= q / p && 0 <= q % p < p
    ensures (q / p) * p + q % p == q
  {
  }

  /** The printed size reads back as exactly the rounded count of
      10^-digits units, which `RoundedUnits` keeps within half a unit of
      the exact quotient. */
  lemma FixedPointReadBack(num: nat, den: nat, digits: nat)
    requires den > 0 && digits > 0
    ensures var s := FixedPoint(num, den, digits);
            var k := |s| - digits - 1;
            0 < k && s[k] == '.'
            && ParseDigits(s[..k]) * Power10(digits) + ParseDigits(s[k + 1..]) == RoundedUnits(num, den, digits)
  {
    var q := RoundedUnits(num, den, digits);
    assert FixedPoint(num, den, digits) == UnitsText(q, digits);
    UnitsTextReadBack(q, digits);
  }

  const KiB: nat := 1024
  const MiB: nat := 1024 * 1024

  /** The size text of the upload and listing tools: kilobytes with one
      decimal below one mebibyte, mebibytes with one decimal from there. */
  function SizeText(size: nat): (r: string)
    ensures size < MiB ==> r == FixedPoint(size, KiB, 1) + " KB"
    ensures size >= MiB ==> r == FixedPoint(size, MiB, 1) + " MB"
  {
    if size < MiB then FixedPoint(size, KiB, 1) + " KB" else FixedPoint(size, MiB, 1) + " MB"
  }
}
