/**
 The console's fixed-precision and exponent notation for big integers: which number a printed text
 denotes.
 */
module ConsoleNumbers {
  import opened Decimal

  /** Go's integer division truncates toward zero. */
  function Quo(x: int, d: nat): int
    requires d > 0
  {
    if x >= 0 then x / d else -((-x) / d)
  }

  function Rem(x: int, d: nat): int
    requires d > 0
  {
    if x >= 0 then x % d else -((-x) % d)
  }

  function Abs(x: int): nat { if x < 0 then -x else x }

  function Zeros(k: nat): string { seq(k, _ => '0') }

  function PadLeft(s: string, width: nat): string {
    if |s| >= width then s else Zeros(width - |s|) + s
  }

  function TrimRight(s: string): string {
    if s != [] && s[|s| - 1] == '0' then TrimRight(s[..|s| - 1]) else s
  }

  function FormatFixed(x: int, precision: nat): string {
    var prec := Pow10(precision);
    var integer, remainder := Quo(x, prec), Rem(x, prec);
    if remainder != 0
    then PrintInt(integer) + "." + TrimRight(PadLeft(Digits(Abs(remainder)), precision))
    else PrintInt(integer)
  }

  function FormatBigInt(x: int, precision: int): string {
    if precision < 0
    then
      var p := |Digits(Abs(x))| - 1;
      FormatFixed(x, p) + "e" + Digits(p)
    else FormatFixed(x, precision)
  }

  // ---------- what a printed number denotes ----------

  /** A sign or none, an integer part, and a fraction, possibly empty. */
  datatype Numeral = Numeral(negative: bool, integer: string, fraction: string) {
    predicate Valid() {
      integer != [] && AllDigits(integer) && AllDigits(fraction)
    }

    /** The numeral as written. */
    function Text(): string {
      (if negative then "-" else "") + integer + (if fraction == [] then [] else "." + fraction)
    }

    /** The numeral denotes this number over 10 to the length of its fraction. */
    function Mantissa(): int
      requires Valid()
    {
      var m := Shift(Value(integer), |fraction|) + Value(fraction);
      if negative then -m else m
    }

    /** The numeral denotes `x` over 10 to the `p`: appending zeros to its digits gives `x`. */
    predicate Denotes(x: int, p: nat) {
      Valid() && |fraction| <= p && Shift(Mantissa(), p - |fraction|) == x
    }

    predicate NoTrailingZero() {
      fraction == [] || fraction[|fraction| - 1] != '0'
    }
  }

  /** Where the parts of a numeral stand in its text. */
  lemma TextShape(n: Numeral)
    requires n.Valid()
    ensures var s, from := n.Text(), if n.negative then 1 else 0;
            && (n.negative <==> s[0] == '-')
            && |s| == from + |n.integer| + (if n.fraction == [] then 0 else 1 + |n.fraction|)
            && s[from..from + |n.integer|] == n.integer
            && (n.fraction != [] ==> s[from + |n.integer|] == '.' && s[from + |n.integer| + 1..] == n.fraction)
  {
    if !n.negative {
      assert n.Text()[0] == n.integer[0];
    }
  }

  /** A text is written by one numeral at most. */
  lemma TextIsInjective(a: Numeral, b: Numeral)
    requires a.Valid() && b.Valid() && a.Text() == b.Text()
    ensures a == b
  {
    TextShape(a);
    TextShape(b);
    hide Numeral.Text;
    if |a.integer| < |b.integer| {
      ShorterInteger(a, b);
    } else if |b.integer| < |a.integer| {
      ShorterInteger(b, a);
    }
  }

  lemma ShorterInteger(a: Numeral, b: Numeral)
    requires a.Valid() && b.Valid() && a.Text() == b.Text()
    ensures |b.integer| <= |a.integer|
  {
    TextShape(a);
    TextShape(b);
    hide Numeral.Text;
    DigitsStop(a.Text(), if a.negative then 1 else 0, |a.integer|, b.integer);
  }

  /** Digits do not reach past the end of a text, or past a character that is no digit. */
  lemma DigitsStop(s: string, from: nat, i: nat, digits: string)
    requires from + |digits| <= |s| && s[from..from + |digits|] == digits && AllDigits(digits)
    requires |s| == from + i || (from + i < |s| && !IsDigit(s[from + i]))
    ensures |digits| <= i
  {
    assert forall k :: 0 <= k < |digits| ==> digits[k] == s[from + k];
  }

  lemma {:induction false} DigitsFit(n: nat, width: nat)
    requires n < Pow10(width) && width > 0
    ensures |Digits(n)| <= width
  {
    if n >= 10 {
      assert Pow10(width) == 10 * Pow10(width - 1);
      assert Pow10(0) == 1;
      DigitsFit(n / 10, width - 1);
    }
  }

  lemma PadLeftValue(n: nat, width: nat)
    requires n < Pow10(width) && width > 0
    ensures var s := PadLeft(Digits(n), width); |s| == width && AllDigits(s) && Value(s) == n
  {
    DigitsFit(n, width);
    ValueOfDigits(n);
    hide Digits, Value, Pow10;
    var z := Zeros(width - |Digits(n)|);
    ZerosValue(width - |Digits(n)|);
    ValueConcat(z, Digits(n));
    ShiftZero(|Digits(n)|);
    assert |Digits(n)| == width ==> z + Digits(n) == Digits(n);
  }

  lemma {:induction false} TrimRightValue(s: string)
    requires AllDigits(s)
    ensures var t := TrimRight(s);
            && |t| <= |s| && AllDigits(t) && Value(s) == Shift(Value(t), |s| - |t|)
            && (t == [] || t[|t| - 1] != '0')
    decreases |s|
  {
    if s != [] && s[|s| - 1] == '0' {
      TrimRightValue(s[..|s| - 1]);
    }
  }

  lemma DivideByLarger(a: nat, d: nat)
    requires d > 0
    ensures a == (a / d) * d + a % d
    ensures a / d == 0 <==> a < d
  {
  }

  lemma QuoRem(x: int, p: nat)
    ensures var d := Pow10(p);
            && Abs(Rem(x, d)) < d
            && (Quo(x, d) < 0 <==> x < 0 && Abs(x) >= d)
            && Abs(x) == Shift(Abs(Quo(x, d)), p) + Abs(Rem(x, d))
  {
    var d := Pow10(p);
    DivideByLarger(Abs(x), d);
    ShiftIsTimes(Abs(x) / d, p);
    assert Abs(Quo(x, d)) == Abs(x) / d && Abs(Rem(x, d)) == Abs(x) % d;
  }

  /** The numeral that fixed-precision printing writes. */
  function FixedNumeral(x: int, precision: nat): Numeral {
    var prec := Pow10(precision);
    var integer, remainder := Quo(x, prec), Rem(x, prec);
    Numeral(integer < 0, Digits(Abs(integer)),
            if remainder != 0 then TrimRight(PadLeft(Digits(Abs(remainder)), precision)) else [])
  }

  lemma FractionValue(x: int, p: nat)
    ensures var n := FixedNumeral(x, p);
            && n.Valid() && |n.fraction| <= p && n.NoTrailingZero()
            && Shift(Value(n.fraction), p - |n.fraction|) == Abs(Rem(x, Pow10(p)))
            && (Rem(x, Pow10(p)) != 0 ==> n.fraction != [])
  {
    hide PadLeft, TrimRight, Digits, Quo, Rem, Pow10, Value;
    var r := Rem(x, Pow10(p));
    QuoRem(x, p);
    if r == 0 {
      NoFraction(p);
    } else {
      AtLeastOneDigit(p, r);
      PadLeftValue(Abs(r), p);
      TrimRightValue(PadLeft(Digits(Abs(r)), p));
      NoFraction(p);
    }
  }

  lemma NoFraction(p: nat)
    ensures Value([]) == 0 && Shift(0, p) == 0
  {
    ShiftZero(p);
  }

  lemma AtLeastOneDigit(p: nat, r: int)
    requires 0 < Abs(r) < Pow10(p)
    ensures p > 0
  {
  }

  lemma FixedText(x: int, p: nat)
    ensures FormatFixed(x, p) == FixedNumeral(x, p).Text()
  {
    FractionValue(x, p);
    hide Quo, Rem, Pow10, Digits, PadLeft, TrimRight, Value, Shift;
    var q, f := Quo(x, Pow10(p)), FixedNumeral(x, p).fraction;
    assert PrintInt(q) == (if q < 0 then "-" else "") + Digits(Abs(q));
    assert PrintInt(q) + "." + f == PrintInt(q) + ("." + f);
    assert PrintInt(q) + [] == PrintInt(q);
  }

  lemma NumeralScaled(n: Numeral, q: nat, p: nat, r: nat, a: nat)
    requires n.Valid() && |n.fraction| <= p && Value(n.integer) == q
    requires Shift(Value(n.fraction), p - |n.fraction|) == r && a == Shift(q, p) + r
    ensures Shift(n.Mantissa(), p - |n.fraction|) == if n.negative then -(a as int) else a
  {
    hide Shift, Value;
    var k := |n.fraction|;
    ShiftShift(q, k, p - k);
    ShiftAdd(Shift(q, k), Value(n.fraction), p - k);
    ShiftNegative(Shift(q, k) + Value(n.fraction), p - k);
  }

  /** Up to its sign, the printed numeral denotes `x / 10^p`. */
  lemma MantissaScaled(x: int, p: nat)
    ensures var n := FixedNumeral(x, p);
            && n.Valid() && |n.fraction| <= p
            && Shift(n.Mantissa(), p - |n.fraction|) == (if x < 0 && Abs(x) >= Pow10(p) then x else Abs(x))
  {
    hide Pow10, Value, Digits, Quo, Rem, TrimRight, PadLeft, Shift;
    FractionValue(x, p);
    QuoRem(x, p);
    ValueOfDigits(Abs(Quo(x, Pow10(p))));
    NumeralScaled(FixedNumeral(x, p), Abs(Quo(x, Pow10(p))), p, Abs(Rem(x, Pow10(p))), Abs(x));
  }

  /**
   Fixed-precision printing writes a numeral without a trailing zero. It denotes `x / 10^p` exactly
   when `x` is not negative or not smaller than one unit; otherwise the sign is lost.
   */
  lemma FixedPrecisionExact(x: int, p: nat)
    ensures var n := FixedNumeral(x, p);
            && n.Valid() && FormatFixed(x, p) == n.Text() && n.NoTrailingZero()
            && (n.Denotes(x, p) <==> x >= 0 || Abs(x) >= Pow10(p))
            && (n.Denotes(-x, p) || n.Denotes(x, p))
  {
    FixedText(x, p);
    FractionValue(x, p);
    MantissaScaled(x, p);
    hide FixedNumeral, FormatFixed, Pow10, Shift, Numeral.Mantissa, Numeral.NoTrailingZero, Numeral.Text;
    assert Pow10(p) > 0;
  }

  /** With a precision, exponent printing is fixed-precision printing: the text has no exponent. */
  lemma PrecisionExact(x: int, p: nat)
    ensures exists n: Numeral ::
              && n.Valid() && FormatBigInt(x, p) == n.Text() && n.NoTrailingZero()
              && (n.Denotes(x, p) <==> x >= 0 || Abs(x) >= Pow10(p))
              && (n.Denotes(-x, p) || n.Denotes(x, p))
  {
    FixedPrecisionExact(x, p);
    hide FixedNumeral, FormatFixed, Numeral.Denotes, Numeral.Text, Numeral.NoTrailingZero, Numeral.Valid;
    assert FormatBigInt(x, p) == FixedNumeral(x, p).Text();
  }

  /** Exponent printing is exact for every integer: mantissa times ten to the exponent. */
  lemma ExponentExact(x: int)
    ensures var p := |Digits(Abs(x))| - 1;
            var n := FixedNumeral(x, p);
            && FormatBigInt(x, -1) == n.Text() + "e" + Digits(p)
            && n.Denotes(x, p) && n.NoTrailingZero()
            && Value(Digits(p)) == p
  {
    var p := |Digits(Abs(x))| - 1;
    DigitCount(Abs(x));
    FixedPrecisionExact(x, p);
    ValueOfDigits(p);
  }
}
