/**
 * The part of Python's `decimal` arithmetic that the weight validator uses:
 * `quantize(Decimal('0.01'))` in the default context, which rounds half to
 * even and has a precision of 28 significant digits.
 */
module Decimals {
  import opened Wrappers

  /** A finite decimal `coef × 10^exp`, the coefficient and exponent a Python
      `Decimal` holds; the sign is carried by the coefficient. */
  datatype Decimal = Decimal(coef: int, exp: int)

  /** The signal `quantize` raises when its result does not fit the context. */
  datatype DecimalError = InvalidOperation

  /** Number of significant digits of the default decimal context. */
  const Precision: nat := 28

  function Pow10(n: nat): (r: nat)
    ensures r >= 1
  {
    if n == 0 then 1 else 10 * Pow10(n - 1)
  }

  function Abs(x: int): nat
  {
    if x < 0 then -x else x
  }

  function RAbs(x: real): real
  {
    if x < 0.0 then -x else x
  }

  /** The exact rational value of a decimal. */
  function ToReal(w: Decimal): real
  {
    if w.exp >= 0 then (w.coef * Pow10(w.exp)) as real
    else w.coef as real / Pow10(-w.exp) as real
  }

  /** The integer nearest to `n / d`; of two equally near, the even one. */
  function RoundHalfEven(n: int, d: nat): (q: int)
    requires d > 0
    ensures 2 * Abs(q * d - n) <= d
    ensures 2 * Abs(q * d - n) == d ==> q % 2 == 0
  {
    var q0, r := n / d, n % d;
    assert q0 * d - n == -r;
    assert (q0 + 1) * d - n == d - r;
    if 2 * r < d then q0
    else if 2 * r > d then q0 + 1
    else if q0 % 2 == 0 then q0 else q0 + 1
  }

  /** The value `w × 100`, exact when it is an integer and otherwise rounded
      half to even: the coefficient that `quantize` gives at exponent -2. */
  function Cents(w: Decimal): int
  {
    if w.exp >= -2 then w.coef * Pow10(w.exp + 2)
    else RoundHalfEven(w.coef, Pow10(-2 - w.exp))
  }

  /** `w.quantize(Decimal('0.01'))` in the default context: the value at
      exponent -2, or `InvalidOperation` when its coefficient would need more
      than `Precision` digits. */
  function QuantizeCents(w: Decimal): (r: Result<Decimal, DecimalError>)
    ensures r.Ok? ==> r.value.exp == -2
  {
    var c := Cents(w);
    if Abs(c) >= Pow10(Precision) then Err(InvalidOperation) else Ok(Decimal(c, -2))
  }

  // ---------------------------------------------------------------------------
  // Rounding

  lemma Pow10Add(a: nat, b: nat)
    ensures Pow10(a + b) == Pow10(a) * Pow10(b)
  {
    if a > 0 {
      Pow10Add(a - 1, b);
    }
  }

  lemma Pow10Even(n: nat)
    requires n >= 1
    ensures Pow10(n) % 2 == 0
  {
    assert Pow10(n) == 2 * (5 * Pow10(n - 1));
  }

  lemma MulMono(a: nat, b: nat, d: nat)
    requires a <= b
    ensures a * d <= b * d
  {
    assert b * d == a * d + (b - a) * d;
  }

  lemma MulAbs(a: int, d: nat)
    ensures Abs(a * d) == Abs(a) * d
  {
    if a < 0 {
      assert a * d == -((-a) * d);
    }
  }

  /** Two integers that are both within half of `d` of `n`, with ties going
      to an even one, are the same integer. */
  lemma RoundingUnique(n: int, d: nat, q1: int, q2: int)
    requires d > 0
    requires 2 * Abs(q1 * d - n) <= d && (2 * Abs(q1 * d - n) == d ==> q1 % 2 == 0)
    requires 2 * Abs(q2 * d - n) <= d && (2 * Abs(q2 * d - n) == d ==> q2 % 2 == 0)
    ensures q1 == q2
  {
    if q1 != q2 {
      assert (q1 - q2) * d == (q1 * d - n) - (q2 * d - n);
      MulAbs(q1 - q2, d);
      if Abs(q1 - q2) >= 2 {
        MulMono(2, Abs(q1 - q2), d);
      } else {
        MulMono(1, Abs(q1 - q2), d);
      }
      assert false;
    }
  }

  /** Rounding half to even is the integer nearest to `n / d`. */
  lemma RoundHalfEvenNearest(n: int, d: nat, m: int)
    requires d > 0
    ensures Abs(RoundHalfEven(n, d) * d - n) <= Abs(m * d - n)
  {
    var q := RoundHalfEven(n, d);
    if m != q {
      MulAbs(m - q, d);
      MulMono(1, Abs(m - q), d);
      assert m * d - n == (m - q) * d + (q * d - n);
    }
  }

  /** Rounding half to even is symmetric in sign, so rounding the magnitude
      and keeping the sign, as Python's decimal module does, gives the same
      coefficient. */
  lemma RoundHalfEvenNegate(n: int, d: nat)
    requires d > 0
    ensures RoundHalfEven(-n, d) == -RoundHalfEven(n, d)
  {
    var q := RoundHalfEven(n, d);
    assert (-q) * d - (-n) == -(q * d - n);
    assert q % 2 == 0 ==> (-q) % 2 == 0;
    RoundingUnique(-n, d, RoundHalfEven(-n, d), -q);
  }

  // ---------------------------------------------------------------------------
  // Quantizing to hundredths

  lemma DivMono(x: real, y: real, d: real)
    requires d > 0.0 && x <= y
    ensures x / d <= y / d
  {
    assert y / d - x / d == (y - x) / d;
  }

  lemma ScaledDistance(a: int, n: int, d: nat)
    requires d > 0
    ensures RAbs(a as real - n as real / d as real) == Abs(a * d - n) as real / d as real
  {
    var dr := d as real;
    assert a as real - n as real / dr == (a * d - n) as real / dr;
  }

  /** A decimal with at most two fractional digits is exactly `Cents(w)` hundredths. */
  lemma CentsExact(w: Decimal)
    requires w.exp >= -2
    ensures Cents(w) as real == 100.0 * ToReal(w)
  {
    if w.exp >= 0 {
      Pow10Add(2, w.exp as nat);
      assert w.coef * (100 * Pow10(w.exp)) == 100 * (w.coef * Pow10(w.exp));
    } else if w.exp == -1 {
      assert Pow10(1) == 10;
    } else {
      assert Pow10(0) == 1 && Pow10(2) == 100;
    }
  }

  lemma CentsScaled(w: Decimal)
    requires w.exp < -2
    ensures 100.0 * ToReal(w) == w.coef as real / Pow10(-2 - w.exp) as real
  {
    var k: nat := -2 - w.exp;
    Pow10Add(2, k);
    assert Pow10(-w.exp) == 100 * Pow10(k);
    var dr := Pow10(k) as real;
    assert 100.0 * (w.coef as real / (100.0 * dr)) == w.coef as real / dr;
  }

  /** `Cents(w)` is the integer nearest to `100 · w`. */
  lemma CentsNearest(w: Decimal, m: int)
    ensures RAbs(Cents(w) as real - 100.0 * ToReal(w)) <= RAbs(m as real - 100.0 * ToReal(w))
  {
    if w.exp >= -2 {
      CentsExact(w);
    } else {
      var d := Pow10(-2 - w.exp);
      CentsScaled(w);
      ScaledDistance(Cents(w), w.coef, d);
      ScaledDistance(m, w.coef, d);
      RoundHalfEvenNearest(w.coef, d, m);
      DivMono(Abs(Cents(w) * d - w.coef) as real, Abs(m * d - w.coef) as real, d as real);
    }
  }

  /** `Cents(w)` is at most half a unit from `100 · w`, and even when exactly half. */
  lemma CentsWithinHalf(w: Decimal)
    ensures 2.0 * RAbs(Cents(w) as real - 100.0 * ToReal(w)) <= 1.0
    ensures 2.0 * RAbs(Cents(w) as real - 100.0 * ToReal(w)) == 1.0 ==> Cents(w) % 2 == 0
  {
    if w.exp >= -2 {
      CentsExact(w);
    } else {
      var d := Pow10(-2 - w.exp);
      CentsScaled(w);
      ScaledDistance(Cents(w), w.coef, d);
      HalfBound(Abs(Cents(w) * d - w.coef), d);
    }
  }

  lemma HalfBound(e: nat, d: nat)
    requires d > 0 && 2 * e <= d
    ensures 2.0 * (e as real / d as real) <= 1.0
    ensures 2.0 * (e as real / d as real) == 1.0 ==> 2 * e == d
  {
    var dr := d as real;
    assert 2.0 * (e as real / dr) == (2 * e) as real / dr;
    DivMono((2 * e) as real, dr, dr);
  }

  /** A quantized weight is the multiple of 0.01 nearest to the input: it is at
      most 0.005 away, and of two equally near multiples it has the even
      coefficient. */
  lemma QuantizeCentsNearest(w: Decimal, m: int)
    requires QuantizeCents(w).Ok?
    ensures RAbs(ToReal(QuantizeCents(w).value) - ToReal(w)) <= 0.005
    ensures RAbs(ToReal(QuantizeCents(w).value) - ToReal(w)) == 0.005 ==> QuantizeCents(w).value.coef % 2 == 0
    ensures RAbs(ToReal(QuantizeCents(w).value) - ToReal(w)) <= RAbs(m as real / 100.0 - ToReal(w))
  {
    var c := Cents(w);
    assert Pow10(2) == 100;
    assert ToReal(QuantizeCents(w).value) == c as real / 100.0;
    CentsWithinHalf(w);
    CentsNearest(w, m);
  }

  /** Quantizing a quantized weight changes nothing. */
  lemma QuantizeCentsIdempotent(w: Decimal)
    requires QuantizeCents(w).Ok?
    ensures QuantizeCents(QuantizeCents(w).value) == QuantizeCents(w)
  {
    assert Pow10(0) == 1;
  }

  /** An integer rounded half to even from `x` reaches the even bound `b` in
      magnitude exactly when `x` is at least `b - 1/2` in magnitude. */
  lemma RoundedReachesBound(c: int, x: real, b: nat)
    requires b % 2 == 0
    requires 2.0 * RAbs(c as real - x) <= 1.0
    requires 2.0 * RAbs(c as real - x) == 1.0 ==> c % 2 == 0
    ensures Abs(c) >= b <==> RAbs(x) >= b as real - 0.5
  {
  }

  /** `quantize` refuses a weight exactly when its magnitude is at least
      10^26 - 0.005, that is when the rounded number of hundredths needs more
      than 28 digits. */
  lemma QuantizeCentsRejects(w: Decimal)
    ensures QuantizeCents(w).Err? <==> RAbs(ToReal(w)) >= Pow10(Precision - 2) as real - 0.005
  {
    var b := Pow10(Precision);
    Pow10Add(2, Precision - 2);
    assert Pow10(2) == 100;
    CentsWithinHalf(w);
    Pow10Even(Precision);
    RoundedReachesBound(Cents(w), 100.0 * ToReal(w), b);
  }
}
