/**
 * Finite decimal numbers, as the price field of a request carries them:
 * a value `coefficient × 10^exponent`, the sign carried by the coefficient.
 * The same value has many representations (19.99 and 19.990), so every
 * predicate here depends on the value only, and the price column stores it
 * as a whole number of hundredths.
 */
module Decimals {

  function Pow10(n: nat): (r: nat)
    ensures r >= 1
  {
    if n == 0 then 1 else 10 * Pow10(n - 1)
  }

  datatype Decimal = Decimal(coefficient: int, exponent: int)

  function Min(a: int, b: int): int {
    if a <= b then a else b
  }

  /** The integer `k` with `d == k × 10^e`, for an exponent `e` no larger than `d`'s own. */
  function ScaledTo(d: Decimal, e: int): int
    requires e <= d.exponent
  {
    d.coefficient * Pow10(d.exponent - e)
  }

  /** `a` and `b` denote the same number: compared at the finer of their two exponents. */
  predicate SameValue(a: Decimal, b: Decimal) {
    var e := Min(a.exponent, b.exponent);
    ScaledTo(a, e) == ScaledTo(b, e)
  }

  /** `d > bound` (the `gt` constraint), compared at the finer of the two exponents. */
  predicate Exceeds(d: Decimal, bound: int) {
    if d.exponent >= 0 then ScaledTo(d, 0) > bound
    else d.coefficient > bound * Pow10(-d.exponent)
  }

  /**
   * At most `n` digits after the point once trailing zeros are dropped
   * (the `decimal_places` constraint, which counts places of the normalised number).
   */
  predicate AtMostPlaces(d: Decimal, n: nat) {
    d.exponent >= -(n as int) || d.coefficient % Pow10(-(n as int) - d.exponent) == 0
  }

  /** The number of units of 10^-n in `d`, for a `d` with at most `n` places. */
  function UnitsOf(d: Decimal, n: nat): int
    requires AtMostPlaces(d, n)
  {
    if d.exponent >= -(n as int) then ScaledTo(d, -(n as int))
    else d.coefficient / Pow10(-(n as int) - d.exponent)
  }

  /** The number of hundredths in `d`: the unscaled value of a scale-2 column. */
  function Hundredths(d: Decimal): int
    requires AtMostPlaces(d, 2)
  {
    UnitsOf(d, 2)
  }

  /** The decimal that a scale-2 column holding `h` hundredths reads back as. */
  function FromHundredths(h: int): Decimal {
    Decimal(h, -2)
  }

  lemma MultipleBounds(k: int, p: int)
    requires p > 0
    ensures k >= 1 ==> k * p >= p
    ensures k <= -1 ==> k * p <= -p
  {
  }

  lemma ExactDivision(h: int, p: int)
    requires p > 0
    ensures (h * p) % p == 0 && (h * p) / p == h
  {
    var q, r := (h * p) / p, (h * p) % p;
    assert h * p == q * p + r && 0 <= r < p;
    assert (h - q) * p == r;
    MultipleBounds(h - q, p);
  }

  /** The number `h × 10^-n`. */
  function Units(h: int, n: nat): Decimal {
    Decimal(h, -(n as int))
  }

  lemma UnitsOfRoundTrip(d: Decimal, n: nat)
    requires AtMostPlaces(d, n)
    ensures SameValue(d, Units(UnitsOf(d, n), n))
  {
  }

  lemma PlacesFromValue(d: Decimal, n: nat, h: int)
    requires SameValue(d, Units(h, n))
    ensures AtMostPlaces(d, n)
  {
    if d.exponent < -(n as int) {
      var p := Pow10(-(n as int) - d.exponent);
      assert ScaledTo(d, d.exponent) == d.coefficient;
      assert d.coefficient == h * p;
      ExactDivision(h, p);
    }
  }

  /** A number has at most `n` places exactly when it is a whole number of units of 10^-n. */
  lemma AtMostPlacesIsValueBased(d: Decimal, n: nat)
    ensures AtMostPlaces(d, n) <==> exists h :: SameValue(d, Units(h, n))
  {
    if AtMostPlaces(d, n) {
      UnitsOfRoundTrip(d, n);
    }
    if h :| SameValue(d, Units(h, n)) {
      PlacesFromValue(d, n, h);
    }
  }

  /** Reading a scale-2 column back gives the number that was written. */
  lemma HundredthsRoundTrip(d: Decimal)
    requires AtMostPlaces(d, 2)
    ensures SameValue(d, FromHundredths(Hundredths(d)))
    ensures AtMostPlaces(FromHundredths(Hundredths(d)), 2)
    ensures Hundredths(FromHundredths(Hundredths(d))) == Hundredths(d)
  {
  }

  /** `gt=0` holds exactly for a positive coefficient, whatever the exponent. */
  lemma ExceedsZero(d: Decimal)
    ensures Exceeds(d, 0) <==> d.coefficient > 0
  {
  }

  /** A price with at most two places is positive exactly when its hundredths are. */
  lemma PositiveHundredths(d: Decimal)
    requires AtMostPlaces(d, 2)
    ensures Exceeds(d, 0) <==> Hundredths(d) > 0
  {
  }
}
