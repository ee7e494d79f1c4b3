/** Momentum scores and the momentum calculator of the GEM (Generalized
    Momentum) app: one price series in, one trailing total return out.

    Prices and returns are `real`. Where the app produces a floating-point
    NaN (a series too short to measure) the model has the explicit
    constructor `Undefined`, and the comparisons below reproduce how Python
    compares floats when one side is NaN: always false.
 */
module Momentum {

  /** A momentum score: a defined return, or `Undefined` where the app
      returns `float("nan")`. */
  datatype Mom = Num(value: real) | Undefined

  /** Python's `a > b` on two float scores: false as soon as either side is NaN. */
  predicate Gt(a: Mom, b: Mom) {
    a.Num? && b.Num? && a.value > b.value
  }

  /** Python's `m > 0` on a float score. */
  predicate Positive(m: Mom) {
    Gt(m, Num(0.0))
  }

  /** Python's `>` on floats, restricted to defined scores, is a strict
      order, and an undefined score is incomparable with every score: it
      neither compares greater than anything nor is anything greater than it. */
  lemma GtOrder(a: Mom, b: Mom, c: Mom)
    ensures !Gt(a, a)
    ensures Gt(a, b) ==> !Gt(b, a)
    ensures Gt(a, b) && Gt(b, c) ==> Gt(a, c)
    ensures a.Num? && b.Num? ==> Gt(a, b) || Gt(b, a) || a == b
    ensures a.Undefined? ==> !Gt(a, b) && !Gt(b, a) && !Positive(a)
  {
  }

  /** The most recent price of a series. */
  function Last(prices: seq<real>): real
    requires |prices| > 0
  {
    prices[|prices| - 1]
  }

  /** Every price of the series is strictly positive, as the market-data
      service delivers them. */
  predicate PositiveSeries(prices: seq<real>) {
    forall i :: 0 <= i < |prices| ==> prices[i] > 0.0
  }

  /** The total return from the first to the last price of the series, or
      `Undefined` when there are fewer than two prices. A defined result is
      the growth factor minus one: the first price grown by `1 + r` is the
      last price. */
  function CalcMomentum(prices: seq<real>): (r: Mom)
    requires |prices| < 2 || prices[0] != 0.0
    ensures r.Undefined? <==> |prices| < 2
    ensures r.Num? ==> prices[0] * (1.0 + r.value) == Last(prices)
  {
    if |prices| < 2 then Undefined
    else Num(Last(prices) / prices[0] - 1.0)
  }

  /** The score depends on the two end points only: series that agree on
      their first and last prices have the same score, whatever lies between. */
  lemma EndpointsOnly(p: seq<real>, q: seq<real>)
    requires |p| >= 2 && |q| >= 2 && p[0] != 0.0
    requires p[0] == q[0] && Last(p) == Last(q)
    ensures CalcMomentum(p) == CalcMomentum(q)
  {
  }

  /** On a positive series of two or more prices the score is defined, it is
      positive exactly when the last price is above the first, zero exactly
      when they are equal, and it never reaches -100%. */
  lemma SignFollowsEndpoints(prices: seq<real>)
    requires |prices| >= 2 && PositiveSeries(prices)
    ensures CalcMomentum(prices).Num?
    ensures Positive(CalcMomentum(prices)) <==> Last(prices) > prices[0]
    ensures CalcMomentum(prices).value == 0.0 <==> Last(prices) == prices[0]
    ensures CalcMomentum(prices).value > -1.0
  {
  }

  /** Returns compound: splitting the series at any inner observation `k`, the
      growth factor over the whole series is the product of the growth
      factors over the two halves, which share observation `k`. */
  lemma Compounds(prices: seq<real>, k: int)
    requires 1 <= k <= |prices| - 2
    requires prices[0] != 0.0 && prices[k] != 0.0
    ensures (1.0 + CalcMomentum(prices[..k + 1]).value) * (1.0 + CalcMomentum(prices[k..]).value)
            == 1.0 + CalcMomentum(prices).value
  {
  }

  /** The series with every price multiplied by `c` (the same prices quoted
      in another unit). */
  function Scale(prices: seq<real>, c: real): seq<real> {
    seq(|prices|, i requires 0 <= i < |prices| => c * prices[i])
  }

  /** The score is unit-free: quoting every price in another unit leaves it
      unchanged. */
  lemma ScaleInvariant(prices: seq<real>, c: real)
    requires c != 0.0
    requires |prices| < 2 || prices[0] != 0.0
    ensures CalcMomentum(Scale(prices, c)) == CalcMomentum(prices)
  {
  }
}
