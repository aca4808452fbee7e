/**
  Online softmax (src/ops/attention.cpp:47-75, 197-243) over the reals: one pass over the keys that keeps a running
  maximum, and rescales what it has whenever the maximum grows, computes the softmax-weighted average.
 */
module Softmax {
  import opened Vectors

  /** `c == a + b` makes `exp(c)` the product. Named, so that it is applied only where it is written. */
  ghost predicate Adds(exp: real -> real, a: real, b: real, c: real) {
    c == a + b ==> exp(c) == exp(a) * exp(b)
  }

  /** All that is used of the exponential function. */
  ghost predicate Exponential(exp: real -> real) {
    (forall x :: exp(x) > 0.0) && forall a, b, c :: Adds(exp, a, b, c)
  }

  // ---------------------------------------------------------------- the reference

  /** The sum of `exp(score - shift)` over the first `n` keys. */
  function Weight(exp: real -> real, scores: seq<real>, n: nat, shift: real): real
    requires n <= |scores|
  {
    if n == 0 then 0.0 else Weight(exp, scores, n - 1, shift) + exp(scores[n - 1] - shift)
  }

  /** The same sum with each key's value in column `d` as a factor. */
  function Weighted(exp: real -> real, scores: seq<real>, column: seq<real>, n: nat, shift: real): real
    requires n <= |scores| && n <= |column|
  {
    if n == 0 then 0.0
    else Weighted(exp, scores, column, n - 1, shift) + exp(scores[n - 1] - shift) * column[n - 1]
  }

  lemma {:induction false} WeightPositive(exp: real -> real, scores: seq<real>, n: nat, shift: real)
    requires Exponential(exp) && 0 < n <= |scores|
    ensures Weight(exp, scores, n, shift) > 0.0
  {
    assert exp(scores[n - 1] - shift) > 0.0;
    if n > 1 { WeightPositive(exp, scores, n - 1, shift); }
  }

  /** The softmax-weighted average of a column over the first `n` keys. */
  ghost function Average(exp: real -> real, scores: seq<real>, column: seq<real>, n: nat): real
    requires Exponential(exp) && 0 < n <= |scores| && n <= |column|
  {
    WeightPositive(exp, scores, n, 0.0);
    Weighted(exp, scores, column, n, 0.0) / Weight(exp, scores, n, 0.0)
  }

  // ---------------------------------------------------------------- shifting

  /** One term under another shift. */
  lemma ShiftOne(exp: real -> real, s: real, a: real, b: real)
    requires Exponential(exp)
    ensures exp(s - a) * exp(a - b) == exp(s - b)
  {
    assert Adds(exp, s - a, a - b, s - b);
  }

  lemma Scale(x: real, y: real, c: real)
    ensures (x + y) * c == x * c + y * c
  {
  }

  lemma ScaleTerm(e: real, v: real, c: real, f: real)
    requires e * c == f
    ensures e * v * c == f * v
  {
    assert e * v * c == (e * c) * v;
  }

  lemma {:induction false} ShiftWeight(exp: real -> real, scores: seq<real>, n: nat, a: real, b: real, c: real)
    requires Exponential(exp) && n <= |scores| && c == exp(a - b)
    ensures Weight(exp, scores, n, a) * c == Weight(exp, scores, n, b)
  {
    if n > 0 {
      ShiftWeight(exp, scores, n - 1, a, b, c);
      ShiftOne(exp, scores[n - 1], a, b);
      Scale(Weight(exp, scores, n - 1, a), exp(scores[n - 1] - a), c);
    }
  }

  lemma {:induction false} ShiftWeighted(exp: real -> real, scores: seq<real>, column: seq<real>, n: nat, a: real, b: real, c: real)
    requires Exponential(exp) && n <= |scores| && n <= |column| && c == exp(a - b)
    ensures Weighted(exp, scores, column, n, a) * c == Weighted(exp, scores, column, n, b)
  {
    if n > 0 {
      ShiftWeighted(exp, scores, column, n - 1, a, b, c);
      ShiftOne(exp, scores[n - 1], a, b);
      ScaleTerm(exp(scores[n - 1] - a), column[n - 1], c, exp(scores[n - 1] - b));
      Scale(Weighted(exp, scores, column, n - 1, a), exp(scores[n - 1] - a) * column[n - 1], c);
    }
  }

  lemma SameRatio(x: real, y: real, c: real, p: real, q: real)
    requires x * c == p && y * c == q && y > 0.0 && c > 0.0 && q > 0.0
    ensures x / y == p / q
  {
    assert p / q == (x * c) / (y * c);
    assert x / y * (y * c) == (x / y * y) * c;
  }

  /** The two-pass form, with the maximum or any other number subtracted from the scores, is the same average. */
  lemma AnyShift(exp: real -> real, scores: seq<real>, column: seq<real>, n: nat, shift: real)
    requires Exponential(exp) && 0 < n <= |scores| && n <= |column|
    ensures Weight(exp, scores, n, shift) > 0.0
    ensures Weighted(exp, scores, column, n, shift) / Weight(exp, scores, n, shift) == Average(exp, scores, column, n)
  {
    WeightPositive(exp, scores, n, shift);
    WeightPositive(exp, scores, n, 0.0);
    var c := exp(shift - 0.0);
    ShiftWeight(exp, scores, n, shift, 0.0, c);
    ShiftWeighted(exp, scores, column, n, shift, 0.0, c);
    SameRatio(Weighted(exp, scores, column, n, shift), Weight(exp, scores, n, shift), c,
              Weighted(exp, scores, column, n, 0.0), Weight(exp, scores, n, 0.0));
  }

  // ---------------------------------------------------------------- what kind of average it is

  lemma {:induction false} WeightedOne(exp: real -> real, scores: seq<real>, column: seq<real>, n: nat, shift: real, i: nat)
    requires n <= |scores| && n <= |column| && IsUnit(column, i)
    ensures Weighted(exp, scores, column, n, shift) == if i < n then exp(scores[i] - shift) else 0.0
  {
    if n > 0 { WeightedOne(exp, scores, column, n - 1, shift, i); }
  }

  /** A column with one 1 averages to that key's weight; weights are positive, and as the exponentials of the scores. */
  lemma WeightsAreExponentials(exp: real -> real, scores: seq<real>, n: nat, i: nat, j: nat, a: seq<real>, b: seq<real>)
    requires Exponential(exp) && i < n && j < n <= |scores| && n <= |a| && n <= |b| && IsUnit(a, i) && IsUnit(b, j)
    ensures Average(exp, scores, a, n) > 0.0
    ensures Average(exp, scores, a, n) == exp(scores[i] - scores[j]) * Average(exp, scores, b, n)
  {
    var e, f, w := exp(scores[i] - 0.0), exp(scores[j] - 0.0), Weight(exp, scores, n, 0.0);
    WeightPositive(exp, scores, n, 0.0);
    WeightedOne(exp, scores, a, n, 0.0, i);
    WeightedOne(exp, scores, b, n, 0.0, j);
    ShiftOne(exp, scores[i], scores[j], 0.0);
    RatioScales(e, f, exp(scores[i] - scores[j]), w);
  }

  lemma RatioScales(e: real, f: real, c: real, w: real)
    requires e == c * f && w > 0.0 && e > 0.0
    ensures e / w == c * (f / w) && e / w > 0.0
  {
  }

  lemma {:induction false} WeightedConstant(exp: real -> real, scores: seq<real>, column: seq<real>, n: nat, shift: real, c: real)
    requires n <= |scores| && n <= |column| && forall j :: 0 <= j < n ==> column[j] == c
    ensures Weighted(exp, scores, column, n, shift) == c * Weight(exp, scores, n, shift)
  {
    if n > 0 {
      WeightedConstant(exp, scores, column, n - 1, shift, c);
      Scale(Weight(exp, scores, n - 1, shift), exp(scores[n - 1] - shift), c);
    }
  }

  /** The weights add up to one: equal values average to themselves. */
  lemma AverageOfConstant(exp: real -> real, scores: seq<real>, column: seq<real>, n: nat, c: real)
    requires Exponential(exp) && 0 < n <= |scores| && n <= |column| && forall j :: 0 <= j < n ==> column[j] == c
    ensures Average(exp, scores, column, n) == c
  {
    WeightPositive(exp, scores, n, 0.0);
    WeightedConstant(exp, scores, column, n, 0.0, c);
  }

  lemma AddTerm(p: real, q: real, c: real, d: real, e: real, u: real, v: real)
    ensures (c * p + d * q) + e * (c * u + d * v) == c * (p + e * u) + d * (q + e * v)
  {
    assert e * (c * u + d * v) == c * (e * u) + d * (e * v);
  }

  lemma {:induction false} WeightedLinear(exp: real -> real, scores: seq<real>, a: seq<real>, b: seq<real>, c: real, d: real,
                                          r: seq<real>, n: nat, shift: real)
    requires n <= |scores| && n <= |a| && Combines(a, b, c, d, r)
    ensures Weighted(exp, scores, r, n, shift)
         == c * Weighted(exp, scores, a, n, shift) + d * Weighted(exp, scores, b, n, shift)
  {
    if n > 0 {
      WeightedLinear(exp, scores, a, b, c, d, r, n - 1, shift);
      AddTerm(Weighted(exp, scores, a, n - 1, shift), Weighted(exp, scores, b, n - 1, shift), c, d, exp(scores[n - 1] - shift),
              a[n - 1], b[n - 1]);
    }
  }

  /** The average of a combination of columns is the combination of their averages. */
  lemma AverageLinear(exp: real -> real, scores: seq<real>, a: seq<real>, b: seq<real>, c: real, d: real, r: seq<real>, n: nat)
    requires Exponential(exp) && 0 < n <= |scores| && n <= |a| && Combines(a, b, c, d, r)
    ensures Average(exp, scores, r, n) == c * Average(exp, scores, a, n) + d * Average(exp, scores, b, n)
  {
    var w := Weight(exp, scores, n, 0.0);
    WeightPositive(exp, scores, n, 0.0);
    WeightedLinear(exp, scores, a, b, c, d, r, n, 0.0);
    QuotientOfSum(Weighted(exp, scores, r, n, 0.0), Weighted(exp, scores, a, n, 0.0), Weighted(exp, scores, b, n, 0.0), c, d, w);
  }

  lemma QuotientOfSum(r: real, p: real, q: real, c: real, d: real, w: real)
    requires w > 0.0 && r == c * p + d * q
    ensures r / w == c * (p / w) + d * (q / w)
  {
  }

  // ---------------------------------------------------------------- the running state

  /** The running maximum, sum and rescaling factors; `seen` stands for a maximum above minus infinity. */
  datatype Running = Running(seen: bool, max: real, sum: real)

  /** After `n` keys the sum is the weight of these keys, shifted by the running maximum. */
  ghost predicate Tracks(exp: real -> real, scores: seq<real>, n: nat, r: Running)
    requires n <= |scores|
  {
    && r.seen == (n > 0)
    && r.sum == Weight(exp, scores, n, r.max)
  }

  function Max(a: real, b: real): real { if a >= b then a else b }

  /** One key: the new state, and the factors for what was accumulated and for what is new. */
  method Step(exp: real -> real, r: Running, score: real, ghost scores: seq<real>, ghost n: nat)
    returns (next: Running, expOld: real, expNew: real)
    requires Exponential(exp) && n < |scores| && score == scores[n] && Tracks(exp, scores, n, r)
    ensures Tracks(exp, scores, n + 1, next)
    ensures expNew == exp(score - next.max)
    ensures expOld == if n == 0 then 0.0 else exp(r.max - next.max)
  {
    var newMax := if r.seen then Max(r.max, score) else score;
    expOld := if r.seen then exp(r.max - newMax) else 0.0;
    expNew := exp(score - newMax);
    if r.seen { ShiftWeight(exp, scores, n, r.max, newMax, expOld); }
    next := Running(true, newMax, r.sum * expOld + expNew);
  }

  /** The same update on an accumulated column. */
  lemma StepColumn(exp: real -> real, scores: seq<real>, column: seq<real>, n: nat, was: real, now: real, expOld: real, expNew: real)
    requires Exponential(exp) && n < |scores| && n < |column|
    requires expNew == exp(scores[n] - now) && expOld == if n == 0 then 0.0 else exp(was - now)
    ensures Weighted(exp, scores, column, n, was) * expOld + expNew * column[n] == Weighted(exp, scores, column, n + 1, now)
  {
    if n > 0 { ShiftWeighted(exp, scores, column, n, was, now, expOld); }
  }

  /** The final division gives the average. */
  lemma Normalize(exp: real -> real, scores: seq<real>, column: seq<real>, n: nat, r: Running, acc: real)
    requires Exponential(exp) && 0 < n <= |scores| && n <= |column| && Tracks(exp, scores, n, r)
    requires acc == Weighted(exp, scores, column, n, r.max)
    ensures r.sum > 0.0 && acc * (1.0 / r.sum) == Average(exp, scores, column, n)
  {
    AnyShift(exp, scores, column, n, r.max);
    DivideIsTimesInverse(acc, r.sum);
  }

  lemma DivideIsTimesInverse(x: real, y: real)
    requires y > 0.0
    ensures x * (1.0 / y) == x / y
  {
  }
}
