/** Dot products over the reals: the exact value that every reduction order of a kernel stands for. */
module Vectors {
  /** The dot product of the first `n` elements. */
  function Dot(a: seq<real>, b: seq<real>, n: nat): real
    requires n <= |a| && n <= |b|
  {
    if n == 0 then 0.0 else Dot(a, b, n - 1) + a[n - 1] * b[n - 1]
  }

  // ---------------------------------------------------------------- linear in its first argument, and one on unit vectors

  ghost predicate IsUnit(u: seq<real>, i: nat) {
    i < |u| && forall j :: 0 <= j < |u| ==> u[j] == if j == i then 1.0 else 0.0
  }

  /** The product with a unit vector is that element. */
  lemma {:induction false} DotUnit(a: seq<real>, u: seq<real>, i: nat, n: nat)
    requires IsUnit(u, i) && n <= |a| && n <= |u|
    ensures Dot(a, u, n) == if i < n then a[i] else 0.0
  {
    if n > 0 { DotUnit(a, u, i, n - 1); }
  }

  lemma OneMore(x: real, y: real, c: real, d: real, p: real, q: real, u: real)
    ensures (c * x + d * y) + (c * p + d * q) * u == c * (x + p * u) + d * (y + q * u)
  {
    assert (c * p + d * q) * u == c * (p * u) + d * (q * u);
  }

  ghost predicate Combines(a: seq<real>, b: seq<real>, c: real, d: real, r: seq<real>) {
    |a| == |b| == |r| && forall i :: 0 <= i < |r| ==> r[i] == c * a[i] + d * b[i]
  }

  /** The product of a combination is the combination of the products. */
  lemma {:induction false} DotLinear(a: seq<real>, b: seq<real>, r: seq<real>, c: real, d: real, u: seq<real>, n: nat)
    requires Combines(a, b, c, d, r) && n <= |a| && n <= |u|
    ensures Dot(r, u, n) == c * Dot(a, u, n) + d * Dot(b, u, n)
  {
    if n > 0 {
      DotLinear(a, b, r, c, d, u, n - 1);
      OneMore(Dot(a, u, n - 1), Dot(b, u, n - 1), c, d, a[n - 1], b[n - 1], u[n - 1]);
    }
  }

  lemma Scales(x: real, p: real, c: real, u: real)
    ensures c * x + (p * c) * u == c * (x + p * u)
  {
  }

  lemma {:induction false} DotScaled(a: seq<real>, r: seq<real>, c: real, u: seq<real>, n: nat)
    requires |a| == |r| && n <= |a| && n <= |u| && forall i :: 0 <= i < |r| ==> r[i] == a[i] * c
    ensures Dot(r, u, n) == c * Dot(a, u, n)
  {
    if n > 0 {
      DotScaled(a, r, c, u, n - 1);
      Scales(Dot(a, u, n - 1), a[n - 1], c, u[n - 1]);
    }
  }
}
