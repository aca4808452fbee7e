/**
  Causal attention (src/ops/attention.cpp:20-251): the reference kernel over a whole sequence, the KV-cache writes, and the
  kernel that reads the cache with sixteen lanes per query head. Buffers are flat: position-major, then head, then
  dimension.
 */
module Attention {
  import opened Vectors
  import opened Softmax
  import opened Arithmetic

  const LANES: nat := 16

  /** Heads of queries and of keys and values, and the size of each. */
  datatype Shape = Shape(hq: nat, hkv: nat, dim: nat) {
    ghost predicate Valid() { hq > 0 && hkv > 0 && dim > 0 && hq % hkv == 0 }

    /** Elements per position of a key or value buffer. */
    function Stride(): nat { hkv * dim }

    /** The key-value head that serves query head `h`: neighbouring query heads share one. */
    function KvHead(h: nat): (k: nat)
      requires Valid() && h < hq
      ensures k < hkv
    {
      var ratio := hq / hkv;
      assert hq == hkv * ratio;
      assert ratio > 0;
      Quotient(h, hkv, ratio);
      h / ratio
    }
  }

  // ---------------------------------------------------------------- the reference

  lemma HeadBound(s: Shape, j: nat, n: nat, k: nat)
    requires j < n && k < s.hkv
    ensures 0 <= (j * s.hkv + k) * s.dim && (j * s.hkv + k) * s.dim + s.dim <= n * s.Stride()
  {
    TimesMono(j + 1, n, s.hkv);
    var at := j * s.hkv + k;
    TimesMono(at + 1, n * s.hkv, s.dim);
    assert n * s.hkv * s.dim == n * (s.hkv * s.dim);
  }

  /** Key or value vector of head `k` at position `j`. */
  function Head(s: Shape, buf: seq<real>, n: nat, k: nat, j: nat): (v: seq<real>)
    requires n * s.Stride() <= |buf| && j < n && k < s.hkv
    ensures |v| == s.dim
  {
    HeadBound(s, j, n, k);
    buf[(j * s.hkv + k) * s.dim..(j * s.hkv + k) * s.dim + s.dim]
  }

  /** What one query head sees: its own vector, and `n` keys and values of its key-value head. */
  datatype View = View(s: Shape, q: seq<real>, keys: seq<real>, values: seq<real>, n: nat, k: nat, scale: real) {
    ghost predicate Valid() {
      |q| == s.dim && 0 < n && n * s.Stride() <= |keys| && n * s.Stride() <= |values| && k < s.hkv
    }

    function Key(j: nat): (v: seq<real>)
      requires Valid() && j < n
      ensures |v| == s.dim
    {
      Head(s, keys, n, k, j)
    }

    function Value(j: nat): (v: seq<real>)
      requires Valid() && j < n
      ensures |v| == s.dim
    {
      Head(s, values, n, k, j)
    }

    function Score(j: nat): real
      requires Valid() && j < n
    {
      Dot(q, Key(j), s.dim) * scale
    }
  }

  /** The scaled scores of the first `j` keys. */
  function Scores(w: View, j: nat): (r: seq<real>)
    requires w.Valid() && j <= w.n
    ensures |r| == j
  {
    if j == 0 then [] else Scores(w, j - 1) + [w.Score(j - 1)]
  }

  /** Dimension `d` of the first `j` values. */
  function Column(w: View, d: nat, j: nat): (r: seq<real>)
    requires w.Valid() && d < w.s.dim && j <= w.n
    ensures |r| == j
  {
    if j == 0 then [] else Column(w, d, j - 1) + [w.Value(j - 1)[d]]
  }

  lemma {:induction false} ScoreAt(w: View, j: nat, i: nat)
    requires w.Valid() && i < j <= w.n
    ensures Scores(w, j)[i] == w.Score(i)
  {
    if i < j - 1 { ScoreAt(w, j - 1, i); }
  }

  lemma {:induction false} ColumnAt(w: View, d: nat, j: nat, i: nat)
    requires w.Valid() && d < w.s.dim && i < j <= w.n
    ensures Column(w, d, j)[i] == w.Value(i)[d]
  {
    if i < j - 1 { ColumnAt(w, d, j - 1, i); }
  }

  /** Dimension `d` of the attention output: the softmax-weighted average of the values. */
  ghost function OutAt(exp: real -> real, w: View, d: nat): real
    requires Exponential(exp) && w.Valid() && d < w.s.dim
  {
    Average(exp, Scores(w, w.n), Column(w, d, w.n), w.n)
  }

  /** The output up to dimension `d`. */
  ghost function HeadOut(exp: real -> real, w: View, d: nat): (r: seq<real>)
    requires Exponential(exp) && w.Valid() && d <= w.s.dim
    ensures |r| == d
  {
    if d == 0 then [] else HeadOut(exp, w, d - 1) + [OutAt(exp, w, d - 1)]
  }

  lemma {:induction false} HeadOutAt(exp: real -> real, w: View, n: nat, d: nat)
    requires Exponential(exp) && w.Valid() && d < n <= w.s.dim
    ensures HeadOut(exp, w, n)[d] == OutAt(exp, w, d)
  {
    if d < n - 1 { HeadOutAt(exp, w, n - 1, d); }
  }

  /** The score at position `j`: the query times the vector of the view's key-value head there, scaled. */
  ghost predicate IsScore(w: View, scores: seq<real>, j: nat)
    requires |scores| == w.n && j < w.n && |w.q| == w.s.dim
  {
    var at := (j * w.s.hkv + w.k) * w.s.dim;
    0 <= at && at + w.s.dim <= |w.keys| && scores[j] == Dot(w.q, w.keys[at..at + w.s.dim], w.s.dim) * w.scale
  }

  /** Dimension `d` of the value of that head there. */
  ghost predicate IsValue(w: View, d: nat, column: seq<real>, j: nat)
    requires |column| == w.n && j < w.n
  {
    var at := (j * w.s.hkv + w.k) * w.s.dim + d;
    0 <= at < |w.values| && column[j] == w.values[at]
  }

  lemma ScoreIs(w: View, scores: seq<real>, j: nat)
    requires w.Valid() && |scores| == w.n && j < w.n && IsScore(w, scores, j)
    ensures scores[j] == w.Score(j)
  {
  }

  lemma ValueIs(w: View, d: nat, column: seq<real>, j: nat)
    requires w.Valid() && d < w.s.dim && |column| == w.n && j < w.n && IsValue(w, d, column, j)
    ensures column[j] == w.Value(j)[d]
  {
    HeadBound(w.s, j, w.n, w.k);
  }

  lemma {:induction false} ScoresAre(w: View, scores: seq<real>, n: nat)
    requires w.Valid() && |scores| == w.n && n <= w.n && forall j: nat :: j < w.n ==> IsScore(w, scores, j)
    ensures Scores(w, n) == scores[..n]
  {
    if n > 0 {
      ScoresAre(w, scores, n - 1);
      ScoreIs(w, scores, n - 1);
      assert scores[..n] == scores[..n - 1] + [scores[n - 1]];
    }
  }

  lemma {:induction false} ColumnIs(w: View, d: nat, column: seq<real>, n: nat)
    requires w.Valid() && d < w.s.dim && |column| == w.n && n <= w.n && forall j: nat :: j < w.n ==> IsValue(w, d, column, j)
    ensures Column(w, d, n) == column[..n]
  {
    if n > 0 {
      ColumnIs(w, d, column, n - 1);
      ValueIs(w, d, column, n - 1);
      assert column[..n] == column[..n - 1] + [column[n - 1]];
    }
  }

  /** A query head's output, element by element: the softmax-weighted average over the positions it sees. */
  lemma OutIsAverage(exp: real -> real, w: View, d: nat, scores: seq<real>, column: seq<real>)
    requires Exponential(exp) && w.Valid() && d < w.s.dim && |scores| == |column| == w.n
    requires forall j: nat :: j < w.n ==> IsScore(w, scores, j)
    requires forall j: nat :: j < w.n ==> IsValue(w, d, column, j)
    ensures HeadOut(exp, w, w.s.dim)[d] == Average(exp, scores, column, w.n)
  {
    HeadOutAt(exp, w, w.s.dim, d);
    ScoresAre(w, scores, w.n);
    ColumnIs(w, d, column, w.n);
    assert scores[..w.n] == scores && column[..w.n] == column;
  }

  // ---------------------------------------------------------------- one query head

  /** The cooperative dot product: each lane a contiguous sixteenth, reduced over the lanes. */
  method LaneDot(q: seq<real>, k: seq<real>, perLane: nat) returns (dot: real)
    requires |q| == |k| == LANES * perLane
    ensures dot == Dot(q, k, |q|)
  {
    dot := 0.0;
    for lane := 0 to LANES
      invariant dot == Dot(q, k, lane * perLane)
    {
      TimesMono(lane + 1, LANES, perLane);
      var laneDot := OneLane(q, k, lane * perLane, perLane);
      dot := dot + laneDot;
    }
  }

  method OneLane(q: seq<real>, k: seq<real>, base: nat, n: nat) returns (dot: real)
    requires base + n <= |q| && base + n <= |k|
    ensures dot == Dot(q, k, base + n) - Dot(q, k, base)
  {
    dot := 0.0;
    for d := 0 to n
      invariant dot == Dot(q, k, base + d) - Dot(q, k, base)
    {
      dot := dot + q[base + d] * k[base + d];
    }
  }

  ghost predicate Updated(before: seq<real>, after: seq<real>, expOld: real, expNew: real, v: seq<real>) {
    |before| == |after| == |v| && forall d :: 0 <= d < |after| ==> after[d] == before[d] * expOld + expNew * v[d]
  }

  /** The value update on all dimensions, lane by lane. */
  method LaneUpdate(acc: array<real>, expOld: real, expNew: real, v: seq<real>, perLane: nat)
    requires acc.Length == |v| == LANES * perLane
    modifies acc
    ensures Updated(old(acc[..]), acc[..], expOld, expNew, v)
  {
    for lane := 0 to LANES
      invariant lane * perLane <= acc.Length
      invariant forall d :: 0 <= d < lane * perLane ==> acc[d] == old(acc[d]) * expOld + expNew * v[d]
      invariant forall d :: lane * perLane <= d < acc.Length ==> acc[d] == old(acc[d])
    {
      TimesMono(lane + 1, LANES, perLane);
      var base := lane * perLane;
      assert (lane + 1) * perLane == base + perLane;
      for i := 0 to perLane
        invariant forall d :: 0 <= d < base + i ==> acc[d] == old(acc[d]) * expOld + expNew * v[d]
        invariant forall d :: base + i <= d < acc.Length ==> acc[d] == old(acc[d])
      {
        acc[base + i] := acc[base + i] * expOld + expNew * v[base + i];
      }
    }
  }

  /** After `j` keys every accumulator holds its weighted sum, shifted by the running maximum. */
  ghost predicate Accumulated(exp: real -> real, w: View, j: nat, shift: real, acc: seq<real>)
    requires w.Valid() && j <= w.n
  {
    |acc| == w.s.dim &&
    forall d :: 0 <= d < |acc| ==> acc[d] == Weighted(exp, Scores(w, w.n), Column(w, d, w.n), j, shift)
  }

  lemma AccumulateColumn(exp: real -> real, w: View, j: nat, was: real, now: real, expOld: real, expNew: real, d: nat, acc: real)
    requires Exponential(exp) && w.Valid() && j < w.n && d < w.s.dim
    requires expNew == exp(w.Score(j) - now) && expOld == if j == 0 then 0.0 else exp(was - now)
    requires acc == Weighted(exp, Scores(w, w.n), Column(w, d, w.n), j, was)
    ensures acc * expOld + expNew * w.Value(j)[d] == Weighted(exp, Scores(w, w.n), Column(w, d, w.n), j + 1, now)
  {
    ScoreAt(w, w.n, j);
    ColumnAt(w, d, w.n, j);
    StepColumn(exp, Scores(w, w.n), Column(w, d, w.n), j, was, now, expOld, expNew);
  }

  lemma AccumulateKey(exp: real -> real, w: View, j: nat, was: real, now: real, expOld: real, expNew: real,
                      before: seq<real>, after: seq<real>)
    requires Exponential(exp) && w.Valid() && j < w.n && Accumulated(exp, w, j, was, before)
    requires expNew == exp(w.Score(j) - now) && expOld == if j == 0 then 0.0 else exp(was - now)
    requires Updated(before, after, expOld, expNew, w.Value(j))
    ensures Accumulated(exp, w, j + 1, now, after)
  {
    forall d | 0 <= d < |after|
      ensures after[d] == Weighted(exp, Scores(w, w.n), Column(w, d, w.n), j + 1, now)
    {
      AccumulateColumn(exp, w, j, was, now, expOld, expNew, d, before[d]);
    }
  }

  /** The running maximum and sum at key `j`, given its score. */
  method KeyStep(exp: real -> real, w: View, j: nat, r: Running, score: real)
    returns (next: Running, expOld: real, expNew: real)
    requires Exponential(exp) && w.Valid() && j < w.n && score == w.Score(j) && Tracks(exp, Scores(w, w.n), j, r)
    ensures Tracks(exp, Scores(w, w.n), j + 1, next)
    ensures expNew == exp(w.Score(j) - next.max) && expOld == if j == 0 then 0.0 else exp(r.max - next.max)
  {
    ScoreAt(w, w.n, j);
    next, expOld, expNew := Step(exp, r, score, Scores(w, w.n), j);
  }

  method CachedScore(w: View, j: nat) returns (score: real)
    requires w.Valid() && j < w.n && w.s.dim % LANES == 0
    ensures score == w.Score(j)
  {
    var dot := LaneDot(w.q, w.Key(j), w.s.dim / LANES);
    score := dot * w.scale;
  }

  /** One key of the cached kernel. */
  method CachedKey(exp: real -> real, w: View, j: nat, r: Running, acc: array<real>) returns (next: Running)
    requires Exponential(exp) && w.Valid() && j < w.n && w.s.dim % LANES == 0
    requires Tracks(exp, Scores(w, w.n), j, r) && Accumulated(exp, w, j, r.max, acc[..])
    modifies acc
    ensures Tracks(exp, Scores(w, w.n), j + 1, next) && Accumulated(exp, w, j + 1, next.max, acc[..])
  {
    var score := CachedScore(w, j);
    var expOld, expNew;
    next, expOld, expNew := KeyStep(exp, w, j, r, score);
    ghost var before := acc[..];
    LaneUpdate(acc, expOld, expNew, w.Value(j), w.s.dim / LANES);
    AccumulateKey(exp, w, j, r.max, next.max, expOld, expNew, before, acc[..]);
  }

  /** The final scaling of the accumulators. */
  method Finish(exp: real -> real, w: View, r: Running, acc: array<real>) returns (o: seq<real>)
    requires Exponential(exp) && w.Valid()
    requires Tracks(exp, Scores(w, w.n), w.n, r) && Accumulated(exp, w, w.n, r.max, acc[..])
    ensures o == HeadOut(exp, w, w.s.dim)
  {
    o := [];
    for d := 0 to w.s.dim
      invariant o == HeadOut(exp, w, d)
    {
      var v := FinishColumn(exp, w, r, d, acc[..][d]);
      o := o + [v];
    }
  }

  method FinishColumn(exp: real -> real, w: View, r: Running, d: nat, acc: real) returns (v: real)
    requires Exponential(exp) && w.Valid() && d < w.s.dim && Tracks(exp, Scores(w, w.n), w.n, r)
    requires acc == Weighted(exp, Scores(w, w.n), Column(w, d, w.n), w.n, r.max)
    ensures v == OutAt(exp, w, d)
  {
    Normalize(exp, Scores(w, w.n), Column(w, d, w.n), w.n, r, acc);
    var invSum := 1.0 / (if r.sum > 0.0 then r.sum else 1.0);
    v := acc * invSum;
  }

  lemma Fresh(exp: real -> real, w: View, acc: seq<real>)
    requires w.Valid() && |acc| == w.s.dim && forall d :: 0 <= d < |acc| ==> acc[d] == 0.0
    ensures Tracks(exp, Scores(w, w.n), 0, Running(false, 0.0, 0.0)) && Accumulated(exp, w, 0, 0.0, acc)
  {
  }

  /** One sub-group of `sdpa_causal_cached_impl`. */
  method CachedHead(exp: real -> real, w: View) returns (o: seq<real>)
    requires Exponential(exp) && w.Valid() && w.s.dim % LANES == 0
    ensures o == HeadOut(exp, w, w.s.dim)
  {
    var r := Running(false, 0.0, 0.0);
    var acc := new real[w.s.dim](_ => 0.0);
    Fresh(exp, w, acc[..]);
    for j := 0 to w.n
      invariant Tracks(exp, Scores(w, w.n), j, r) && Accumulated(exp, w, j, r.max, acc[..])
    {
      r := CachedKey(exp, w, j, r, acc);
    }
    o := Finish(exp, w, r, acc);
  }

  /** One element of `sdpa_causal_naive_impl`: the same with plain loops. */
  method NaiveHead(exp: real -> real, w: View) returns (o: seq<real>)
    requires Exponential(exp) && w.Valid()
    ensures o == HeadOut(exp, w, w.s.dim)
  {
    var r := Running(false, 0.0, 0.0);
    var acc := new real[w.s.dim](_ => 0.0);
    Fresh(exp, w, acc[..]);
    for j := 0 to w.n
      invariant Tracks(exp, Scores(w, w.n), j, r) && Accumulated(exp, w, j, r.max, acc[..])
    {
      r := NaiveKey(exp, w, j, r, acc);
    }
    o := Finish(exp, w, r, acc);
  }

  method NaiveKey(exp: real -> real, w: View, j: nat, r: Running, acc: array<real>) returns (next: Running)
    requires Exponential(exp) && w.Valid() && j < w.n
    requires Tracks(exp, Scores(w, w.n), j, r) && Accumulated(exp, w, j, r.max, acc[..])
    modifies acc
    ensures Tracks(exp, Scores(w, w.n), j + 1, next) && Accumulated(exp, w, j + 1, next.max, acc[..])
  {
    var dot := OneLane(w.q, w.Key(j), 0, w.s.dim);
    var expOld, expNew;
    next, expOld, expNew := KeyStep(exp, w, j, r, dot * w.scale);
    ghost var before := acc[..];
    PlainUpdate(acc, expOld, expNew, w.Value(j));
    AccumulateKey(exp, w, j, r.max, next.max, expOld, expNew, before, acc[..]);
  }

  method PlainUpdate(acc: array<real>, expOld: real, expNew: real, v: seq<real>)
    requires acc.Length == |v|
    modifies acc
    ensures Updated(old(acc[..]), acc[..], expOld, expNew, v)
  {
    for i := 0 to |v|
      invariant forall d :: 0 <= d < i ==> acc[d] == old(acc[d]) * expOld + expNew * v[d]
      invariant forall d :: i <= d < acc.Length ==> acc[d] == old(acc[d])
    {
      acc[i] := acc[i] * expOld + expNew * v[i];
    }
  }
}
