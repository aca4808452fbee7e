/**
  The INT8 KV cache (src/ops/attention.cpp:353-537): each head vector is stored as one byte per element with a scale and
  a zero point, taken from its smallest and largest element.
 */
module Int8Cache {
  import opened CachedAttention

  // ---------------------------------------------------------------- one element

  /** `sycl::round`: to the nearest integer, halves away from zero. */
  function Round(z: real): int {
    if z >= 0.0 then (z + 0.5).Floor else -((-z + 0.5).Floor)
  }

  function Clamp(x: int, lo: int, hi: int): int
    requires lo <= hi
  {
    if x < lo then lo else if x > hi then hi else x
  }

  function ScaleOf(lo: real, hi: real): real { if hi > lo then (hi - lo) / 255.0 else 1.0 }

  function InverseScale(lo: real, hi: real): real { if hi > lo then 255.0 / (hi - lo) else 0.0 }

  /** Position of a value within its range, in units of the scale. */
  function Place(v: real, lo: real, hi: real): real { (v - lo) * InverseScale(lo, hi) }

  function CodeAt(z: real): (c: int)
    ensures -128 <= c <= 127
  {
    Clamp(Round(z), 0, 255) - 128
  }

  /** The stored byte. */
  function Code(v: real, lo: real, hi: real): (c: int)
    ensures -128 <= c <= 127
  {
    CodeAt(Place(v, lo, hi))
  }

  function Decoded(c: int, scale: real, zero: real): real { (c as real + 128.0) * scale + zero }

  lemma PlaceInRange(v: real, lo: real, hi: real)
    requires lo <= v <= hi && lo < hi
    ensures 0.0 <= Place(v, lo, hi) <= 255.0 && Place(v, lo, hi) * ScaleOf(lo, hi) == v - lo
  {
    var w, x := hi - lo, v - lo;
    var z := x * (255.0 / w);
    Cancel(x, w);
    Sign(z, w);
    Sign(255.0 - z, w);
    assert (255.0 - z) * w == 255.0 * w - z * w;
    assert z * (w / 255.0) == (z * w) / 255.0;
  }

  lemma Cancel(x: real, w: real)
    requires w > 0.0
    ensures x * (255.0 / w) * w == x * 255.0
  {
    assert (255.0 / w) * w == 255.0;
    assert x * (255.0 / w) * w == x * ((255.0 / w) * w);
  }

  lemma Sign(a: real, b: real)
    requires b > 0.0
    ensures a * b >= 0.0 <==> a >= 0.0
  {
  }

  /** A value between 0 and 255 is rounded to a whole number in that range, at most a half away. */
  lemma RoundInRange(z: real)
    requires 0.0 <= z <= 255.0
    ensures 0 <= Round(z) <= 255 && z - 0.5 <= Round(z) as real <= z + 0.5
  {
  }

  lemma HalfScale(d: real, s: real)
    requires -0.5 <= d <= 0.5 && s >= 0.0
    ensures -(s / 2.0) <= d * s && d * s <= s / 2.0
  {
    NonNegative(0.5 - d, s);
    NonNegative(d + 0.5, s);
    assert (0.5 - d) * s == 0.5 * s - d * s && (d + 0.5) * s == d * s + 0.5 * s;
  }

  lemma NonNegative(a: real, b: real)
    requires a >= 0.0 && b >= 0.0
    ensures a * b >= 0.0
  {
  }

  lemma Spread(r: real, z: real, d: real, s: real)
    requires d == r - z
    ensures d * s == r * s - z * s
  {
  }

  /** Rounding the position moves the value by at most half a step. */
  lemma HalfStep(r: real, z: real, d: real, s: real, v: real, lo: real)
    requires d == r - z && -0.5 <= d <= 0.5 && s >= 0.0 && z * s == v - lo
    ensures Abs(r * s + lo - v) <= s / 2.0
  {
    HalfScale(d, s);
    Spread(r, z, d, s);
    HalfStepOf(r * s, z * s, d * s, s, v, lo);
  }

  lemma HalfStepOf(p: real, q: real, e: real, s: real, v: real, lo: real)
    requires e == p - q && q == v - lo && -(s / 2.0) <= e <= s / 2.0
    ensures Abs(p + lo - v) <= s / 2.0
  {
  }

  function Abs(x: real): real { if x < 0.0 then -x else x }

  /** What comes back is within half a step, that is (max - min) / 510, of what was stored. */
  lemma ErrorBound(v: real, lo: real, hi: real)
    requires lo <= v <= hi
    ensures Abs(Decoded(Code(v, lo, hi), ScaleOf(lo, hi), lo) - v) <= (hi - lo) / 510.0
  {
    if lo < hi {
      var z, s := Place(v, lo, hi), ScaleOf(lo, hi);
      PlaceInRange(v, lo, hi);
      RoundInRange(z);
      assert Code(v, lo, hi) == Round(z) - 128;
      HalfStep(Round(z) as real, z, Round(z) as real - z, s, v, lo);
    } else {
      Flat(lo);
    }
  }

  /** A vector of equal elements comes back exactly. */
  lemma Flat(v: real)
    ensures Code(v, v, v) == -128 && Decoded(-128, ScaleOf(v, v), v) == v
  {
  }

  /** So do the smallest and the largest element of any vector. */
  lemma EndsAreExact(lo: real, hi: real)
    requires lo < hi
    ensures Code(lo, lo, hi) == -128 && Decoded(-128, ScaleOf(lo, hi), lo) == lo
    ensures Code(hi, lo, hi) == 127 && Decoded(127, ScaleOf(lo, hi), lo) == hi
  {
    PlaceOfEnds(lo, hi);
    CodesOfEnds();
    Cancel255(hi - lo);
    assert (-128 as real + 128.0) * ScaleOf(lo, hi) == 0.0;
    assert 127 as real + 128.0 == 255.0;
  }

  lemma PlaceOfEnds(lo: real, hi: real)
    requires lo < hi
    ensures Place(lo, lo, hi) == 0.0 && Place(hi, lo, hi) == 255.0
  {
    Cancel255(hi - lo);
    assert lo - lo == 0.0;
  }

  lemma CodesOfEnds()
    ensures CodeAt(0.0) == -128 && CodeAt(255.0) == 127
  {
  }

  lemma Cancel255(w: real)
    requires w > 0.0
    ensures w * (255.0 / w) == 255.0 && 255.0 * (w / 255.0) == w
  {
  }

  /** Larger elements never get smaller codes. */
  lemma CodesAreMonotone(v: real, w: real, lo: real, hi: real)
    requires v <= w
    ensures Code(v, lo, hi) <= Code(w, lo, hi)
  {
    PlaceIsMonotone(v, w, lo, hi);
    RoundIsMonotone(Place(v, lo, hi), Place(w, lo, hi));
  }

  lemma PlaceIsMonotone(v: real, w: real, lo: real, hi: real)
    requires v <= w
    ensures Place(v, lo, hi) <= Place(w, lo, hi)
  {
    var s := InverseScale(lo, hi);
    if hi > lo { Sign(w - v, s); }
    assert (w - lo) * s - (v - lo) * s == (w - v) * s;
  }

  lemma RoundIsMonotone(x: real, y: real)
    requires x <= y
    ensures Round(x) <= Round(y)
  {
  }

  /** Rounding, exactly: to the whole number from half below up to, but not including, half above. */
  lemma RoundExactly(z: real, r: int)
    requires z >= 0.0
    ensures Round(z) == r <==> r as real - 0.5 <= z < r as real + 0.5
  {
  }

  lemma Units(d: real, w: real, z: real, r: real)
    requires w > 0.0 && z * w == d * 255.0
    ensures r <= z <==> r * w <= d * 255.0
  {
    Sign(z - r, w);
    assert (z - r) * w == z * w - r * w;
  }

  /** The code, exactly: how many 255ths of the range the value is above its smallest, rounded with halves up. */
  lemma CodeExactly(v: real, lo: real, hi: real, c: int, r: real)
    requires lo <= v <= hi && lo < hi && -128 <= c <= 127 && r == c as real + 128.0
    ensures Code(v, lo, hi) == c <==>
      (r - 0.5) * (hi - lo) <= (v - lo) * 255.0 && !((r + 0.5) * (hi - lo) <= (v - lo) * 255.0)
  {
    var z := Place(v, lo, hi);
    PlaceInRange(v, lo, hi);
    RoundInRange(z);
    RoundExactly(z, c + 128);
    Cancel(v - lo, hi - lo);
    Units(v - lo, hi - lo, z, r - 0.5);
    Units(v - lo, hi - lo, z, r + 0.5);
  }

  // ---------------------------------------------------------------- one head vector

  /** Codes, scale and zero point of one head vector. */
  datatype Quantized = Quantized(codes: seq<int>, scale: real, zero: real)

  ghost predicate Bounds(x: seq<real>, lo: real, hi: real) {
    && (forall d :: 0 <= d < |x| ==> lo <= x[d] <= hi)
    && lo in x && hi in x
  }

  function Codes(x: seq<real>, lo: real, hi: real, n: nat): (c: seq<int>)
    requires n <= |x|
    ensures |c| == n && forall d :: 0 <= d < n ==> c[d] == Code(x[d], lo, hi)
  {
    if n == 0 then [] else Codes(x, lo, hi, n - 1) + [Code(x[n - 1], lo, hi)]
  }

  /** The vector as the cache stores it. */
  ghost predicate Stores(x: seq<real>, q: Quantized) {
    exists lo, hi :: Bounds(x, lo, hi) && q == Quantized(Codes(x, lo, hi, |x|), ScaleOf(lo, hi), lo)
  }

  /** What is stored beside the codes: the smallest element, and a 255th of the spread or one if there is none. */
  lemma StoredScale(x: seq<real>, q: Quantized, lo: real, hi: real)
    requires Stores(x, q) && Bounds(x, lo, hi)
    ensures q.zero == lo && q.scale == (if lo < hi then (hi - lo) / 255.0 else 1.0)
    ensures |q.codes| == |x| && forall d :: 0 <= d < |x| ==> q.codes[d] == Code(x[d], lo, hi)
  {
    var a, b :| Bounds(x, a, b) && q == Quantized(Codes(x, a, b, |x|), ScaleOf(a, b), a);
    assert a == lo && b == hi;
  }

  /** What is read back of a code. */
  lemma ReadBack(c: int, scale: real, zero: real)
    ensures Decoded(-128, scale, zero) == zero && Decoded(c + 1, scale, zero) == Decoded(c, scale, zero) + scale
  {
  }

  method Range(x: seq<real>) returns (lo: real, hi: real)
    requires |x| > 0
    ensures Bounds(x, lo, hi)
  {
    lo, hi := x[0], x[0];
    for d := 1 to |x|
      invariant forall e :: 0 <= e < d ==> lo <= x[e] <= hi
      invariant lo in x[..d] && hi in x[..d]
    {
      assert x[..d + 1] == x[..d] + [x[d]];
      if x[d] < lo { lo := x[d]; }
      if x[d] > hi { hi := x[d]; }
    }
    assert x[..|x|] == x;
  }

  method Quantize(x: seq<real>) returns (q: Quantized)
    requires |x| > 0
    ensures Stores(x, q) && |q.codes| == |x|
  {
    var lo, hi := Range(x);
    var codes := [];
    for d := 0 to |x|
      invariant codes == Codes(x, lo, hi, d)
    {
      codes := codes + [Code(x[d], lo, hi)];
    }
    q := Quantized(codes, ScaleOf(lo, hi), lo);
  }

  /** The elements come back close: within 1/510 of the spread of the vector, all of them exactly if there is no spread. */
  ghost predicate Close(x: seq<real>, y: seq<real>) {
    |x| == |y| && exists lo, hi :: Bounds(x, lo, hi) && forall d :: 0 <= d < |x| ==> Abs(y[d] - x[d]) <= (hi - lo) / 510.0
  }

  method Dequantize(q: Quantized, ghost x: seq<real>) returns (y: seq<real>)
    requires Stores(x, q)
    ensures Close(x, y) && |y| == |x|
    ensures forall d :: 0 <= d < |q.codes| ==> -128 <= q.codes[d] <= 127
  {
    ghost var lo, hi :| Bounds(x, lo, hi) && q == Quantized(Codes(x, lo, hi, |x|), ScaleOf(lo, hi), lo);
    y := [];
    for d := 0 to |q.codes|
      invariant |y| == d && forall e :: 0 <= e < d ==> Abs(y[e] - x[e]) <= (hi - lo) / 510.0
    {
      ErrorBound(x[d], lo, hi);
      y := y + [Decoded(q.codes[d], q.scale, q.zero)];
    }
  }

  /** If all elements are equal they come back exactly. */
  lemma FlatComesBack(x: seq<real>, y: seq<real>)
    requires Close(x, y) && forall d :: 0 <= d < |x| ==> x[d] == x[0]
    ensures x == y
  {
    var lo, hi :| Bounds(x, lo, hi) && forall d :: 0 <= d < |x| ==> Abs(y[d] - x[d]) <= (hi - lo) / 510.0;
    assert |x| > 0;
    assert lo == x[0] && hi == x[0];
  }

  // ---------------------------------------------------------------- writing and reading positions

  /** `attention_write_kv_cache_int8_impl` on one of the two caches, a head vector at a time. */
  method WriteInt8(cache: array<Quantized>, input: seq<seq<real>>, start: int, tokens: int, heads: nat, maxSeq: int)
    returns (ghost n: nat)
    requires forall l :: 0 <= l < |input| ==> |input[l]| > 0
    requires var n := Stored(start, tokens, maxSeq); n > 0 && heads > 0 ==>
      start >= 0 && start * heads + n * heads <= cache.Length && n * heads <= |input|
    modifies cache
    ensures n == Stored(start, tokens, maxSeq)
    ensures n == 0 || heads == 0 ==> cache[..] == old(cache[..])
    ensures n > 0 && heads > 0 ==>
      && (forall l :: 0 <= l < n * heads ==> Stores(input[l], cache[start * heads + l]))
      && (forall i :: 0 <= i < start * heads || start * heads + n * heads <= i < cache.Length ==> cache[i] == old(cache[i]))
  {
    n := Stored(start, tokens, maxSeq);
    var count := Stored(start, tokens, maxSeq);
    if count == 0 || heads == 0 { return; }
    WriteHeads(cache, input, start, count, heads, maxSeq, start * heads, count * heads);
  }

  method WriteHeads(cache: array<Quantized>, input: seq<seq<real>>, start: nat, n: nat, heads: nat, maxSeq: int,
                    ghost base: nat, total: nat)
    requires heads > 0 && base == start * heads && total == n * heads && base + total <= cache.Length && total <= |input|
    requires maxSeq > 0 ==> start + n <= maxSeq
    requires forall l :: 0 <= l < |input| ==> |input[l]| > 0
    modifies cache
    ensures forall l :: 0 <= l < total ==> Stores(input[l], cache[base + l])
    ensures forall i :: 0 <= i < base || base + total <= i < cache.Length ==> cache[i] == old(cache[i])
  {
    for l := 0 to total
      invariant forall i :: base <= i < base + l ==> Stores(input[i - base], cache[i])
      invariant forall i :: 0 <= i < base || base + l <= i < cache.Length ==> cache[i] == old(cache[i])
    {
      var c := CacheIndex(l, start, n, heads, maxSeq);
      var q := Quantize(input[l]);
      cache[c] := q;
    }
  }

  /** `attention_read_kv_cache_int8_impl` on one of the two caches: what was written comes back close. */
  method ReadInt8(cache: array<Quantized>, start: nat, n: nat, heads: nat, maxSeq: int, ghost input: seq<seq<real>>,
                  ghost base: nat, total: nat)
    returns (out: seq<seq<real>>)
    requires heads > 0 && base == start * heads && total == n * heads && base + total <= cache.Length && total <= |input|
    requires maxSeq > 0 ==> start + n <= maxSeq
    requires forall l :: 0 <= l < total ==> Stores(input[l], cache[base + l])
    ensures |out| == total && forall l :: 0 <= l < total ==> Close(input[l], out[l])
  {
    out := [];
    for l := 0 to total
      invariant |out| == l && forall i :: 0 <= i < l ==> Close(input[i], out[i])
    {
      var c := CacheIndex(l, start, n, heads, maxSeq);
      assert Stores(input[l], cache[base + l]);
      var y := Dequantize(cache[c], input[l]);
      out := out + [y];
    }
  }

  /** A write followed by a read of the same positions. */
  method WriteThenRead(cache: array<Quantized>, input: seq<seq<real>>, start: nat, n: nat, heads: nat, maxSeq: int)
    returns (out: seq<seq<real>>)
    requires n > 0 && heads > 0 && (maxSeq > 0 ==> start + n <= maxSeq)
    requires start * heads + n * heads <= cache.Length && n * heads == |input|
    requires forall l :: 0 <= l < |input| ==> |input[l]| > 0
    modifies cache
    ensures |out| == |input| && forall l :: 0 <= l < |input| ==> Close(input[l], out[l])
  {
    ghost var stored := WriteInt8(cache, input, start, n, heads, maxSeq);
    assert stored == n;
    out := ReadInt8(cache, start, n, heads, maxSeq, input, start * heads, n * heads);
  }
}
