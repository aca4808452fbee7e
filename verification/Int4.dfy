/**
  INT4 matrix-vector kernels (src/ops/linear.cpp:33-602) against the element-by-element reference
  (src/ops/linear.cpp:681-730), over the reals. A sub-group is sixteen lanes of eight weights each, so it covers a
  quantization group of 128 at a time. Sub-groups run in any order; each writes its own output cells.
 */
module Int4 {
  import opened Bytes

  const LANES: nat := 16
  const GROUP: nat := 128

  // ---------------------------------------------------------------- four-bit weights

  /** The reference's sign extension. */
  function SignedNibble(x: nat): int { if x >= 8 then x - 16 else x }

  /** One of the two weights in a byte: the low half comes first. */
  function WeightIn(b: nat, half: nat): real {
    SignedNibble(if half == 0 then b % 16 else b / 16) as real
  }

  /** The weights of a packed row. */
  function Unpack(w: ByteString): (u: seq<real>)
    ensures |u| == 2 * |w|
  {
    if w == [] then [] else Unpack(w[..|w| - 1]) + [WeightIn(w[|w| - 1] as nat, 0), WeightIn(w[|w| - 1] as nat, 1)]
  }

  lemma {:induction false} UnpackAt(w: ByteString, k: nat, b: nat, half: nat)
    requires b < |w| && half < 2 && k == 2 * b + half
    ensures Unpack(w)[k] == WeightIn(w[b] as nat, half)
  {
    if b < |w| - 1 { UnpackAt(w[..|w| - 1], k, b, half); }
  }

  /** A cast to `int32_t`. */
  function Wrap32(x: int): int {
    var r := x % 0x1_0000_0000;
    if r >= 0x8000_0000 then r - 0x1_0000_0000 else r
  }

  /** `(sp << s) >> 28` with `factor` for `2^s`: the product wraps, the right shift rounds down. */
  function Field(sp: int, factor: nat): int { Wrap32(sp * factor) / 0x1000_0000 }

  /** Four packed bytes read as one little-endian word. */
  function WordAt(w: ByteString, i: nat): nat
    requires i + 4 <= |w|
  {
    w[i] as nat + 0x100 * w[i + 1] as nat + 0x1_0000 * w[i + 2] as nat + 0x100_0000 * w[i + 3] as nat
  }

  lemma ShiftedUp(hi: nat, nibble: nat, lo: nat, unit: nat, factor: nat)
    requires unit * factor == 0x1000_0000 && lo < unit
    ensures (hi * (16 * unit) + nibble * unit + lo) * factor ==
      hi * 0x1_0000_0000 + nibble * 0x1000_0000 + lo * factor
    ensures 0 <= lo * factor < 0x1000_0000
  {
    assert hi * (16 * unit) * factor == hi * (16 * (unit * factor));
    assert nibble * unit * factor == nibble * (unit * factor);
    assert (lo + 1) * factor <= unit * factor;
  }

  lemma TopNibble(nibble: nat, low: nat)
    requires nibble < 16 && low < 0x1000_0000
    ensures Wrap32(nibble * 0x1000_0000 + low) / 0x1000_0000 == SignedNibble(nibble)
  {
  }

  /** Shifting a nibble to the top and back down sign-extends it. */
  lemma FieldIsNibble(p: nat, hi: nat, nibble: nat, lo: nat, unit: nat, factor: nat)
    requires unit * factor == 0x1000_0000 && nibble < 16 && lo < unit
    requires p == hi * (16 * unit) + nibble * unit + lo && p < 0x1_0000_0000
    ensures Field(Wrap32(p), factor) == SignedNibble(nibble)
  {
    ShiftedUp(hi, nibble, lo, unit, factor);
    var low := lo * factor;
    var turns := if p >= 0x8000_0000 then hi - factor else hi;
    assert (p - 0x1_0000_0000) * factor == p * factor - 0x1_0000_0000 * factor;
    assert Wrap32(p) * factor == turns * 0x1_0000_0000 + (nibble * 0x1000_0000 + low);
    WrapTurns(turns, nibble * 0x1000_0000 + low);
    TopNibble(nibble, low);
  }

  lemma WrapTurns(turns: int, r: nat)
    requires r < 0x1_0000_0000
    ensures Wrap32(turns * 0x1_0000_0000 + r) == Wrap32(r)
  {
  }

  lemma FieldsOfWord(a: nat, b: nat, c: nat, d: nat)
    requires a < 256 && b < 256 && c < 256 && d < 256
    ensures var sp := Wrap32(a + 0x100 * b + 0x1_0000 * c + 0x100_0000 * d);
      && Field(sp, 0x1000_0000) == SignedNibble(a % 16) && Field(sp, 0x100_0000) == SignedNibble(a / 16)
      && Field(sp, 0x10_0000) == SignedNibble(b % 16) && Field(sp, 0x1_0000) == SignedNibble(b / 16)
      && Field(sp, 0x1000) == SignedNibble(c % 16) && Field(sp, 0x100) == SignedNibble(c / 16)
      && Field(sp, 0x10) == SignedNibble(d % 16) && Field(sp, 1) == SignedNibble(d / 16)
  {
    var p := a + 0x100 * b + 0x1_0000 * c + 0x100_0000 * d;
    FieldIsNibble(p, a / 16 + 0x10 * b + 0x1000 * c + 0x10_0000 * d, a % 16, 0, 1, 0x1000_0000);
    FieldIsNibble(p, b + 0x100 * c + 0x1_0000 * d, a / 16, a % 16, 0x10, 0x100_0000);
    FieldIsNibble(p, b / 16 + 0x10 * c + 0x1000 * d, b % 16, a, 0x100, 0x10_0000);
    FieldIsNibble(p, c + 0x100 * d, b / 16, a + 0x100 * (b % 16), 0x1000, 0x1_0000);
    FieldIsNibble(p, c / 16 + 0x10 * d, c % 16, a + 0x100 * b, 0x1_0000, 0x1000);
    FieldIsNibble(p, d, c / 16, a + 0x100 * b + 0x1_0000 * (c % 16), 0x10_0000, 0x100);
    FieldIsNibble(p, d / 16, d % 16, a + 0x100 * b + 0x1_0000 * c, 0x100_0000, 0x10);
    FieldIsNibble(p, 0, d / 16, a + 0x100 * b + 0x1_0000 * c + 0x100_0000 * (d % 16), 0x1000_0000, 1);
  }

  /** The eight weights of one word, as the kernels extract them. */
  function Fields(word: nat): (f: seq<real>)
    ensures |f| == 8
  {
    var sp := Wrap32(word);
    [Field(sp, 0x1000_0000) as real, Field(sp, 0x100_0000) as real, Field(sp, 0x10_0000) as real,
     Field(sp, 0x1_0000) as real, Field(sp, 0x1000) as real, Field(sp, 0x100) as real, Field(sp, 0x10) as real,
     Field(sp, 1) as real]
  }

  /** Eight consecutive weights. */
  ghost predicate WeightsAt(u: seq<real>, k: nat, f: seq<real>) {
    && |f| == 8 && k + 8 <= |u|
    && u[k] == f[0] && u[k + 1] == f[1] && u[k + 2] == f[2] && u[k + 3] == f[3]
    && u[k + 4] == f[4] && u[k + 5] == f[5] && u[k + 6] == f[6] && u[k + 7] == f[7]
  }

  lemma FieldsAt(a: nat, b: nat, c: nat, d: nat)
    requires a < 256 && b < 256 && c < 256 && d < 256
    ensures var f := Fields(a + 0x100 * b + 0x1_0000 * c + 0x100_0000 * d);
      && f[0] == WeightIn(a, 0) && f[1] == WeightIn(a, 1) && f[2] == WeightIn(b, 0) && f[3] == WeightIn(b, 1)
      && f[4] == WeightIn(c, 0) && f[5] == WeightIn(c, 1) && f[6] == WeightIn(d, 0) && f[7] == WeightIn(d, 1)
  {
    FieldsOfWord(a, b, c, d);
  }

  /** The two weights of byte `i`, among the weights of the row. */
  lemma UnpackByte(w: ByteString, i: nat, low: real, high: real)
    requires i < |w| && low == WeightIn(w[i] as nat, 0) && high == WeightIn(w[i] as nat, 1)
    ensures Unpack(w)[2 * i] == low && Unpack(w)[2 * i + 1] == high
  {
    UnpackAt(w, 2 * i, i, 0);
    UnpackAt(w, 2 * i + 1, i, 1);
  }

  /** The shifts extract the weights that the reference reads from the bytes. */
  lemma FieldsAreWeights(w: ByteString, i: nat)
    requires i + 4 <= |w|
    ensures WeightsAt(Unpack(w), 2 * i, Fields(WordAt(w, i)))
  {
    FieldsAt(w[i] as nat, w[i + 1] as nat, w[i + 2] as nat, w[i + 3] as nat);
    WeightsOf(w, i, Fields(WordAt(w, i)));
  }

  lemma WeightsOf(w: ByteString, i: nat, f: seq<real>)
    requires i + 4 <= |w| && |f| == 8
    requires f[0] == WeightIn(w[i] as nat, 0) && f[1] == WeightIn(w[i] as nat, 1)
    requires f[2] == WeightIn(w[i + 1] as nat, 0) && f[3] == WeightIn(w[i + 1] as nat, 1)
    requires f[4] == WeightIn(w[i + 2] as nat, 0) && f[5] == WeightIn(w[i + 2] as nat, 1)
    requires f[6] == WeightIn(w[i + 3] as nat, 0) && f[7] == WeightIn(w[i + 3] as nat, 1)
    ensures WeightsAt(Unpack(w), 2 * i, f)
  {
    UnpackByte(w, i, f[0], f[1]);
    UnpackByte(w, i + 1, f[2], f[3]);
    UnpackByte(w, i + 2, f[4], f[5]);
    UnpackByte(w, i + 3, f[6], f[7]);
  }

  // ---------------------------------------------------------------- one output element

  /** One activation row with one weight row and its scales. */
  datatype Row = Row(x: seq<real>, u: seq<real>, scales: seq<real>) {
    ghost predicate Valid() {
      |x| == GROUP * |scales| && |u| == |x|
    }
  }

  /** The contribution of position `k`. */
  function Term(r: Row, k: nat): real
    requires r.Valid() && k < |r.x|
  {
    r.x[k] * (r.u[k] * r.scales[k / GROUP])
  }

  /** All contributions up to position `n`. */
  function Terms(r: Row, n: nat): (t: seq<real>)
    requires r.Valid() && n <= |r.x|
    ensures |t| == n
  {
    if n == 0 then [] else Terms(r, n - 1) + [Term(r, n - 1)]
  }

  lemma {:induction false} TermsAt(r: Row, n: nat, k: nat)
    requires r.Valid() && k < n <= |r.x|
    ensures Terms(r, n)[k] == Term(r, k)
  {
    if k < n - 1 { TermsAt(r, n - 1, k); }
  }

  /** The first `k` contributions, added one by one. */
  function Prefix(r: Row, k: nat): real
    requires r.Valid() && k <= |r.x|
  {
    if k == 0 then 0.0 else Prefix(r, k - 1) + Terms(r, |r.x|)[k - 1]
  }

  /** The products at `n` positions from `k` on, without scales. */
  function Part(r: Row, k: nat, n: nat): real
    requires r.Valid() && k + n <= |r.x|
    decreases k, n
  {
    if n == 0 then 0.0 else Part(r, k, n - 1) + r.x[k + n - 1] * r.u[k + n - 1]
  }

  lemma AddScaled(sum: real, a: real, x: real, u: real, s: real)
    requires sum == a + x * u
    ensures sum * s == a * s + x * (u * s)
  {
    assert (a + x * u) * s == a * s + x * (u * s);
  }

  /** Within one group the scale can be taken out. */
  lemma {:induction false} PartScaled(r: Row, k: nat, n: nat, s: real)
    requires r.Valid() && k + n <= |r.x| && (forall i :: k <= i < k + n ==> r.scales[i / GROUP] == s)
    ensures Prefix(r, k + n) == Prefix(r, k) + Part(r, k, n) * s
  {
    if n > 0 {
      PartScaled(r, k, n - 1, s);
      TermsAt(r, |r.x|, k + n - 1);
      AddScaled(Part(r, k, n), Part(r, k, n - 1), r.x[k + n - 1], r.u[k + n - 1], s);
    }
  }

  /** Eight products, as the kernels write them. */
  function DotEight(x: seq<real>, k: nat, f: seq<real>): real
    requires k + 8 <= |x| && |f| == 8
  {
    x[k] * f[0] + x[k + 1] * f[1] + x[k + 2] * f[2] + x[k + 3] * f[3]
      + x[k + 4] * f[4] + x[k + 5] * f[5] + x[k + 6] * f[6] + x[k + 7] * f[7]
  }

  lemma PartOfEight(r: Row, k: nat, f: seq<real>, n: nat)
    requires r.Valid() && k + 8 <= |r.x| && WeightsAt(r.u, k, f) && n == 8
    ensures Part(r, k, n) == DotEight(r.x, k, f)
  {
    assert Part(r, k, 2) == Part(r, k, 1) + r.x[k + 1] * r.u[k + 1];
    assert Part(r, k, 4) == Part(r, k, 3) + r.x[k + 3] * r.u[k + 3];
    assert Part(r, k, 6) == Part(r, k, 5) + r.x[k + 5] * r.u[k + 5];
    assert Part(r, k, 8) == Part(r, k, 7) + r.x[k + 7] * r.u[k + 7];
  }

  /** One lane's work in one group: eight products of one packed word. */
  method LaneDot(x: seq<real>, w: ByteString, k: nat, ghost r: Row) returns (dot: real)
    requires r.Valid() && r.x == x && r.u == Unpack(w) && k + 8 <= |x| && k % 8 == 0
    ensures dot == Part(r, k, 8)
  {
    var f := Fields(WordAt(w, k / 2));
    FieldsAreWeights(w, k / 2);
    PartOfEight(r, k, f, 8);
    dot := DotEight(x, k, f);
  }

  // ---------------------------------------------------------------- one sub-group

  /** A packed weight row. */
  datatype Packed = Packed(w: ByteString, scales: seq<real>) {
    ghost predicate Fits(x: seq<real>) { |x| == GROUP * |scales| && |w| == 64 * |scales| }

    ghost function With(x: seq<real>): (r: Row)
      requires Fits(x)
      ensures r.Valid()
    {
      Row(x, Unpack(w), scales)
    }
  }

  /** What one lane adds in group `g`. */
  function LaneTerm(r: Row, lane: nat, g: nat): real
    requires r.Valid() && lane < LANES && g < |r.scales|
  {
    Part(r, GROUP * g + 8 * lane, 8) * r.scales[g]
  }

  lemma LaneTermIsEightTerms(r: Row, lane: nat, g: nat, k: nat)
    requires r.Valid() && lane < LANES && g < |r.scales| && k == GROUP * g + 8 * lane
    ensures Prefix(r, k + 8) == Prefix(r, k) + LaneTerm(r, lane, g)
  {
    assert forall i :: k <= i < k + 8 ==> i / GROUP == g;
    PartScaled(r, k, 8, r.scales[g]);
  }

  /** What one lane accumulates over the groups from `lo` to `hi`. */
  function LaneSum(r: Row, lane: nat, lo: nat, hi: nat): real
    requires r.Valid() && lane < LANES && hi <= |r.scales|
    decreases hi
  {
    if hi <= lo then 0.0
    else LaneSum(r, lane, lo, hi - 1) + LaneTerm(r, lane, hi - 1)
  }

  /** The first `n` lanes together. */
  function Lanes(r: Row, n: nat, lo: nat, hi: nat): real
    requires r.Valid() && n <= LANES && hi <= |r.scales|
  {
    if n == 0 then 0.0 else Lanes(r, n - 1, lo, hi) + LaneSum(r, n - 1, lo, hi)
  }

  /** One more group adds, over the first `n` lanes, the contributions of its first `8 * n` positions. */
  lemma {:induction false} LanesStep(r: Row, n: nat, lo: nat, g: nat)
    requires r.Valid() && n <= LANES && lo <= g < |r.scales|
    ensures Lanes(r, n, lo, g + 1) == Lanes(r, n, lo, g) + (Prefix(r, GROUP * g + 8 * n) - Prefix(r, GROUP * g))
    decreases n
  {
    if n > 0 {
      LanesStep(r, n - 1, lo, g);
      LaneTermIsEightTerms(r, n - 1, g, GROUP * g + 8 * (n - 1));
    }
  }

  /** The sixteen lanes of a sub-group together add up exactly the positions of its groups. */
  lemma {:induction false} SubGroupSum(r: Row, lo: nat, hi: nat)
    requires r.Valid() && lo <= hi <= |r.scales|
    ensures Lanes(r, LANES, lo, hi) == Prefix(r, GROUP * hi) - Prefix(r, GROUP * lo)
    decreases hi - lo
  {
    if lo == hi {
      PastTheEnd(r, LANES, lo, lo);
    } else {
      SubGroupSum(r, lo, hi - 1);
      LanesStep(r, LANES, lo, hi - 1);
    }
  }

  /** One lane's step in group `g` for one weight row. */
  method LaneStep(x: seq<real>, row: Packed, lane: nat, g: nat) returns (t: real)
    requires row.Fits(x) && lane < LANES && g < |row.scales|
    ensures t == LaneTerm(row.With(x), lane, g)
  {
    var dot := LaneDot(x, row.w, GROUP * g + 8 * lane, row.With(x));
    t := dot * row.scales[g];
  }

  /** One lane: two weight rows against the same activations, or one if the second row does not exist. */
  method RunLane(x: seq<real>, row0: Packed, row1: Option<Packed>, lane: nat, lo: nat, hi: nat)
    returns (acc0: real, acc1: real)
    requires row0.Fits(x) && (row1.Some? ==> row1.value.Fits(x)) && lane < LANES && hi <= |row0.scales|
    ensures acc0 == LaneSum(row0.With(x), lane, lo, hi)
    ensures acc1 == if row1.None? then 0.0 else LaneSum(row1.value.With(x), lane, lo, hi)
  {
    acc0, acc1 := 0.0, 0.0;
    var g := lo;
    while g < hi
      invariant lo <= g && (g <= hi || g == lo)
      invariant g <= hi ==> acc0 == LaneSum(row0.With(x), lane, lo, g)
      invariant g <= hi && row1.Some? ==> acc1 == LaneSum(row1.value.With(x), lane, lo, g)
      invariant g > hi ==> acc0 == 0.0
      invariant g > hi || row1.None? ==> acc1 == 0.0
    {
      var t0 := LaneStep(x, row0, lane, g);
      acc0 := acc0 + t0;
      if row1.Some? {
        var t1 := LaneStep(x, row1.value, lane, g);
        acc1 := acc1 + t1;
      }
      g := g + 1;
    }
  }

  /** A sub-group over the groups from `lo` to `hi`, reduced over its lanes. */
  method RunSubGroup(x: seq<real>, row0: Packed, row1: Option<Packed>, lo: nat, hi: nat)
    returns (total0: real, total1: real)
    requires row0.Fits(x) && (row1.Some? ==> row1.value.Fits(x)) && hi <= |row0.scales|
    ensures total0 == if lo <= hi then Prefix(row0.With(x), GROUP * hi) - Prefix(row0.With(x), GROUP * lo) else 0.0
    ensures row1.Some? && lo <= hi ==>
      total1 == Prefix(row1.value.With(x), GROUP * hi) - Prefix(row1.value.With(x), GROUP * lo)
    ensures row1.None? || lo > hi ==> total1 == 0.0
  {
    total0, total1 := 0.0, 0.0;
    for lane := 0 to LANES
      invariant total0 == Lanes(row0.With(x), lane, lo, hi)
      invariant total1 == if row1.None? then 0.0 else Lanes(row1.value.With(x), lane, lo, hi)
    {
      var acc0, acc1 := RunLane(x, row0, row1, lane, lo, hi);
      total0, total1 := total0 + acc0, total1 + acc1;
    }
    if lo <= hi {
      SubGroupSum(row0.With(x), lo, hi);
      if row1.Some? { SubGroupSum(row1.value.With(x), lo, hi); }
    } else {
      PastTheEnd(row0.With(x), LANES, lo, hi);
      if row1.Some? { PastTheEnd(row1.value.With(x), LANES, lo, hi); }
    }
  }

  lemma {:induction false} PastTheEnd(r: Row, n: nat, lo: nat, hi: nat)
    requires r.Valid() && n <= LANES && hi <= lo && hi <= |r.scales|
    ensures Lanes(r, n, lo, hi) == 0.0
  {
    if n > 0 { PastTheEnd(r, n - 1, lo, hi); }
  }
}
