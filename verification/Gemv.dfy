/**
  The launches of the INT4 kernels (src/ops/linear.cpp:33-602, 681-730): which sub-group computes which output cells,
  split-K over the groups, several projections at once, and gate and up rows with SwiGLU. Whatever order the sub-groups
  run in, every cell is written exactly once, with the value of the element-by-element reference.
 */
module Gemv {
  import opened Bytes
  import opened Int4
  import opened Arithmetic
  import opened Vectors

  // ---------------------------------------------------------------- the reference

  /** A projection: packed rows, scales per group, and a bias. */
  datatype Projection = Projection(w: ByteString, scales: seq<real>, bias: Option<seq<real>>, n: nat)

  ghost predicate Shaped(x: seq<real>, p: Projection, m: nat, k: nat) {
    && k > 0 && k % GROUP == 0
    && |x| == m * k && |p.w| == p.n * (k / 2) && |p.scales| == p.n * (k / GROUP)
    && (p.bias.Some? ==> |p.bias.value| == p.n)
  }

  lemma Stride(i: nat, n: nat, width: nat)
    requires i < n
    ensures 0 <= i * width <= i * width + width <= n * width
  {
    assert (i + 1) * width <= n * width;
  }

  function XRow(x: seq<real>, m: nat, k: nat, i: nat): (r: seq<real>)
    requires |x| == m * k && i < m
    ensures |r| == k
  {
    Stride(i, m, k);
    x[i * k..i * k + k]
  }

  function WRow(p: Projection, k: nat, j: nat): (r: Packed)
    requires |p.w| == p.n * (k / 2) && |p.scales| == p.n * (k / GROUP) && j < p.n
    ensures |r.w| == k / 2 && |r.scales| == k / GROUP
  {
    Stride(j, p.n, k / 2);
    Stride(j, p.n, k / GROUP);
    Packed(p.w[j * (k / 2)..j * (k / 2) + k / 2], p.scales[j * (k / GROUP)..j * (k / GROUP) + k / GROUP])
  }

  function Bias(p: Projection, j: nat): real
    requires p.bias.Some? ==> j < |p.bias.value|
  {
    if p.bias.Some? then p.bias.value[j] else 0.0
  }

  /** Output element `(i, j)`: the sum over all `k` positions, one by one, and the bias. */
  ghost function Reference(x: seq<real>, p: Projection, m: nat, k: nat, i: nat, j: nat): real
    requires Shaped(x, p, m, k) && i < m && j < p.n
  {
    Prefix(WRow(p, k, j).With(XRow(x, m, k, i)), k) + Bias(p, j)
  }

  /** `linear_int4_naive`, one element: byte by byte, low half before high half. */
  method NaiveElement(x: seq<real>, p: Projection, m: nat, k: nat, i: nat, j: nat) returns (acc: real)
    requires Shaped(x, p, m, k) && i < m && j < p.n
    ensures acc == Reference(x, p, m, k, i, j)
  {
    var rowX, row := XRow(x, m, k, i), WRow(p, k, j);
    ghost var r := row.With(rowX);
    acc := 0.0;
    for g := 0 to k / GROUP
      invariant acc == Prefix(r, GROUP * g)
    {
      acc := NaiveGroup(rowX, row, g, acc, r);
    }
    assert GROUP * (k / GROUP) == k;
    if p.bias.Some? {
      acc := acc + p.bias.value[j];
    }
  }

  method NaiveGroup(x: seq<real>, row: Packed, g: nat, start: real, ghost r: Row) returns (acc: real)
    requires row.Fits(x) && r.Valid() && r.x == x && r.u == Unpack(row.w) && r.scales == row.scales
    requires g < |row.scales| && start == Prefix(r, GROUP * g)
    ensures acc == Prefix(r, GROUP * (g + 1))
  {
    acc := start;
    for b := 64 * g to 64 * g + 64
      invariant acc == Prefix(r, 2 * b)
    {
      acc := NaiveByte(x, row, g, b, acc, r);
    }
  }

  method NaiveByte(x: seq<real>, row: Packed, g: nat, b: nat, start: real, ghost r: Row) returns (acc: real)
    requires row.Fits(x) && r.Valid() && r.x == x && r.u == Unpack(row.w) && r.scales == row.scales
    requires g < |row.scales| && 64 * g <= b < 64 * g + 64 && start == Prefix(r, 2 * b)
    ensures acc == Prefix(r, 2 * b + 2)
  {
    var low, high := NaiveNibbles(row.w, b);
    assert 2 * b / GROUP == g && (2 * b + 1) / GROUP == g;
    acc := NaiveStep(x, r, g, 2 * b, low, high, row.scales[g], start);
  }

  method NaiveNibbles(w: ByteString, b: nat) returns (low: real, high: real)
    requires b < |w|
    ensures low == Unpack(w)[2 * b] && high == Unpack(w)[2 * b + 1]
  {
    var byteVal := w[b] as nat;
    UnpackAt(w, 2 * b, b, 0);
    UnpackAt(w, 2 * b + 1, b, 1);
    low := SignedNibble(byteVal % 16) as real;
    high := SignedNibble(byteVal / 16) as real;
  }

  method NaiveStep(x: seq<real>, ghost r: Row, g: nat, k0: nat, low: real, high: real, scale: real, start: real)
    returns (acc: real)
    requires r.Valid() && r.x == x && k0 + 2 <= |x| && k0 / GROUP == (k0 + 1) / GROUP == g && scale == r.scales[g]
    requires r.u[k0] == low && r.u[k0 + 1] == high && start == Prefix(r, k0)
    ensures acc == Prefix(r, k0 + 2)
  {
    NextTerm(r, k0, x[k0], low, scale);
    NextTerm(r, k0 + 1, x[k0 + 1], high, scale);
    acc := start + x[k0] * (low * scale);
    acc := acc + x[k0 + 1] * (high * scale);
  }

  lemma NextTerm(r: Row, k: nat, x: real, u: real, s: real)
    requires r.Valid() && k < |r.x| && r.x[k] == x && r.u[k] == u && r.scales[k / GROUP] == s
    ensures Prefix(r, k + 1) == Prefix(r, k) + x * (u * s)
  {
    TermsAt(r, |r.x|, k);
  }

  // ---------------------------------------------------------------- a pair of rows: standard and split-K

  ghost predicate IsPair(x: seq<real>, p: Projection, m: nat, k: nat, i: nat, n0: nat, v0: real, v1: real)
    requires Shaped(x, p, m, k) && i < m && n0 < p.n
  {
    && v0 == Reference(x, p, m, k, i, n0)
    && (n0 + 1 < p.n ==> v1 == Reference(x, p, m, k, i, n0 + 1))
  }

  /** The second row of a pair, unless `n` is odd and this is the last pair. */
  function SecondRow(p: Projection, k: nat, n1: nat): Option<Packed>
    requires |p.w| == p.n * (k / 2) && |p.scales| == p.n * (k / GROUP)
  {
    if n1 < p.n then Some(WRow(p, k, n1)) else None
  }

  /** The standard path: one sub-group goes over all groups. */
  method StandardPair(x: seq<real>, p: Projection, m: nat, k: nat, i: nat, n0: nat) returns (v0: real, v1: real)
    requires Shaped(x, p, m, k) && i < m && n0 < p.n
    ensures IsPair(x, p, m, k, i, n0, v0, v1)
  {
    v0, v1 := RunSubGroup(XRow(x, m, k, i), WRow(p, k, n0), SecondRow(p, k, n0 + 1), 0, k / GROUP);
    v0 := v0 + Bias(p, n0);
    if n0 + 1 < p.n {
      v1 := v1 + Bias(p, n0 + 1);
    }
  }

  /** The groups before split `s`. */
  function Reached(s: nat, per: nat, groups: nat): nat {
    if s * per < groups then s * per else groups
  }

  lemma ReachedAll(s: nat, groups: nat)
    requires s > 0
    ensures Reached(s, (groups + s - 1) / s, groups) == groups
  {
    var per := (groups + s - 1) / s;
    assert s * per + (groups + s - 1) % s == groups + s - 1;
  }

  /** The split-K path: `s` sub-groups take ceil(groups / s) groups each, as far as there are any, into local slots. */
  method SplitPair(s: nat, x: seq<real>, p: Projection, m: nat, k: nat, i: nat, n0: nat) returns (v0: real, v1: real)
    requires s > 0 && Shaped(x, p, m, k) && i < m && n0 < p.n
    ensures IsPair(x, p, m, k, i, n0, v0, v1)
  {
    var groups := k / GROUP;
    var per := (groups + s - 1) / s;
    var rowX, row0, row1 := XRow(x, m, k, i), WRow(p, k, n0), SecondRow(p, k, n0 + 1);
    var slots0, slots1 := new real[s], new real[s];
    FillSlots(slots0, slots1, s, per, rowX, row0, row1);
    v0 := AddSlots(slots0, row0.With(rowX), per);
    v0 := v0 + Bias(p, n0);
    v1 := 0.0;
    ReachedAll(s, groups);
    if row1.Some? {
      v1 := AddSlots(slots1, row1.value.With(rowX), per);
      v1 := v1 + Bias(p, n0 + 1);
    }
  }

  /** What split `t` holds: the positions between where it starts and where the next one does. */
  ghost predicate SlotHolds(r: Row, per: nat, t: nat, value: real)
    requires r.Valid()
  {
    value == Prefix(r, GROUP * Reached(t + 1, per, |r.scales|)) - Prefix(r, GROUP * Reached(t, per, |r.scales|))
  }

  ghost predicate SlotsHold(r: Row, per: nat, t: nat, slots: seq<real>)
    requires r.Valid() && t <= |slots|
  {
    forall u :: 0 <= u < t ==> SlotHolds(r, per, u, slots[u])
  }

  lemma SlotsHoldStep(r: Row, per: nat, t: nat, before: seq<real>, after: seq<real>)
    requires r.Valid() && t < |before| == |after| && before[..t] == after[..t]
    requires SlotsHold(r, per, t, before) && SlotHolds(r, per, t, after[t])
    ensures SlotsHold(r, per, t + 1, after)
  {
    forall u | 0 <= u < t + 1
      ensures SlotHolds(r, per, u, after[u])
    {
      if u < t {
        assert after[..t][u] == before[..t][u];
        assert SlotHolds(r, per, u, before[u]);
      }
    }
  }

  method FillSlots(slots0: array<real>, slots1: array<real>, s: nat, per: nat, x: seq<real>, row0: Packed, row1: Option<Packed>)
    requires slots0.Length == s && slots1.Length == s && slots0 != slots1
    requires row0.Fits(x) && (row1.Some? ==> row1.value.Fits(x))
    modifies slots0, slots1
    ensures SlotsHold(row0.With(x), per, s, slots0[..])
    ensures row1.Some? ==> SlotsHold(row1.value.With(x), per, s, slots1[..])
  {
    for t := 0 to s
      invariant SlotsHold(row0.With(x), per, t, slots0[..])
      invariant row1.Some? ==> SlotsHold(row1.value.With(x), per, t, slots1[..])
    {
      ghost var before0, before1 := slots0[..], slots1[..];
      var total0, total1 := RunSplit(x, row0, row1, t, per);
      slots0[t] := total0;
      SlotsHoldStep(row0.With(x), per, t, before0, slots0[..]);
      if row1.Some? {
        slots1[t] := total1;
        SlotsHoldStep(row1.value.With(x), per, t, before1, slots1[..]);
      }
    }
  }

  method RunSplit(x: seq<real>, row0: Packed, row1: Option<Packed>, t: nat, per: nat) returns (total0: real, total1: real)
    requires row0.Fits(x) && (row1.Some? ==> row1.value.Fits(x))
    ensures SlotHolds(row0.With(x), per, t, total0)
    ensures row1.Some? ==> SlotHolds(row1.value.With(x), per, t, total1)
  {
    var groups := |row0.scales|;
    var start := t * per;
    var end := start + per;
    assert (t + 1) * per == end;
    if end > groups { end := groups; }
    total0, total1 := RunSubGroup(x, row0, row1, start, end);
    if start >= groups {
      total0, total1 := 0.0, 0.0;
    }
  }

  /** The slots add up to the whole row. */
  method AddSlots(slots: array<real>, ghost r: Row, ghost per: nat) returns (sum: real)
    requires r.Valid() && SlotsHold(r, per, slots.Length, slots[..])
    ensures sum == Prefix(r, GROUP * Reached(slots.Length, per, |r.scales|))
  {
    sum := 0.0;
    for t := 0 to slots.Length
      invariant sum == Prefix(r, GROUP * Reached(t, per, |r.scales|))
    {
      assert SlotHolds(r, per, t, slots[..][t]);
      sum := sum + slots[t];
    }
  }

  // ---------------------------------------------------------------- which sub-group writes which cell

  /** The cells written so far hold their expected values and were written once, the others not at all. */
  ghost predicate Written(y: seq<real>, writes: multiset<nat>, cells: set<nat>, goal: seq<real>) {
    && |goal| <= |y|
    && (forall c :: c in cells ==> c < |goal| && y[c] == goal[c])
    && (forall c: nat :: writes[c] == if c in cells then 1 else 0)
  }

  lemma WriteCell(y: seq<real>, writes: multiset<nat>, cells: set<nat>, goal: seq<real>, c: nat)
    requires Written(y, writes, cells, goal) && c < |goal| && c !in cells
    ensures Written(y[c := goal[c]], writes + multiset{c}, cells + {c}, goal)
  {
  }

  /** Sub-groups per row of outputs, with `rows` outputs each. */
  function PerRow(n: nat, rows: nat): nat
    requires rows > 0
  {
    (n + rows - 1) / rows
  }

  /** The sub-group that computes cell `c` of a matrix with `n` columns. */
  function Owner(c: nat, n: nat, rows: nat): nat
    requires n > 0 && rows > 0
  {
    var i: nat, j: nat, per := c / n, c % n, PerRow(n, rows);
    i * per + j / rows
  }

  /** The cells done are those of the sub-groups done. */
  ghost predicate Covers(cells: set<nat>, total: nat, n: nat, rows: nat, done: set<nat>)
    requires n > 0 && rows > 0
  {
    forall c: nat :: c in cells <==> c < total && Owner(c, n, rows) in done
  }

  /** Row and column of a cell, within a sub-group's reach. */
  lemma OwnerOf(i: nat, j: nat, n: nat, rows: nat)
    requires j < n && 0 < rows <= 2
    ensures Owner(i * n + j, n, rows) == i * PerRow(n, rows) + j / rows && j / rows < PerRow(n, rows)
  {
    DivMod(i, j, n);
  }

  /** A sub-group owns the cells of its own row, in its own stretch of columns, and no others. */
  lemma OwnsOnly(id: nat, c: nat, n: nat, rows: nat)
    requires n > 0 && 0 < rows <= 2
    ensures Owner(c, n, rows) == id <==> c / n == id / PerRow(n, rows) && c % n / rows == id % PerRow(n, rows)
  {
    var per := PerRow(n, rows);
    assert c % n / rows < per;
    DivMod(c / n, c % n / rows, per);
    assert id == id / per * per + id % per;
  }

  lemma CellBound(i: nat, j: nat, m: nat, n: nat)
    requires i < m && j < n
    ensures i * n + j < m * n
  {
    Stride(i, m, n);
  }

  /** A one-row sub-group owns one cell. */
  lemma CoverOne(cells: set<nat>, m: nat, n: nat, done: set<nat>, id: nat)
    requires n > 0 && Covers(cells, m * n, n, 1, done) && id < m * n && id !in done
    ensures id !in cells && Covers(cells + {id}, m * n, n, 1, done + {id})
  {
    forall c: nat
      ensures Owner(c, n, 1) == c
    {
      OwnerOfOne(c, n);
    }
  }

  lemma OwnerOfOne(c: nat, n: nat)
    requires n > 0
    ensures Owner(c, n, 1) == c
  {
    assert PerRow(n, 1) == n;
    QuotientAndRemainder(c, n);
  }

  /** A pair of neighbouring cells, or the last one alone. */
  function Pair(c0: nat, both: bool): set<nat> {
    if both then {c0, c0 + 1} else {c0}
  }

  /** A two-row sub-group owns one or two neighbouring cells. */
  lemma CoverTwo(cells: set<nat>, m: nat, n: nat, total: nat, done: set<nat>, i: nat, n0: nat, id: nat, c0: nat)
    requires total == m * n && n > 0 && Covers(cells, total, n, 2, done) && i < m && n0 < n && n0 % 2 == 0
    requires id == i * PerRow(n, 2) + n0 / 2 && id !in done && c0 == i * n + n0
    ensures c0 < total && (n0 + 1 < n ==> c0 + 1 < total)
    ensures Pair(c0, n0 + 1 < n) !! cells && Covers(cells + Pair(c0, n0 + 1 < n), total, n, 2, done + {id})
  {
    CellBound(i, n0, m, n);
    OwnerOf(i, n0, n, 2);
    if n0 + 1 < n {
      CellBound(i, n0 + 1, m, n);
      OwnerOf(i, n0 + 1, n, 2);
    }
    DivMod(i, n0 / 2, PerRow(n, 2));
    forall c: nat
      ensures Owner(c, n, 2) == id <==> c in Pair(c0, n0 + 1 < n)
    {
      PairIsOwned(c, i, n0, n, id);
    }
  }

  lemma PairIsOwned(c: nat, i: nat, n0: nat, n: nat, id: nat)
    requires n0 < n && n0 % 2 == 0 && id == i * PerRow(n, 2) + n0 / 2
    ensures Owner(c, n, 2) == id <==> c == i * n + n0 || (c == i * n + (n0 + 1) && n0 + 1 < n)
  {
    PairOwner(c, i, n0, n, id);
    QuotientAndRemainder(c, n);
    PairCells(c, c / n, c % n, i, n0, n);
  }

  /** The two columns of a pair, or the last one, in terms of row and column. */
  lemma PairCells(c: nat, q: nat, r: nat, i: nat, n0: nat, n: nat)
    requires c == q * n + r && r < n && n0 < n && n0 % 2 == 0
    ensures q == i && r / 2 == n0 / 2 <==> c == i * n + n0 || (c == i * n + (n0 + 1) && n0 + 1 < n)
  {
    HalfIs(r, n0);
    CellIs(q, r, i, n0, n);
    if n0 + 1 < n { CellIs(q, r, i, n0 + 1, n); }
  }

  lemma PairOwner(c: nat, i: nat, n0: nat, n: nat, id: nat)
    requires n0 < n && id == i * PerRow(n, 2) + n0 / 2
    ensures Owner(c, n, 2) == id <==> c / n == i && c % n / 2 == n0 / 2
  {
    OwnsOnly(id, c, n, 2);
    DivMod(i, n0 / 2, PerRow(n, 2));
  }

  lemma HalfIs(r: nat, n0: nat)
    requires n0 % 2 == 0
    ensures r / 2 == n0 / 2 <==> r == n0 || r == n0 + 1
  {
  }

  /** Cells with the same number are in the same row and column. */
  lemma CellIs(q: nat, r: nat, i: nat, j: nat, n: nat)
    requires r < n && j < n
    ensures q * n + r == i * n + j <==> q == i && r == j
  {
    if q * n + r == i * n + j { SplitUnique(q, r, i, j, n); }
  }

  // ---------------------------------------------------------------- launches

  /** The first `count` cells of the reference output. */
  ghost function Expected(x: seq<real>, p: Projection, m: nat, k: nat, count: nat): (r: seq<real>)
    requires Shaped(x, p, m, k) && count <= m * p.n
    ensures |r| == count
  {
    if count == 0 then []
    else
      var (i, j) := RowAndColumn(count - 1, m, p.n);
      Expected(x, p, m, k, count - 1) + [Reference(x, p, m, k, i, j)]
  }

  function RowAndColumn(c: nat, m: nat, n: nat): (r: (nat, nat))
    requires c < m * n
    ensures r.0 < m && r.1 < n && c == r.0 * n + r.1
  {
    assert c == c / n * n + c % n;
    Apart(c / n, m, n);
    (c / n, c % n)
  }

  lemma {:induction false} ExpectedAt(x: seq<real>, p: Projection, m: nat, k: nat, count: nat, i: nat, j: nat)
    requires Shaped(x, p, m, k) && i < m && j < p.n && i * p.n + j < count <= m * p.n
    ensures Expected(x, p, m, k, count)[i * p.n + j] == Reference(x, p, m, k, i, j)
    decreases count
  {
    DivMod(i, j, p.n);
    if i * p.n + j < count - 1 { ExpectedAt(x, p, m, k, count - 1, i, j); }
  }

  /** Every sub-group below `total` is scheduled once; padding sub-groups may be scheduled as well. */
  ghost predicate Schedule(order: seq<nat>, total: nat) {
    && (forall a, b :: 0 <= a < b < |order| ==> order[a] != order[b])
    && (forall id: nat :: id < total ==> id in order)
  }

  /** The whole output holds the reference values, and every cell of it was written exactly once. */
  ghost predicate Complete(y: seq<real>, writes: multiset<nat>, goal: seq<real>) {
    |goal| <= |y| && y[..|goal|] == goal && forall c: nat :: writes[c] == if c < |goal| then 1 else 0
  }

  lemma AllDone(y: seq<real>, writes: multiset<nat>, cells: set<nat>, goal: seq<real>, m: nat, n: nat, rows: nat, done: set<nat>)
    requires n > 0 && 0 < rows <= 2 && |goal| == m * n
    requires Written(y, writes, cells, goal) && Covers(cells, m * n, n, rows, done)
    requires forall id: nat :: id < m * PerRow(n, rows) ==> id in done
    ensures Complete(y, writes, goal)
  {
    forall c: nat | c < m * n
      ensures c in cells
    {
      var (i, j) := RowAndColumn(c, m, n);
      OwnerOf(i, j, n, rows);
      CellBound(i, j / rows, m, PerRow(n, rows));
    }
    forall c: nat
      ensures writes[c] == if c < |goal| then 1 else 0
    {
      assert c in cells <==> c < m * n;
    }
  }

  /** One or two neighbouring cells. */
  method WriteCells(y: array<real>, c0: nat, v0: real, v1: Option<real>, ghost goal: seq<real>,
                    ghost before: multiset<nat>, ghost cells: set<nat>)
    returns (ghost writes: multiset<nat>, ghost after: set<nat>)
    requires Written(y[..], before, cells, goal)
    requires c0 < |goal| && c0 !in cells && v0 == goal[c0]
    requires v1.Some? ==> c0 + 1 < |goal| && c0 + 1 !in cells && v1.value == goal[c0 + 1]
    modifies y
    ensures Written(y[..], writes, after, goal)
    ensures after == cells + Pair(c0, v1.Some?)
    ensures forall c :: |goal| <= c < y.Length ==> y[c] == old(y[c])
  {
    WriteCell(y[..], before, cells, goal, c0);
    y[c0] := v0;
    writes, after := before + multiset{c0}, cells + {c0};
    assert y[..] == old(y[..])[c0 := v0];
    if v1.Some? {
      ghost var was := y[..];
      WriteCell(was, writes, after, goal, c0 + 1);
      y[c0 + 1] := v1.value;
      assert y[..] == was[c0 + 1 := v1.value];
      writes, after := writes + multiset{c0 + 1}, after + {c0 + 1};
    }
  }

  /** One sub-group, or with a split one work-group: the values of a pair of cells. */
  method PairValues(x: seq<real>, p: Projection, m: nat, k: nat, split: nat, i: nat, n0: nat,
                    ghost total: nat, ghost c0: nat, ghost goal: seq<real>)
    returns (v0: real, v1: Option<real>)
    requires Shaped(x, p, m, k) && i < m && n0 < p.n && split > 0
    requires total == m * p.n && goal == Expected(x, p, m, k, total)
    requires c0 == i * p.n + n0 && c0 < |goal| && (n0 + 1 < p.n ==> c0 + 1 < |goal|)
    ensures v0 == goal[c0] && (v1.Some? <==> n0 + 1 < p.n) && (v1.Some? ==> v1.value == goal[c0 + 1])
  {
    var second;
    if split == 1 {
      v0, second := StandardPair(x, p, m, k, i, n0);
    } else {
      v0, second := SplitPair(split, x, p, m, k, i, n0);
    }
    ExpectedAt(x, p, m, k, total, i, n0);
    if n0 + 1 < p.n {
      ExpectedAt(x, p, m, k, total, i, n0 + 1);
      v1 := Some(second);
    } else {
      v1 := None;
    }
  }

  /** What a launch has done so far. */
  ghost predicate Progress(y: seq<real>, writes: multiset<nat>, cells: set<nat>, done: set<nat>,
                           goal: seq<real>, n: nat, rows: nat)
  {
    n > 0 && rows > 0 && Written(y, writes, cells, goal) && Covers(cells, |goal|, n, rows, done)
  }

  /** The cells of the `local`-th pair of a row. */
  lemma CoverPair(cells: set<nat>, m: nat, n: nat, total: nat, done: set<nat>, i: nat, local: nat, n0: nat, id: nat, c0: nat)
    requires total == m * n && n > 0 && Covers(cells, total, n, 2, done) && i < m && n0 == 2 * local < n
    requires id == i * PerRow(n, 2) + local && id !in done && c0 == i * n + n0
    ensures c0 < total && (n0 + 1 < n ==> c0 + 1 < total)
    ensures Pair(c0, n0 + 1 < n) !! cells && Covers(cells + Pair(c0, n0 + 1 < n), total, n, 2, done + {id})
  {
    CoverTwo(cells, m, n, total, done, i, n0, id, c0);
  }

  /** The cells of a pair, of which the rest of the launch knows nothing yet. */
  method WritePair(y: array<real>, c0: nat, v0: real, v1: Option<real>, n: nat, ghost id: nat, ghost before: multiset<nat>,
                   ghost cells: set<nat>, ghost done: set<nat>, ghost goal: seq<real>)
    returns (ghost writes: multiset<nat>, ghost after: set<nat>)
    requires Progress(y[..], before, cells, done, goal, n, 2)
    requires c0 < |goal| && v0 == goal[c0] && (v1.Some? ==> c0 + 1 < |goal| && v1.value == goal[c0 + 1])
    requires Pair(c0, v1.Some?) !! cells && Covers(cells + Pair(c0, v1.Some?), |goal|, n, 2, done + {id})
    modifies y
    ensures Progress(y[..], writes, after, done + {id}, goal, n, 2)
    ensures forall c :: |goal| <= c < y.Length ==> y[c] == old(y[c])
  {
    writes, after := WriteCells(y, c0, v0, v1, goal, before, cells);
  }

  /** The pair's values, written to its cells. */
  method RunPairAt(y: array<real>, x: seq<real>, p: Projection, m: nat, k: nat, split: nat, i: nat, n0: nat, c0: nat,
                   ghost id: nat, ghost before: multiset<nat>, ghost cells: set<nat>, ghost done: set<nat>,
                   ghost goal: seq<real>, ghost total: nat)
    returns (ghost writes: multiset<nat>, ghost after: set<nat>)
    requires Shaped(x, p, m, k) && split > 0 && i < m && n0 < p.n && total == m * p.n && c0 == i * p.n + n0
    requires goal == Expected(x, p, m, k, total) && Progress(y[..], before, cells, done, goal, p.n, 2)
    requires c0 < total && (n0 + 1 < p.n ==> c0 + 1 < total) && Pair(c0, n0 + 1 < p.n) !! cells
    requires Covers(cells + Pair(c0, n0 + 1 < p.n), total, p.n, 2, done + {id})
    modifies y
    ensures Progress(y[..], writes, after, done + {id}, goal, p.n, 2)
    ensures forall c :: |goal| <= c < y.Length ==> y[c] == old(y[c])
  {
    var v0, v1 := PairValues(x, p, m, k, split, i, n0, total, c0, goal);
    writes, after := WritePair(y, c0, v0, v1, p.n, id, before, cells, done, goal);
  }

  method RunPair(y: array<real>, x: seq<real>, p: Projection, m: nat, k: nat, split: nat, i: nat, local: nat, ghost id: nat,
                 ghost before: multiset<nat>, ghost cells: set<nat>, ghost done: set<nat>, ghost goal: seq<real>,
                 ghost total: nat)
    returns (ghost writes: multiset<nat>, ghost after: set<nat>)
    requires Shaped(x, p, m, k) && split > 0 && i < m && 2 * local < p.n && total == m * p.n
    requires id == i * PerRow(p.n, 2) + local && id !in done && goal == Expected(x, p, m, k, total)
    requires Progress(y[..], before, cells, done, goal, p.n, 2)
    modifies y
    ensures Progress(y[..], writes, after, done + {id}, goal, p.n, 2)
    ensures forall c :: |goal| <= c < y.Length ==> y[c] == old(y[c])
  {
    var n0 := 2 * local;
    var c0 := i * p.n + n0;
    CoverPair(cells, m, p.n, total, done, i, local, n0, id, c0);
    writes, after := RunPairAt(y, x, p, m, k, split, i, n0, c0, id, before, cells, done, goal, total);
  }

  lemma RowOfId(id: nat, m: nat, n: nat)
    requires id < m * PerRow(n, 2)
    ensures 2 * RowAndColumn(id, m, PerRow(n, 2)).1 < n
  {
  }

  /** The sub-groups done are those scheduled before `t`, without the padding. */
  ghost predicate Ran(order: seq<nat>, t: nat, total: nat, done: set<nat>) {
    && t <= |order|
    && (forall u :: t <= u < |order| ==> order[u] !in done)
    && (forall u :: 0 <= u < t && order[u] < total ==> order[u] in done)
  }

  lemma RanOne(order: seq<nat>, t: nat, total: nat, done: set<nat>)
    requires Schedule(order, total) && t < |order| && Ran(order, t, total, done)
    ensures Ran(order, t + 1, total, if order[t] < total then done + {order[t]} else done)
  {
  }

  lemma RanAll(order: seq<nat>, total: nat, done: set<nat>)
    requires Schedule(order, total) && Ran(order, |order|, total, done)
    ensures forall id: nat :: id < total ==> id in done
  {
    forall id: nat | id < total
      ensures id in done
    {
      assert id in order;
      var u :| 0 <= u < |order| && order[u] == id;
    }
  }

  ghost predicate SameFrom(a: seq<real>, b: seq<real>, n: nat) {
    |a| == |b| && forall c :: n <= c < |a| ==> a[c] == b[c]
  }

  /** Before anything ran. */
  lemma NothingDone(y: seq<real>, goal: seq<real>, n: nat, rows: nat)
    requires n > 0 && rows > 0 && |goal| <= |y|
    ensures Progress(y, multiset{}, {}, {}, goal, n, rows)
  {
  }

  method RunScheduled(y: array<real>, x: seq<real>, p: Projection, m: nat, k: nat, split: nat, id: nat, per: nat,
                      ghost before: multiset<nat>, ghost cells: set<nat>, ghost done: set<nat>, ghost goal: seq<real>)
    returns (ghost writes: multiset<nat>, ghost after: set<nat>)
    requires Shaped(x, p, m, k) && split > 0 && per == PerRow(p.n, 2) && goal == Expected(x, p, m, k, m * p.n)
    requires id < m * per ==> id !in done
    requires Progress(y[..], before, cells, done, goal, p.n, 2)
    modifies y
    ensures Progress(y[..], writes, after, if id < m * per then done + {id} else done, goal, p.n, 2)
    ensures SameFrom(y[..], old(y[..]), |goal|)
  {
    if id < m * per {
      var (i, local) := RowAndColumn(id, m, per);
      RowOfId(id, m, p.n);
      writes, after := RunPair(y, x, p, m, k, split, i, local, id, before, cells, done, goal, m * p.n);
    } else {
      writes, after := before, cells;
    }
  }

  /** `linear_int4_impl` or `splitk_int4_impl`: all sub-groups, in any order. */
  method Launch(y: array<real>, x: seq<real>, p: Projection, m: nat, k: nat, split: nat, order: seq<nat>)
    returns (ghost writes: multiset<nat>)
    requires Shaped(x, p, m, k) && p.n > 0 && split > 0 && m * p.n <= y.Length
    requires Schedule(order, m * PerRow(p.n, 2))
    modifies y
    ensures Complete(y[..], writes, Expected(x, p, m, k, m * p.n))
    ensures SameFrom(y[..], old(y[..]), m * p.n)
  {
    ghost var goal := Expected(x, p, m, k, m * p.n);
    ghost var cells: set<nat>, done: set<nat> := {}, {};
    writes := multiset{};
    var per := PerRow(p.n, 2);
    ghost var total := m * per;
    NothingDone(y[..], goal, p.n, 2);
    for t := 0 to |order|
      invariant Progress(y[..], writes, cells, done, goal, p.n, 2)
      invariant Ran(order, t, total, done)
      invariant SameFrom(y[..], old(y[..]), |goal|)
    {
      RanOne(order, t, total, done);
      writes, cells := RunScheduled(y, x, p, m, k, split, order[t], per, writes, cells, done, goal);
      done := if order[t] < total then done + {order[t]} else done;
    }
    RanAll(order, total, done);
    AllDone(y[..], writes, cells, goal, m, p.n, 2, done);
  }

  /** How many sub-groups share a row pair: more than one only if few sub-groups would run, and never more than groups. */
  function ChooseSplit(m: nat, n: nat, groups: nat): (s: nat)
    requires m > 0 && n > 0
    ensures s == 1 || s == 2 || s == 4 || s == 8
    ensures s > 1 ==> s <= groups && m * PerRow(n, 2) < 128
  {
    var base: nat := m * PerRow(n, 2);
    Stride(0, m, PerRow(n, 2));
    if base < 128 && groups >= 2 then
      var target := (128 + base - 1) / base;
      if target > 4 && groups >= 8 then 8
      else if groups >= 4 then 4
      else 2
    else 1
  }

  /** `linear_int4`. */
  method LinearInt4(y: array<real>, x: seq<real>, p: Projection, m: nat, k: nat, order: seq<nat>)
    returns (ghost writes: multiset<nat>)
    requires m > 0 && p.n > 0 && k > 0 ==>
      Shaped(x, p, m, k) && m * p.n <= y.Length && Schedule(order, m * PerRow(p.n, 2))
    modifies y
    ensures m == 0 || p.n == 0 || k == 0 ==> y[..] == old(y[..]) && writes == multiset{}
    ensures m > 0 && p.n > 0 && k > 0 ==>
      Complete(y[..], writes, Expected(x, p, m, k, m * p.n)) && SameFrom(y[..], old(y[..]), m * p.n)
  {
    if m == 0 || p.n == 0 || k == 0 {
      writes := multiset{};
      return;
    }
    writes := Launch(y, x, p, m, k, ChooseSplit(m, p.n, k / GROUP), order);
  }

  // ---------------------------------------------------------------- what the reference is

  /** The weights of the sixteen codes. */
  const WEIGHTS: seq<real> := [0.0, 1.0, 2.0, 3.0, 4.0, 5.0, 6.0, 7.0, -8.0, -7.0, -6.0, -5.0, -4.0, -3.0, -2.0, -1.0]

  /** The weight that a byte holds for a position: in its low half for even positions. */
  function PackedWeight(b: nat, odd: bool): real
    requires b < 256
  {
    WEIGHTS[if odd then b / 16 else b % 16]
  }

  /** Position `t` of activation row `i` and of weight row `j`, the weight scaled by its group's scale. */
  ghost predicate IsTerm(x: seq<real>, p: Projection, k: nat, i: nat, j: nat, xs: seq<real>, ws: seq<real>, t: nat)
    requires t < |xs| == |ws|
  {
    var xAt, byteAt, scaleAt := i * k + t, j * (k / 2) + t / 2, j * (k / GROUP) + t / GROUP;
    && 0 <= xAt < |x| && 0 <= byteAt < |p.w| && 0 <= scaleAt < |p.scales|
    && xs[t] == x[xAt] && ws[t] == PackedWeight(p.w[byteAt] as nat, t % 2 == 1) * p.scales[scaleAt]
  }

  ghost predicate IsRowTerm(rowX: seq<real>, row: Packed, xs: seq<real>, ws: seq<real>, t: nat)
    requires row.Fits(rowX) && |xs| == |ws| == |rowX| && t < |rowX|
  {
    xs[t] == rowX[t] && ws[t] == PackedWeight(row.w[t / 2] as nat, t % 2 == 1) * row.scales[t / GROUP]
  }

  lemma WeightIsNibble(w: ByteString, t: nat)
    requires t < 2 * |w|
    ensures Unpack(w)[t] == PackedWeight(w[t / 2] as nat, t % 2 == 1)
  {
    UnpackAt(w, t, t / 2, t % 2);
    NibbleWeight(if t % 2 == 1 then w[t / 2] as nat / 16 else w[t / 2] as nat % 16);
  }

  lemma NibbleWeight(q: nat)
    requires q < 16
    ensures SignedNibble(q) as real == WEIGHTS[q]
  {
  }

  lemma TermIsProduct(rowX: seq<real>, row: Packed, xs: seq<real>, ws: seq<real>, t: nat)
    requires row.Fits(rowX) && |xs| == |ws| == |rowX| && t < |rowX| && IsRowTerm(rowX, row, xs, ws, t)
    ensures Term(row.With(rowX), t) == xs[t] * ws[t]
  {
    WeightIsNibble(row.w, t);
  }

  ghost predicate IsProduct(r: Row, xs: seq<real>, ws: seq<real>, t: nat)
    requires r.Valid() && |xs| == |ws| == |r.x| && t < |r.x|
  {
    Term(r, t) == xs[t] * ws[t]
  }

  lemma {:induction false} ProductsAdd(r: Row, xs: seq<real>, ws: seq<real>, n: nat)
    requires r.Valid() && |xs| == |ws| == |r.x| && n <= |r.x|
    requires forall t: nat :: t < |r.x| ==> IsProduct(r, xs, ws, t)
    ensures Prefix(r, n) == Dot(xs, ws, n)
  {
    if n > 0 {
      ProductsAdd(r, xs, ws, n - 1);
      assert IsProduct(r, xs, ws, n - 1);
      TermsAt(r, |r.x|, n - 1);
    }
  }

  lemma PrefixIsDot(rowX: seq<real>, row: Packed, xs: seq<real>, ws: seq<real>, n: nat)
    requires row.Fits(rowX) && |xs| == |ws| == |rowX| && n <= |rowX|
    requires forall t: nat :: t < |rowX| ==> IsRowTerm(rowX, row, xs, ws, t)
    ensures Prefix(row.With(rowX), n) == Dot(xs, ws, n)
  {
    forall t: nat | t < |rowX|
      ensures IsProduct(row.With(rowX), xs, ws, t)
    {
      assert IsRowTerm(rowX, row, xs, ws, t);
      TermIsProduct(rowX, row, xs, ws, t);
    }
    ProductsAdd(row.With(rowX), xs, ws, n);
  }

  lemma SliceAt<T>(s: seq<T>, at: nat, n: nat, t: nat)
    requires at + n <= |s| && t < n
    ensures s[at..at + n][t] == s[at + t]
  {
  }

  lemma InRow(t: nat, k: nat)
    requires t < k && k % GROUP == 0
    ensures t / 2 < k / 2 && t / GROUP < k / GROUP
  {
  }

  lemma XAt(x: seq<real>, m: nat, k: nat, i: nat, t: nat)
    requires |x| == m * k && i < m && t < k
    ensures 0 <= i * k + t < |x| && XRow(x, m, k, i)[t] == x[i * k + t]
  {
    Stride(i, m, k);
    SliceAt(x, i * k, k, t);
  }

  lemma WAt(p: Projection, k: nat, j: nat, b: nat, g: nat)
    requires |p.w| == p.n * (k / 2) && |p.scales| == p.n * (k / GROUP) && j < p.n && b < k / 2 && g < k / GROUP
    ensures 0 <= j * (k / 2) + b < |p.w| && WRow(p, k, j).w[b] == p.w[j * (k / 2) + b]
    ensures 0 <= j * (k / GROUP) + g < |p.scales| && WRow(p, k, j).scales[g] == p.scales[j * (k / GROUP) + g]
  {
    Stride(j, p.n, k / 2);
    Stride(j, p.n, k / GROUP);
    SliceAt(p.w, j * (k / 2), k / 2, b);
    SliceAt(p.scales, j * (k / GROUP), k / GROUP, g);
  }

  lemma TermInRow(x: seq<real>, p: Projection, m: nat, k: nat, i: nat, j: nat, xs: seq<real>, ws: seq<real>, t: nat)
    requires Shaped(x, p, m, k) && i < m && j < p.n && |xs| == |ws| == k && t < k && IsTerm(x, p, k, i, j, xs, ws, t)
    ensures IsRowTerm(XRow(x, m, k, i), WRow(p, k, j), xs, ws, t)
  {
    InRow(t, k);
    XAt(x, m, k, i, t);
    WAt(p, k, j, t / 2, t / GROUP);
  }

  lemma ReferenceIsProduct(x: seq<real>, p: Projection, m: nat, k: nat, i: nat, j: nat, xs: seq<real>, ws: seq<real>)
    requires Shaped(x, p, m, k) && i < m && j < p.n && |xs| == |ws| == k
    requires forall t: nat :: t < k ==> IsTerm(x, p, k, i, j, xs, ws, t)
    ensures Reference(x, p, m, k, i, j) == Dot(xs, ws, k) + (if p.bias.Some? then p.bias.value[j] else 0.0)
  {
    forall t: nat | t < k
      ensures IsRowTerm(XRow(x, m, k, i), WRow(p, k, j), xs, ws, t)
    {
      TermInRow(x, p, m, k, i, j, xs, ws, t);
    }
    PrefixIsDot(XRow(x, m, k, i), WRow(p, k, j), xs, ws, k);
  }

  lemma CellIsReference(x: seq<real>, p: Projection, m: nat, k: nat, i: nat, j: nat, total: nat, c: nat)
    requires Shaped(x, p, m, k) && i < m && j < p.n && total == m * p.n && c == i * p.n + j < total
    ensures Expected(x, p, m, k, total)[c] == Reference(x, p, m, k, i, j)
  {
    ExpectedAt(x, p, m, k, total, i, j);
  }

  /** Every cell of the reference is the product of its activation row and its unpacked, scaled weight row, and the bias. */
  lemma CellIsProduct(x: seq<real>, p: Projection, m: nat, k: nat, i: nat, j: nat, xs: seq<real>, ws: seq<real>, total: nat,
                      c: nat)
    requires Shaped(x, p, m, k) && i < m && j < p.n && total == m * p.n && c == i * p.n + j < total
    requires |xs| == |ws| == k && forall t: nat :: t < k ==> IsTerm(x, p, k, i, j, xs, ws, t)
    ensures Expected(x, p, m, k, total)[c] == Dot(xs, ws, k) + (if p.bias.Some? then p.bias.value[j] else 0.0)
  {
    CellIsReference(x, p, m, k, i, j, total, c);
    ReferenceIsProduct(x, p, m, k, i, j, xs, ws);
  }

  // ---------------------------------------------------------------- one cell per sub-group: the reference and SwiGLU

  method RunOne(y: array<real>, id: nat, v: real, ghost m: nat, ghost n: nat, ghost before: multiset<nat>,
                ghost cells: set<nat>, ghost done: set<nat>, ghost goal: seq<real>)
    returns (ghost writes: multiset<nat>, ghost after: set<nat>)
    requires |goal| == m * n && id < |goal| && id !in done && v == goal[id]
    requires Progress(y[..], before, cells, done, goal, n, 1)
    modifies y
    ensures Progress(y[..], writes, after, done + {id}, goal, n, 1)
    ensures SameFrom(y[..], old(y[..]), |goal|)
  {
    CoverOne(cells, m, n, done, id);
    writes, after := WriteCells(y, id, v, None, goal, before, cells);
  }

  method LinearInt4Naive(y: array<real>, x: seq<real>, p: Projection, m: nat, k: nat, order: seq<nat>)
    returns (ghost writes: multiset<nat>)
    requires Shaped(x, p, m, k) && p.n > 0 && m * p.n <= y.Length
    requires Schedule(order, m * p.n) && forall t :: 0 <= t < |order| ==> order[t] < m * p.n
    modifies y
    ensures Complete(y[..], writes, Expected(x, p, m, k, m * p.n))
    ensures SameFrom(y[..], old(y[..]), m * p.n)
  {
    ghost var goal := Expected(x, p, m, k, m * p.n);
    ghost var cells: set<nat>, done: set<nat> := {}, {};
    writes := multiset{};
    NothingDone(y[..], goal, p.n, 1);
    for t := 0 to |order|
      invariant Progress(y[..], writes, cells, done, goal, p.n, 1)
      invariant Ran(order, t, |goal|, done)
      invariant SameFrom(y[..], old(y[..]), |goal|)
    {
      RanOne(order, t, |goal|, done);
      var v := NaiveCell(x, p, m, k, order[t]);
      writes, cells := RunOne(y, order[t], v, m, p.n, writes, cells, done, goal);
      done := done + {order[t]};
    }
    RanAll(order, |goal|, done);
    AllDone(y[..], writes, cells, goal, m, p.n, 1, done);
  }

  method NaiveCell(x: seq<real>, p: Projection, m: nat, k: nat, c: nat) returns (v: real)
    requires Shaped(x, p, m, k) && c < m * p.n
    ensures v == Expected(x, p, m, k, m * p.n)[c]
  {
    var (i, j) := RowAndColumn(c, m, p.n);
    v := NaiveElement(x, p, m, k, i, j);
    ExpectedAt(x, p, m, k, m * p.n, i, j);
  }

  ghost predicate Positive(exp: real -> real) {
    forall z :: exp(z) > 0.0
  }

  /** `z * sigmoid(z)` */
  function Silu(exp: real -> real, z: real): real
    requires Positive(exp)
  {
    z / (1.0 + exp(-z))
  }

  /** The gated activation of a gate and an up value. */
  function Swiglu(exp: real -> real): (real, real) -> real
    requires Positive(exp)
  {
    (g, u) => Silu(exp, g) * u
  }

  /** The reference output of two projections joined by an activation. */
  ghost function ExpectedJoin(act: (real, real) -> real, x: seq<real>, gate: Projection, up: Projection, m: nat, k: nat,
                              count: nat)
    : (r: seq<real>)
    requires Shaped(x, gate, m, k) && Shaped(x, up, m, k) && gate.n == up.n && count <= m * gate.n
    ensures |r| == count
  {
    if count == 0 then []
    else
      var (i, j) := RowAndColumn(count - 1, m, gate.n);
      ExpectedJoin(act, x, gate, up, m, k, count - 1)
        + [act(Reference(x, gate, m, k, i, j), Reference(x, up, m, k, i, j))]
  }

  lemma {:induction false} JoinAt(act: (real, real) -> real, x: seq<real>, gate: Projection, up: Projection, m: nat, k: nat,
                                  count: nat, i: nat, j: nat)
    requires Shaped(x, gate, m, k) && Shaped(x, up, m, k) && gate.n == up.n
    requires i < m && j < gate.n && i * gate.n + j < count <= m * gate.n
    ensures ExpectedJoin(act, x, gate, up, m, k, count)[i * gate.n + j] ==
      act(Reference(x, gate, m, k, i, j), Reference(x, up, m, k, i, j))
    decreases count
  {
    DivMod(i, j, gate.n);
    if i * gate.n + j < count - 1 { JoinAt(act, x, gate, up, m, k, count - 1, i, j); }
  }

  /** One sub-group of the fused gate and up projection: both rows of one output. */
  method GateUpRows(x: seq<real>, gate: Projection, up: Projection, m: nat, k: nat, i: nat, j: nat)
    returns (g: real, u: real)
    requires Shaped(x, gate, m, k) && Shaped(x, up, m, k) && gate.n == up.n && i < m && j < gate.n
    requires gate.bias.None? && up.bias.None?
    ensures g == Reference(x, gate, m, k, i, j) && u == Reference(x, up, m, k, i, j)
  {
    g, u := RunSubGroup(XRow(x, m, k, i), WRow(gate, k, j), Some(WRow(up, k, j)), 0, k / GROUP);
  }

  method GateUpCell(act: (real, real) -> real, x: seq<real>, gate: Projection, up: Projection, m: nat, k: nat, c: nat)
    returns (v: real)
    requires Shaped(x, gate, m, k) && Shaped(x, up, m, k) && gate.n == up.n && c < m * gate.n
    requires gate.bias.None? && up.bias.None?
    ensures v == ExpectedJoin(act, x, gate, up, m, k, m * gate.n)[c]
  {
    var (i, j) := RowAndColumn(c, m, gate.n);
    var g, u := GateUpRows(x, gate, up, m, k, i, j);
    v := act(g, u);
    JoinAt(act, x, gate, up, m, k, m * gate.n, i, j);
  }

  /** `mlp_gate_up_swiglu_int4_impl`. */
  method GateUpSwiglu(y: array<real>, exp: real -> real, x: seq<real>, gate: Projection, up: Projection, m: nat, k: nat,
                      order: seq<nat>)
    returns (ghost writes: multiset<nat>)
    requires Positive(exp) && Shaped(x, gate, m, k) && Shaped(x, up, m, k) && gate.n == up.n > 0
    requires gate.bias.None? && up.bias.None? && m * gate.n <= y.Length && Schedule(order, m * gate.n)
    modifies y
    ensures Complete(y[..], writes, ExpectedJoin(Swiglu(exp), x, gate, up, m, k, m * gate.n))
    ensures SameFrom(y[..], old(y[..]), m * gate.n)
  {
    writes := GateUpJoin(y, Swiglu(exp), x, gate, up, m, k, order);
  }

  method GateUpJoin(y: array<real>, act: (real, real) -> real, x: seq<real>, gate: Projection, up: Projection, m: nat, k: nat,
                    order: seq<nat>)
    returns (ghost writes: multiset<nat>)
    requires Shaped(x, gate, m, k) && Shaped(x, up, m, k) && gate.n == up.n > 0
    requires gate.bias.None? && up.bias.None? && m * gate.n <= y.Length && Schedule(order, m * gate.n)
    modifies y
    ensures Complete(y[..], writes, ExpectedJoin(act, x, gate, up, m, k, m * gate.n))
    ensures SameFrom(y[..], old(y[..]), m * gate.n)
  {
    ghost var goal := ExpectedJoin(act, x, gate, up, m, k, m * gate.n);
    ghost var cells: set<nat>, done: set<nat> := {}, {};
    writes := multiset{};
    NothingDone(y[..], goal, gate.n, 1);
    for t := 0 to |order|
      invariant Progress(y[..], writes, cells, done, goal, gate.n, 1)
      invariant Ran(order, t, |goal|, done)
      invariant SameFrom(y[..], old(y[..]), |goal|)
    {
      RanOne(order, t, |goal|, done);
      if order[t] < m * gate.n {
        var v := GateUpCell(act, x, gate, up, m, k, order[t]);
        writes, cells := RunOne(y, order[t], v, m, gate.n, writes, cells, done, goal);
        done := done + {order[t]};
      }
    }
    RanAll(order, |goal|, done);
    AllDone(y[..], writes, cells, goal, m, gate.n, 1, done);
  }

  /** Every cell of the gated output: `g / (1 + exp(-g)) * u` of the two projections' cells. */
  lemma GatedCell(exp: real -> real, x: seq<real>, gate: Projection, up: Projection, m: nat, k: nat, i: nat, j: nat,
                  g: real, u: real)
    requires Positive(exp) && Shaped(x, gate, m, k) && Shaped(x, up, m, k) && gate.n == up.n
    requires i < m && j < gate.n && i * gate.n + j < m * gate.n
    requires g == Reference(x, gate, m, k, i, j) && u == Reference(x, up, m, k, i, j)
    ensures ExpectedJoin(Swiglu(exp), x, gate, up, m, k, m * gate.n)[i * gate.n + j] == g / (1.0 + exp(-g)) * u
  {
    JoinAt(Swiglu(exp), x, gate, up, m, k, m * gate.n, i, j);
    SwigluIs(exp, g, u);
  }

  lemma SwigluIs(exp: real -> real, g: real, u: real)
    requires Positive(exp)
    ensures Swiglu(exp)(g, u) == g / (1.0 + exp(-g)) * u
  {
  }

  /** The split, exactly: eight-fold below 32 sub-groups, else by what the groups allow below 128. */
  lemma SplitExactly(m: nat, n: nat, groups: nat)
    requires m > 0 && n > 0
    ensures var s, work := ChooseSplit(m, n, groups), m * ((n + 1) / 2);
      && (s == 1 <==> work >= 128 || groups <= 1)
      && (s == 2 <==> work < 128 && 2 <= groups <= 3)
      && (s == 8 <==> work < 32 && groups >= 8)
      && (s == 4 <==> work < 128 && groups >= 4 && (work >= 32 || groups < 8))
  {
    var work: nat := m * ((n + 1) / 2);
    Stride(0, m, (n + 1) / 2);
    if work < 128 {
      var target := (128 + work - 1) / work;
      CeilingExceeds(128, work, 4);
    }
  }

  lemma CeilingExceeds(a: nat, b: nat, q: nat)
    requires b > 0
    ensures (a + b - 1) / b > q <==> a > q * b
  {
    var d := (a + b - 1) / b;
    QuotientAndRemainder(a + b - 1, b);
    Apart(d, q + 1, b);
  }
}
