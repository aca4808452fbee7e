/**
  A linear-attention layer whose recurrence is the gated delta rule (src/targets/qwen3_8/linear_attn.cpp:145-343). The
  layer's state is its columns one after the other. The layer runs token by token over all columns, the kernel column by
  column over all tokens; both leave the same state and give the same readouts.
 */
module DeltaLayer {
  import opened Bytes
  import opened Arithmetic
  import opened Transformer
  import opened LinearAttn
  import Forward

  /** The columns of a layer: how many, how long, and what each is fed from a convolved row and the row's gates. */
  datatype Columns = Columns(count: nat, dim: nat, input: (Row, Row, nat) -> DeltaInput) {
    ghost predicate Valid() {
      forall conv, g, c: nat :: c < count ==> |input(conv, g, c).q| == |input(conv, g, c).k| == dim
    }
  }

  /** Column `c` of a state. */
  function ColumnOf(cols: Columns, s: Row, c: nat): (r: Row)
    requires |s| == cols.count * cols.dim && c < cols.count
    ensures |r| == cols.dim
  {
    Apart(c, cols.count, cols.dim);
    s[c * cols.dim..c * cols.dim + cols.dim]
  }

  /** The columns after one token. */
  function StepColumns(cols: Columns, s: Row, conv: Row, g: Row): (r: seq<Row>)
    requires cols.Valid() && |s| == cols.count * cols.dim
    ensures |r| == cols.count
    ensures forall c: nat :: c < |r| ==> |r[c]| == cols.dim && r[c] == DeltaStep(ColumnOf(cols, s, c), cols.input(conv, g, c))
  {
    seq(cols.count, c requires 0 <= c < cols.count => DeltaStep(ColumnOf(cols, s, c), cols.input(conv, g, c)))
  }

  function Readouts(cols: Columns, s: Row, conv: Row, g: Row): (r: Row)
    requires cols.Valid() && |s| == cols.count * cols.dim
    ensures |r| == cols.count
  {
    seq(cols.count, c requires 0 <= c < cols.count =>
      Readout(StepColumns(cols, s, conv, g)[c], cols.input(conv, g, c)))
  }

  /** One token of the recurrence, over all columns. A state of another size is left alone. */
  function Recur(cols: Columns, s: Row, conv: Row, g: Row): (r: (Row, Row))
    requires cols.Valid()
  {
    if |s| != cols.count * cols.dim then (s, [])
    else (Concat(StepColumns(cols, s, conv, g)), Readouts(cols, s, conv, g))
  }

  ghost predicate IsDeltaLayer(layer: Layer, cols: Columns) {
    && layer.LinearAttention? && cols.Valid()
    && forall s, conv, g :: layer.recur(s, conv, g) == Recur(cols, s, conv, g)
  }

  /** What the kernel feeds column `c` over the tokens. */
  function Steps(cols: Columns, layer: Layer, xs: seq<Row>, convs: seq<Row>, c: nat): (r: seq<DeltaInput>)
    requires layer.LinearAttention? && |convs| == |xs| && cols.Valid() && c < cols.count
    ensures |r| == |xs| && Shaped(r, cols.dim)
  {
    seq(|xs|, t requires 0 <= t < |xs| => cols.input(convs[t], layer.gates(xs[t]), c))
  }

  lemma ColumnAfter(cols: Columns, s: Row, conv: Row, g: Row, c: nat)
    requires cols.Valid() && |s| == cols.count * cols.dim && c < cols.count
    ensures var s' := Recur(cols, s, conv, g).0;
      |s'| == cols.count * cols.dim && ColumnOf(cols, s', c) == DeltaStep(ColumnOf(cols, s, c), cols.input(conv, g, c))
  {
    ConcatLength(StepColumns(cols, s, conv, g), cols.dim);
    ConcatPart(StepColumns(cols, s, conv, g), cols.dim, c);
  }

  lemma StepsTail(cols: Columns, layer: Layer, xs: seq<Row>, convs: seq<Row>, c: nat)
    requires layer.LinearAttention? && |convs| == |xs| > 0 && cols.Valid() && c < cols.count
    ensures Steps(cols, layer, xs, convs, c)[0] == cols.input(convs[0], layer.gates(xs[0]), c)
    ensures Steps(cols, layer, xs, convs, c)[1..] == Steps(cols, layer, xs[1..], convs[1..], c)
  {
  }

  /** After all the tokens each column is as if it had been run alone. */
  lemma {:induction false} ColumnRunsAlone(cols: Columns, layer: Layer, s: Row, xs: seq<Row>, convs: seq<Row>, c: nat)
    requires IsDeltaLayer(layer, cols) && |convs| == |xs| && |s| == cols.count * cols.dim && c < cols.count
    ensures var s' := Recurrence(layer, s, xs, convs).0;
      |s'| == |s| && ColumnOf(cols, s', c) == RunColumn(ColumnOf(cols, s, c), Steps(cols, layer, xs, convs, c)).0
    decreases |xs|
  {
    if xs != [] {
      ColumnAfter(cols, s, convs[0], layer.gates(xs[0]), c);
      StepsTail(cols, layer, xs, convs, c);
      ColumnRunsAlone(cols, layer, Recur(cols, s, convs[0], layer.gates(xs[0])).0, xs[1..], convs[1..], c);
    }
  }

  /** The readouts of token `t`, each column run alone. */
  ghost function Readings(cols: Columns, layer: Layer, s: Row, xs: seq<Row>, convs: seq<Row>, t: nat): (r: Row)
    requires layer.LinearAttention? && cols.Valid() && |convs| == |xs| && |s| == cols.count * cols.dim && t < |xs|
    ensures |r| == cols.count
  {
    seq(cols.count, c requires 0 <= c < cols.count =>
      RunColumn(ColumnOf(cols, s, c), Steps(cols, layer, xs, convs, c)).1[t])
  }

  lemma ReadingLater(cols: Columns, layer: Layer, s: Row, xs: seq<Row>, convs: seq<Row>, t: nat, c: nat)
    requires IsDeltaLayer(layer, cols) && |convs| == |xs| && |s| == cols.count * cols.dim && 0 < t < |xs| && c < cols.count
    ensures var s' := Recur(cols, s, convs[0], layer.gates(xs[0])).0;
      |s'| == |s| && Readings(cols, layer, s, xs, convs, t)[c] == Readings(cols, layer, s', xs[1..], convs[1..], t - 1)[c]
  {
    ColumnAfter(cols, s, convs[0], layer.gates(xs[0]), c);
    StepsTail(cols, layer, xs, convs, c);
  }

  lemma ReadingFirst(cols: Columns, layer: Layer, s: Row, xs: seq<Row>, convs: seq<Row>)
    requires IsDeltaLayer(layer, cols) && |convs| == |xs| > 0 && |s| == cols.count * cols.dim
    ensures Readings(cols, layer, s, xs, convs, 0) == Recur(cols, s, convs[0], layer.gates(xs[0])).1
  {
    forall c: nat | c < cols.count
      ensures Readings(cols, layer, s, xs, convs, 0)[c] == Recur(cols, s, convs[0], layer.gates(xs[0])).1[c]
    {
      StepsTail(cols, layer, xs, convs, c);
    }
  }

  /** And each token's row is mixed from its readouts. */
  lemma {:induction false} RowsReadColumns(cols: Columns, layer: Layer, s: Row, xs: seq<Row>, convs: seq<Row>, t: nat)
    requires IsDeltaLayer(layer, cols) && |convs| == |xs| && |s| == cols.count * cols.dim && t < |xs|
    ensures Recurrence(layer, s, xs, convs).1[t] == layer.mix(xs[t], Readings(cols, layer, s, xs, convs, t))
    decreases |xs|
  {
    var step := Recur(cols, s, convs[0], layer.gates(xs[0]));
    assert layer.recur(s, convs[0], layer.gates(xs[0])) == step;
    if t == 0 {
      ReadingFirst(cols, layer, s, xs, convs);
    } else {
      ConcatLength(StepColumns(cols, s, convs[0], layer.gates(xs[0])), cols.dim);
      forall c: nat | c < cols.count
        ensures Readings(cols, layer, s, xs, convs, t)[c] == Readings(cols, layer, step.0, xs[1..], convs[1..], t - 1)[c]
      {
        ReadingLater(cols, layer, s, xs, convs, t, c);
      }
      assert Readings(cols, layer, s, xs, convs, t) == Readings(cols, layer, step.0, xs[1..], convs[1..], t - 1);
      RowsReadColumns(cols, layer, step.0, xs[1..], convs[1..], t - 1);
    }
  }

  // ---------------------------------------------------------------- the kernel

  /** The kernel on one column: its end and its readouts. */
  method KernelColumn(cols: Columns, layer: Layer, s: Row, xs: seq<Row>, convs: seq<Row>, zero: bool, c: nat)
      returns (column: Row, outs: seq<real>)
    requires layer.LinearAttention? && cols.Valid() && |convs| == |xs| && |s| == cols.count * cols.dim && c < cols.count
    ensures var from := if zero then ZeroColumn(cols.dim) else ColumnOf(cols, s, c);
      (column, outs) == RunColumn(from, Steps(cols, layer, xs, convs, c))
  {
    var column0 := ColumnOf(cols, s, c);
    var S := new real[cols.dim](i requires 0 <= i < cols.dim => column0[i]);
    assert S[..] == column0;
    outs := RecurrentColumn(S, Steps(cols, layer, xs, convs, c), zero);
    column := S[..];
  }

  /** What the recurrence starts from. */
  function Start(cols: Columns, s: Row, zero: bool): (r: Row)
    requires |s| == cols.count * cols.dim
    ensures |r| == |s|
  {
    if zero then ZeroColumn(cols.count * cols.dim) else s
  }

  lemma StartColumn(cols: Columns, s: Row, zero: bool, c: nat)
    requires |s| == cols.count * cols.dim && c < cols.count
    ensures ColumnOf(cols, Start(cols, s, zero), c) == if zero then ZeroColumn(cols.dim) else ColumnOf(cols, s, c)
  {
    if zero { Apart(c, cols.count, cols.dim); }
  }

  /** The kernel, one column after the other: state and rows are those of the layer's token-by-token recurrence. */
  method DeltaKernel(cols: Columns, layer: Layer, s: Row, xs: seq<Row>, convs: seq<Row>, zero: bool)
      returns (s': Row, ys: seq<Row>)
    requires IsDeltaLayer(layer, cols) && |convs| == |xs| && |s| == cols.count * cols.dim
    ensures var r := Recurrence(layer, Start(cols, s, zero), xs, convs); s' == r.0 && ys == r.1
  {
    ghost var from := Start(cols, s, zero);
    var columns: seq<Row>, outs: seq<seq<real>> := [], [];
    for c: nat := 0 to cols.count
      invariant |columns| == |outs| == c
      invariant forall j: nat :: j < c ==> columns[j] == RunColumn(ColumnOf(cols, from, j), Steps(cols, layer, xs, convs, j)).0
      invariant forall j: nat :: j < c ==> outs[j] == RunColumn(ColumnOf(cols, from, j), Steps(cols, layer, xs, convs, j)).1
    {
      var column, out := KernelColumn(cols, layer, s, xs, convs, zero, c);
      StartColumn(cols, s, zero, c);
      columns, outs := columns + [column], outs + [out];
    }
    s' := Concat(columns);
    ColumnsMakeState(cols, layer, from, xs, convs, columns);
    ys := MixRows(cols, layer, xs, convs, outs, from);
  }

  lemma ColumnsMakeState(cols: Columns, layer: Layer, s: Row, xs: seq<Row>, convs: seq<Row>, columns: seq<Row>)
    requires IsDeltaLayer(layer, cols) && |convs| == |xs| && |s| == cols.count * cols.dim && |columns| == cols.count
    requires forall j: nat :: j < |columns| ==> columns[j] == RunColumn(ColumnOf(cols, s, j), Steps(cols, layer, xs, convs, j)).0
    ensures Concat(columns) == Recurrence(layer, s, xs, convs).0
  {
    var end := Recurrence(layer, s, xs, convs).0;
    SizeStays(cols, layer, s, xs, convs);
    forall c: nat | c < |columns|
      ensures PartAt(end, cols.dim, c, columns[c]) && |columns[c]| == cols.dim
    {
      ColumnRunsAlone(cols, layer, s, xs, convs, c);
      ColumnIsPart(cols, end, c);
    }
    ConcatIs(columns, cols.dim, end);
  }

  lemma ColumnIsPart(cols: Columns, s: Row, c: nat)
    requires |s| == cols.count * cols.dim && c < cols.count
    ensures PartAt(s, cols.dim, c, ColumnOf(cols, s, c))
  {
    Apart(c, cols.count, cols.dim);
  }

  lemma {:induction false} SizeStays(cols: Columns, layer: Layer, s: Row, xs: seq<Row>, convs: seq<Row>)
    requires IsDeltaLayer(layer, cols) && |convs| == |xs| && |s| == cols.count * cols.dim
    ensures |Recurrence(layer, s, xs, convs).0| == |s|
    decreases |xs|
  {
    if xs != [] {
      var step := Recur(cols, s, convs[0], layer.gates(xs[0]));
      ConcatLength(StepColumns(cols, s, convs[0], layer.gates(xs[0])), cols.dim);
      SizeStays(cols, layer, step.0, xs[1..], convs[1..]);
    }
  }

  method MixRows(cols: Columns, layer: Layer, xs: seq<Row>, ghost convs: seq<Row>, outs: seq<seq<real>>, ghost s: Row)
      returns (ys: seq<Row>)
    requires IsDeltaLayer(layer, cols) && |convs| == |xs| && |s| == cols.count * cols.dim && |outs| == cols.count
    requires forall j: nat :: j < |outs| ==> outs[j] == RunColumn(ColumnOf(cols, s, j), Steps(cols, layer, xs, convs, j)).1
    ensures ys == Recurrence(layer, s, xs, convs).1
  {
    ys := [];
    for t: nat := 0 to |xs|
      invariant ys == Recurrence(layer, s, xs, convs).1[..t]
    {
      assert forall c: nat :: c < |outs| ==> |outs[c]| == |xs|;
      var readouts := seq(cols.count, c requires 0 <= c < cols.count => outs[c][t]);
      assert readouts == Readings(cols, layer, s, xs, convs, t);
      RowsReadColumns(cols, layer, s, xs, convs, t);
      ys := ys + [layer.mix(xs[t], readouts)];
    }
  }

  /** A chunk through the two kernels of the layer: what the forward pass takes a linear layer to do. */
  method DeltaChunk(cols: Columns, layer: Layer, window: Window, s: Row, xs: seq<Row>, zero: bool, ghost pos: nat)
      returns (window': Window, s': Row, ys: seq<Row>)
    requires IsDeltaLayer(layer, cols) && |s| == cols.count * cols.dim
    ensures var st := LinearState(window, Start(cols, s, zero));
      LinearState(window', s') == RunState(layer, st, xs, pos) && ys == RunRows(layer, st, xs, pos)
  {
    var convs;
    window', convs := Forward.ConvolveChunk(layer, window, xs);
    LinearLayerIsConvThenRecur(layer, LinearState(window, Start(cols, s, zero)), xs, pos);
    s', ys := DeltaKernel(cols, layer, s, xs, convs, zero);
  }
}
