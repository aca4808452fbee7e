/**
  The value-level meaning of the forward pass (src/targets/qwen3_8/forward.cpp): what each layer does to its state and
  to one token's activation row, and the theorems that make chunking, caching and stale cache contents invisible.

  Per-token arithmetic (RMSNorm, INT4 projections, head norms, RoPE, gating, MLP, residuals) is an arbitrary function
  per layer: the kernels compute each row from that row alone. What is concrete is everything that crosses tokens.
 */
module Transformer {
  import opened Bytes
  import LinearAttn

  type Row = seq<real>

  /** What the cache holds for one position of one full-attention layer. */
  datatype Entry = Entry(k: Row, v: Row)

  /** One row's query, its output gate, and the key/value entry it leaves in the cache. */
  datatype Projected = Projected(q: Row, gate: Row, entry: Entry)

  datatype Layer =
    | FullAttention(project: (Row, nat) -> Projected, attend: (Row, seq<Entry>) -> Row, finish: (Row, Row, Row) -> Row)
    | LinearAttention(qkv: Row -> Row, gates: Row -> Row, taps: (Row, Row, Row, Row) -> Row,
                      recur: (Row, Row, Row) -> (Row, Row), mix: (Row, Row) -> Row)

  datatype Model = Model(embed: int -> Row, layers: seq<Layer>, head: Row -> seq<real>, vocabSize: nat,
                         zeroConv: Row, zeroState: Row)

  /** The last three raw rows a linear layer has seen. */
  datatype Window = Window(w0: Row, w1: Row, w2: Row) {
    function Rows(): (r: seq<Row>)
      ensures |r| == 3
    {
      [w0, w1, w2]
    }
  }

  datatype LayerState = FullState(kv: seq<Entry>) | LinearState(window: Window, s: Row)

  /** A cache write; a position past the buffer is dropped, as the kernel drops it. */
  function Put(kv: seq<Entry>, pos: nat, e: Entry): (r: seq<Entry>)
    ensures |r| == |kv|
  {
    if pos < |kv| then kv[pos := e] else kv
  }

  /** The first `n` entries, clamped to the buffer. */
  function Keys(kv: seq<Entry>, n: nat): seq<Entry> {
    if n <= |kv| then kv[..n] else kv
  }

  // ---------------------------------------------------------------- one token, one layer

  ghost function StepState(layer: Layer, st: LayerState, x: Row, pos: nat): LayerState {
    match (layer, st)
    case (FullAttention(project, _, _), FullState(kv)) => FullState(Put(kv, pos, project(x, pos).entry))
    case (LinearAttention(qkv, gates, taps, recur, _), LinearState(w, s)) =>
      var raw := qkv(x);
      LinearState(Window(w.w1, w.w2, raw), recur(s, taps(w.w0, w.w1, w.w2, raw), gates(x)).0)
    case (_, _) => st
  }

  ghost function StepRow(layer: Layer, st: LayerState, x: Row, pos: nat): Row {
    match (layer, st)
    case (FullAttention(project, attend, finish), FullState(kv)) =>
      var p := project(x, pos);
      finish(x, p.gate, attend(p.q, Keys(Put(kv, pos, p.entry), pos + 1)))
    case (LinearAttention(qkv, gates, taps, recur, mix), LinearState(w, s)) =>
      mix(x, recur(s, taps(w.w0, w.w1, w.w2, qkv(x)), gates(x)).1)
    case (_, _) => x
  }

  // ---------------------------------------------------------------- many tokens, one layer

  ghost function RunState(layer: Layer, st: LayerState, xs: seq<Row>, pos: nat): LayerState
    decreases |xs|
  {
    if xs == [] then st else RunState(layer, StepState(layer, st, xs[0], pos), xs[1..], pos + 1)
  }

  ghost function RunRows(layer: Layer, st: LayerState, xs: seq<Row>, pos: nat): (r: seq<Row>)
    ensures |r| == |xs|
    decreases |xs|
  {
    if xs == [] then []
    else [StepRow(layer, st, xs[0], pos)] + RunRows(layer, StepState(layer, st, xs[0], pos), xs[1..], pos + 1)
  }

  lemma {:induction false} RunSplits(layer: Layer, st: LayerState, xs: seq<Row>, ys: seq<Row>, pos: nat)
    ensures var mid := RunState(layer, st, xs, pos);
      && RunState(layer, st, xs + ys, pos) == RunState(layer, mid, ys, pos + |xs|)
      && RunRows(layer, st, xs + ys, pos) == RunRows(layer, st, xs, pos) + RunRows(layer, mid, ys, pos + |xs|)
    decreases |xs|
  {
    if xs == [] {
      assert xs + ys == ys;
    } else {
      assert (xs + ys)[1..] == xs[1..] + ys && (xs + ys)[0] == xs[0];
      RunSplits(layer, StepState(layer, st, xs[0], pos), xs[1..], ys, pos + 1);
    }
  }

  // ---------------------------------------------------------------- all layers, in the code's layer-major order

  /** The rows that reach layer `l`, every layer below having run over the whole chunk. */
  ghost function RowsAt(layers: seq<Layer>, sts: seq<LayerState>, xs: seq<Row>, pos: nat, l: nat): (r: seq<Row>)
    requires l <= |layers| && l <= |sts|
    ensures |r| == |xs|
    decreases l
  {
    if l == 0 then xs else RunRows(layers[l - 1], sts[l - 1], RowsAt(layers, sts, xs, pos, l - 1), pos)
  }

  /** The new states of the layers below `l`. */
  ghost function StatesBelow(layers: seq<Layer>, sts: seq<LayerState>, xs: seq<Row>, pos: nat, l: nat): (r: seq<LayerState>)
    requires l <= |layers| && l <= |sts|
    ensures |r| == l
    decreases l
  {
    if l == 0 then []
    else
      StatesBelow(layers, sts, xs, pos, l - 1)
      + [RunState(layers[l - 1], sts[l - 1], RowsAt(layers, sts, xs, pos, l - 1), pos)]
  }

  ghost function RunLayersState(layers: seq<Layer>, sts: seq<LayerState>, xs: seq<Row>, pos: nat): (r: seq<LayerState>)
    requires |sts| == |layers|
    ensures |r| == |layers|
  {
    StatesBelow(layers, sts, xs, pos, |layers|)
  }

  ghost function RunLayersRows(layers: seq<Layer>, sts: seq<LayerState>, xs: seq<Row>, pos: nat): (r: seq<Row>)
    requires |sts| == |layers|
    ensures |r| == |xs|
  {
    RowsAt(layers, sts, xs, pos, |layers|)
  }

  /** Layers above `l` have no part in what happens below it. */
  lemma {:induction false} BelowIsLocal(layers: seq<Layer>, sts: seq<LayerState>, st: LayerState, xs: seq<Row>, pos: nat,
                                        l: nat)
    requires l <= |layers| && l <= |sts|
    ensures RowsAt(layers, sts + [st], xs, pos, l) == RowsAt(layers, sts, xs, pos, l)
    ensures StatesBelow(layers, sts + [st], xs, pos, l) == StatesBelow(layers, sts, xs, pos, l)
    decreases l
  {
    if l > 0 { BelowIsLocal(layers, sts, st, xs, pos, l - 1); }
  }

  lemma {:induction false} ComposeBelow(layers: seq<Layer>, sts: seq<LayerState>, xs: seq<Row>, ys: seq<Row>, pos: nat,
                                        l: nat)
    requires l <= |layers| && l <= |sts|
    ensures var mid := StatesBelow(layers, sts, xs, pos, l);
      && StatesBelow(layers, sts, xs + ys, pos, l) == StatesBelow(layers, mid, ys, pos + |xs|, l)
      && RowsAt(layers, sts, xs + ys, pos, l) == RowsAt(layers, sts, xs, pos, l) + RowsAt(layers, mid, ys, pos + |xs|, l)
    decreases l
  {
    if l > 0 {
      ComposeBelow(layers, sts, xs, ys, pos, l - 1);
      ComposeOne(layers, sts, xs, ys, pos, l - 1, StatesBelow(layers, sts, xs, pos, l - 1));
    }
  }

  lemma LayerOnTop(layers: seq<Layer>, sts: seq<LayerState>, xs: seq<Row>, pos: nat, k: nat, us: seq<Row>)
    requires k < |layers| && k < |sts| && us == RowsAt(layers, sts, xs, pos, k)
    ensures RowsAt(layers, sts, xs, pos, k + 1) == RunRows(layers[k], sts[k], us, pos)
    ensures StatesBelow(layers, sts, xs, pos, k + 1)
      == StatesBelow(layers, sts, xs, pos, k) + [RunState(layers[k], sts[k], us, pos)]
  {
  }

  /** One layer more, on two chunks. */
  lemma ComposeOne(layers: seq<Layer>, sts: seq<LayerState>, xs: seq<Row>, ys: seq<Row>, pos: nat, k: nat, mid: seq<LayerState>)
    requires k < |layers| && k < |sts| && mid == StatesBelow(layers, sts, xs, pos, k)
    requires StatesBelow(layers, sts, xs + ys, pos, k) == StatesBelow(layers, mid, ys, pos + |xs|, k)
    requires RowsAt(layers, sts, xs + ys, pos, k) == RowsAt(layers, sts, xs, pos, k) + RowsAt(layers, mid, ys, pos + |xs|, k)
    ensures var mid := StatesBelow(layers, sts, xs, pos, k + 1);
      && StatesBelow(layers, sts, xs + ys, pos, k + 1) == StatesBelow(layers, mid, ys, pos + |xs|, k + 1)
      && RowsAt(layers, sts, xs + ys, pos, k + 1)
         == RowsAt(layers, sts, xs, pos, k + 1) + RowsAt(layers, mid, ys, pos + |xs|, k + 1)
  {
    var us, vs := RowsAt(layers, sts, xs, pos, k), RowsAt(layers, mid, ys, pos + |xs|, k);
    var st := RunState(layers[k], sts[k], us, pos);
    RunSplits(layers[k], sts[k], us, vs, pos);
    BelowIsLocal(layers, mid, st, ys, pos + |xs|, k);
    LayerOnTop(layers, sts, xs, pos, k, us);
    LayerOnTop(layers, sts, xs + ys, pos, k, us + vs);
    LayerOnTop(layers, mid + [st], ys, pos + |xs|, k, vs);
  }

  // ---------------------------------------------------------------- one layer, and one layer after another

  /** With no layers the rows stay; with one, they and its state are that layer's run. */
  lemma OneLayer(layer: Layer, st: LayerState, xs: seq<Row>, pos: nat)
    ensures RunLayersRows([], [], xs, pos) == xs
    ensures RunLayersRows([layer], [st], xs, pos) == RunRows(layer, st, xs, pos)
    ensures RunLayersState([layer], [st], xs, pos) == [RunState(layer, st, xs, pos)]
  {
    assert StatesBelow([layer], [st], xs, pos, 0) == [];
  }

  lemma {:induction false} LayersSplitBelow(a: seq<Layer>, sa: seq<LayerState>, b: seq<Layer>, sb: seq<LayerState>,
                                            xs: seq<Row>, pos: nat, l: nat)
    requires |sa| == |a| && |sb| == |b| && l <= |b|
    ensures var us := RunLayersRows(a, sa, xs, pos);
      && RowsAt(a + b, sa + sb, xs, pos, |a| + l) == RowsAt(b, sb, us, pos, l)
      && StatesBelow(a + b, sa + sb, xs, pos, |a| + l) == RunLayersState(a, sa, xs, pos) + StatesBelow(b, sb, us, pos, l)
    decreases l
  {
    if l == 0 {
      LowerLayers(a, sa, b, sb, xs, pos, |a|);
    } else {
      LayersSplitBelow(a, sa, b, sb, xs, pos, l - 1);
      assert (a + b)[|a| + l - 1] == b[l - 1] && (sa + sb)[|a| + l - 1] == sb[l - 1];
    }
  }

  lemma {:induction false} LowerLayers(a: seq<Layer>, sa: seq<LayerState>, b: seq<Layer>, sb: seq<LayerState>, xs: seq<Row>,
                                       pos: nat, l: nat)
    requires |sa| == |a| && |sb| == |b| && l <= |a|
    ensures RowsAt(a + b, sa + sb, xs, pos, l) == RowsAt(a, sa, xs, pos, l)
    ensures StatesBelow(a + b, sa + sb, xs, pos, l) == StatesBelow(a, sa, xs, pos, l)
    decreases l
  {
    if l > 0 { LowerLayers(a, sa, b, sb, xs, pos, l - 1); }
  }

  /** The layers above run over the rows that the layers below them leave. */
  lemma LayersInTurn(a: seq<Layer>, sa: seq<LayerState>, b: seq<Layer>, sb: seq<LayerState>, xs: seq<Row>, pos: nat)
    requires |sa| == |a| && |sb| == |b|
    ensures var us := RunLayersRows(a, sa, xs, pos);
      && RunLayersRows(a + b, sa + sb, xs, pos) == RunLayersRows(b, sb, us, pos)
      && RunLayersState(a + b, sa + sb, xs, pos) == RunLayersState(a, sa, xs, pos) + RunLayersState(b, sb, us, pos)
  {
    LayersSplitBelow(a, sa, b, sb, xs, pos, |b|);
  }

  // ---------------------------------------------------------------- chunks

  /**
    Running every layer over `xs + ys` at once is running every layer over `xs`, then every layer over `ys` from the
    states left behind: the exchange of the layer and chunk loops.
   */
  lemma ChunksCompose(layers: seq<Layer>, sts: seq<LayerState>, xs: seq<Row>, ys: seq<Row>, pos: nat)
    requires |sts| == |layers|
    ensures var mid := RunLayersState(layers, sts, xs, pos);
      && RunLayersState(layers, sts, xs + ys, pos) == RunLayersState(layers, mid, ys, pos + |xs|)
      && RunLayersRows(layers, sts, xs + ys, pos)
         == RunLayersRows(layers, sts, xs, pos) + RunLayersRows(layers, mid, ys, pos + |xs|)
  {
    ComposeBelow(layers, sts, xs, ys, pos, |layers|);
  }

  /** The states after feeding the chunks one after another, each through all the layers. */
  ghost function FeedState(layers: seq<Layer>, sts: seq<LayerState>, chunks: seq<seq<Row>>, pos: nat): (r: seq<LayerState>)
    requires |sts| == |layers|
    ensures |r| == |layers|
    decreases |chunks|
  {
    if chunks == [] then sts
    else FeedState(layers, RunLayersState(layers, sts, chunks[0], pos), chunks[1..], pos + |chunks[0]|)
  }

  ghost function FeedRows(layers: seq<Layer>, sts: seq<LayerState>, chunks: seq<seq<Row>>, pos: nat): seq<Row>
    requires |sts| == |layers|
    decreases |chunks|
  {
    if chunks == [] then []
    else
      RunLayersRows(layers, sts, chunks[0], pos)
      + FeedRows(layers, RunLayersState(layers, sts, chunks[0], pos), chunks[1..], pos + |chunks[0]|)
  }

  lemma {:induction false} NothingRunsBelow(layers: seq<Layer>, sts: seq<LayerState>, pos: nat, l: nat)
    requires l <= |layers| && l <= |sts|
    ensures StatesBelow(layers, sts, [], pos, l) == sts[..l]
    decreases l
  {
    if l > 0 {
      NothingRunsBelow(layers, sts, pos, l - 1);
      assert RowsAt(layers, sts, [], pos, l - 1) == [];
      assert sts[..l] == sts[..l - 1] + [sts[l - 1]];
    }
  }

  /** However the rows are cut into chunks, the states and rows are those of one pass over all of them. */
  lemma {:induction false} ChunkingIsInvisible(layers: seq<Layer>, sts: seq<LayerState>, chunks: seq<seq<Row>>, pos: nat)
    requires |sts| == |layers|
    ensures FeedState(layers, sts, chunks, pos) == RunLayersState(layers, sts, Concat(chunks), pos)
    ensures FeedRows(layers, sts, chunks, pos) == RunLayersRows(layers, sts, Concat(chunks), pos)
    decreases |chunks|
  {
    if chunks == [] {
      NothingRunsBelow(layers, sts, pos, |layers|);
      assert sts[..|layers|] == sts;
    } else {
      ChunksCompose(layers, sts, chunks[0], Concat(chunks[1..]), pos);
      ChunkingIsInvisible(layers, RunLayersState(layers, sts, chunks[0], pos), chunks[1..], pos + |chunks[0]|);
    }
  }

  // ---------------------------------------------------------------- token by token, front to back

  /** One token through all the layers, one after the other: its last row, and the layers' new states. */
  ghost function TokenPass(layers: seq<Layer>, sts: seq<LayerState>, x: Row, pos: nat): (r: (Row, seq<LayerState>))
    requires |sts| == |layers|
    ensures |r.1| == |layers|
  {
    if layers == [] then (x, [])
    else
      var above := TokenPass(layers[1..], sts[1..], StepRow(layers[0], sts[0], x, pos), pos);
      (above.0, [StepState(layers[0], sts[0], x, pos)] + above.1)
  }

  /** All tokens, one after the other. */
  ghost function Pass(layers: seq<Layer>, sts: seq<LayerState>, xs: seq<Row>, pos: nat): (r: (seq<Row>, seq<LayerState>))
    requires |sts| == |layers|
    ensures |r.0| == |xs| && |r.1| == |layers|
    decreases |xs|
  {
    if xs == [] then ([], sts)
    else
      var first := TokenPass(layers, sts, xs[0], pos);
      var rest := Pass(layers, first.1, xs[1..], pos + 1);
      ([first.0] + rest.0, rest.1)
  }

  lemma OneToken(layer: Layer, st: LayerState, x: Row, pos: nat)
    ensures RunRows(layer, st, [x], pos) == [StepRow(layer, st, x, pos)]
    ensures RunState(layer, st, [x], pos) == StepState(layer, st, x, pos)
  {
  }

  lemma {:induction false} TokenPassIsRun(layers: seq<Layer>, sts: seq<LayerState>, x: Row, pos: nat)
    requires |sts| == |layers|
    ensures RunLayersRows(layers, sts, [x], pos) == [TokenPass(layers, sts, x, pos).0]
    ensures RunLayersState(layers, sts, [x], pos) == TokenPass(layers, sts, x, pos).1
    decreases |layers|
  {
    if layers != [] {
      var y := StepRow(layers[0], sts[0], x, pos);
      OneLayer(layers[0], sts[0], [x], pos);
      OneToken(layers[0], sts[0], x, pos);
      assert layers == [layers[0]] + layers[1..] && sts == [sts[0]] + sts[1..];
      LayersInTurn([layers[0]], [sts[0]], layers[1..], sts[1..], [x], pos);
      TokenPassIsRun(layers[1..], sts[1..], y, pos);
    }
  }

  /** What the layer-major order of the code computes is what taking each token through all the layers computes. */
  lemma {:induction false} RunIsPass(layers: seq<Layer>, sts: seq<LayerState>, xs: seq<Row>, pos: nat)
    requires |sts| == |layers|
    ensures RunLayersRows(layers, sts, xs, pos) == Pass(layers, sts, xs, pos).0
    ensures RunLayersState(layers, sts, xs, pos) == Pass(layers, sts, xs, pos).1
    decreases |xs|
  {
    if xs == [] {
      NothingRunsBelow(layers, sts, pos, |layers|);
      assert sts[..|layers|] == sts;
    } else {
      assert xs == [xs[0]] + xs[1..];
      TokenPassIsRun(layers, sts, xs[0], pos);
      ChunksCompose(layers, sts, [xs[0]], xs[1..], pos);
      RunIsPass(layers, TokenPass(layers, sts, xs[0], pos).1, xs[1..], pos + 1);
    }
  }

  // ---------------------------------------------------------------- what the cache may hold beyond the sequence

  /** A full-attention buffer has room for the positions below `n`. */
  ghost predicate Room(st: LayerState, n: nat) {
    st.FullState? ==> n <= |st.kv|
  }

  ghost predicate HasRoom(sts: seq<LayerState>, n: nat) {
    forall l :: 0 <= l < |sts| ==> Room(sts[l], n)
  }

  /** Same history below `upto`: the same entries there, the same window, the same recurrent state. */
  ghost predicate SameBelow(a: LayerState, b: LayerState, upto: nat) {
    if a.FullState? then b.FullState? && upto <= |a.kv| && upto <= |b.kv| && a.kv[..upto] == b.kv[..upto] else a == b
  }

  ghost predicate AllSameBelow(a: seq<LayerState>, b: seq<LayerState>, upto: nat) {
    |a| == |b| && forall l {:trigger SameBelow(a[l], b[l], upto)} :: 0 <= l < |a| ==> SameBelow(a[l], b[l], upto)
  }

  lemma {:induction false} RoomRemains(layer: Layer, st: LayerState, xs: seq<Row>, pos: nat)
    ensures RunState(layer, st, xs, pos).FullState? == st.FullState?
    ensures st.FullState? ==> |RunState(layer, st, xs, pos).kv| == |st.kv|
    decreases |xs|
  {
    if xs != [] { RoomRemains(layer, StepState(layer, st, xs[0], pos), xs[1..], pos + 1); }
  }

  lemma {:induction false} KindsRemain(layers: seq<Layer>, sts: seq<LayerState>, xs: seq<Row>, pos: nat, l: nat)
    requires l <= |layers| && l <= |sts|
    ensures forall j :: 0 <= j < l ==>
      var r := StatesBelow(layers, sts, xs, pos, l)[j];
      r.FullState? == sts[j].FullState? && (r.FullState? ==> |r.kv| == |sts[j].kv|)
    decreases l
  {
    if l > 0 {
      KindsRemain(layers, sts, xs, pos, l - 1);
      RoomRemains(layers[l - 1], sts[l - 1], RowsAt(layers, sts, xs, pos, l - 1), pos);
    }
  }

  lemma AllRoomRemains(layers: seq<Layer>, sts: seq<LayerState>, xs: seq<Row>, pos: nat, n: nat)
    requires Matches(layers, sts) && HasRoom(sts, n)
    ensures Matches(layers, RunLayersState(layers, sts, xs, pos)) && HasRoom(RunLayersState(layers, sts, xs, pos), n)
  {
    KindsRemain(layers, sts, xs, pos, |layers|);
  }

  lemma StepIgnoresStale(layer: Layer, a: LayerState, b: LayerState, x: Row, pos: nat)
    requires Room(a, pos + 1) && Room(b, pos + 1) && SameBelow(a, b, pos)
    ensures StepRow(layer, a, x, pos) == StepRow(layer, b, x, pos)
    ensures layer.FullAttention? == a.FullState? ==>
              SameBelow(StepState(layer, a, x, pos), StepState(layer, b, x, pos), pos + 1)
  {
    if layer.FullAttention? && a.FullState? {
      var e := layer.project(x, pos).entry;
      assert a.kv[pos := e][..pos + 1] == a.kv[..pos] + [e];
      assert b.kv[pos := e][..pos + 1] == b.kv[..pos] + [e];
    }
  }

  lemma {:induction false} RunIgnoresStale(layer: Layer, a: LayerState, b: LayerState, xs: seq<Row>, pos: nat)
    requires Room(a, pos + |xs|) && Room(b, pos + |xs|) && SameBelow(a, b, pos)
    requires layer.FullAttention? == a.FullState?
    ensures RunRows(layer, a, xs, pos) == RunRows(layer, b, xs, pos)
    ensures SameBelow(RunState(layer, a, xs, pos), RunState(layer, b, xs, pos), pos + |xs|)
    decreases |xs|
  {
    if xs != [] {
      StepIgnoresStale(layer, a, b, xs[0], pos);
      RunIgnoresStale(layer, StepState(layer, a, xs[0], pos), StepState(layer, b, xs[0], pos), xs[1..], pos + 1);
    }
  }

  /** Each state is of its layer's kind. */
  ghost predicate Matches(layers: seq<Layer>, sts: seq<LayerState>) {
    |sts| == |layers| && forall l :: 0 <= l < |layers| ==> layers[l].FullAttention? == sts[l].FullState?
  }

  lemma LayerIgnoresStale(layers: seq<Layer>, a: seq<LayerState>, b: seq<LayerState>, us: seq<Row>, pos: nat, l: nat)
    requires Matches(layers, a) && AllSameBelow(a, b, pos) && HasRoom(a, pos + |us|) && HasRoom(b, pos + |us|)
    requires l < |layers|
    ensures RunRows(layers[l], a[l], us, pos) == RunRows(layers[l], b[l], us, pos)
    ensures SameBelow(RunState(layers[l], a[l], us, pos), RunState(layers[l], b[l], us, pos), pos + |us|)
  {
    assert SameBelow(a[l], b[l], pos) && Room(a[l], pos + |us|) && Room(b[l], pos + |us|);
    RunIgnoresStale(layers[l], a[l], b[l], us, pos);
  }

  lemma OneLayerMore(layers: seq<Layer>, a: seq<LayerState>, b: seq<LayerState>, xs: seq<Row>, pos: nat, l: nat,
                     us: seq<Row>, sa: seq<LayerState>, sb: seq<LayerState>)
    requires Matches(layers, a) && AllSameBelow(a, b, pos) && HasRoom(a, pos + |xs|) && HasRoom(b, pos + |xs|)
    requires l < |layers| && us == RowsAt(layers, a, xs, pos, l) == RowsAt(layers, b, xs, pos, l)
    requires sa == StatesBelow(layers, a, xs, pos, l) && sb == StatesBelow(layers, b, xs, pos, l)
    requires AllSameBelow(sa, sb, pos + |xs|)
    ensures RowsAt(layers, a, xs, pos, l + 1) == RowsAt(layers, b, xs, pos, l + 1)
    ensures AllSameBelow(StatesBelow(layers, a, xs, pos, l + 1), StatesBelow(layers, b, xs, pos, l + 1), pos + |xs|)
  {
    LayerIgnoresStale(layers, a, b, us, pos, l);
    SameBelowSnoc(sa, sb, RunState(layers[l], a[l], us, pos), RunState(layers[l], b[l], us, pos), pos + |xs|);
  }

  lemma {:induction false} BelowIgnoresStale(layers: seq<Layer>, a: seq<LayerState>, b: seq<LayerState>, xs: seq<Row>,
                                             pos: nat, l: nat)
    requires Matches(layers, a) && AllSameBelow(a, b, pos) && HasRoom(a, pos + |xs|) && HasRoom(b, pos + |xs|)
    requires l <= |layers|
    ensures RowsAt(layers, a, xs, pos, l) == RowsAt(layers, b, xs, pos, l)
    ensures AllSameBelow(StatesBelow(layers, a, xs, pos, l), StatesBelow(layers, b, xs, pos, l), pos + |xs|)
    decreases l
  {
    if l > 0 {
      BelowIgnoresStale(layers, a, b, xs, pos, l - 1);
      OneLayerMore(layers, a, b, xs, pos, l - 1, RowsAt(layers, a, xs, pos, l - 1), StatesBelow(layers, a, xs, pos, l - 1),
                   StatesBelow(layers, b, xs, pos, l - 1));
    }
  }

  lemma SameBelowSnoc(a: seq<LayerState>, b: seq<LayerState>, x: LayerState, y: LayerState, upto: nat)
    requires AllSameBelow(a, b, upto) && SameBelow(x, y, upto)
    ensures AllSameBelow(a + [x], b + [y], upto)
  {
  }

  /** Nothing computed, and nothing left below the new length, depends on what an earlier request left in the cache. */
  lemma LayersIgnoreStale(layers: seq<Layer>, a: seq<LayerState>, b: seq<LayerState>, xs: seq<Row>, pos: nat)
    requires Matches(layers, a) && AllSameBelow(a, b, pos) && HasRoom(a, pos + |xs|) && HasRoom(b, pos + |xs|)
    ensures RunLayersRows(layers, a, xs, pos) == RunLayersRows(layers, b, xs, pos)
    ensures AllSameBelow(RunLayersState(layers, a, xs, pos), RunLayersState(layers, b, xs, pos), pos + |xs|)
  {
    BelowIgnoresStale(layers, a, b, xs, pos, |layers|);
  }

  // ---------------------------------------------------------------- closed forms, free of any cache

  /** The entries a full-attention layer writes for these rows. */
  ghost function Entries(layer: Layer, xs: seq<Row>, pos: nat): (r: seq<Entry>)
    requires layer.FullAttention?
    ensures |r| == |xs|
  {
    seq(|xs|, i requires 0 <= i < |xs| => layer.project(xs[i], pos + i).entry)
  }

  /** Row `i` of a causal layer: its query against the earlier entries and those of rows `0 .. i`. */
  ghost function CausalRow(layer: Layer, earlier: seq<Entry>, xs: seq<Row>, pos: nat, i: nat): Row
    requires layer.FullAttention? && i < |xs|
  {
    var p := layer.project(xs[i], pos + i);
    layer.finish(xs[i], p.gate, layer.attend(p.q, earlier + Entries(layer, xs, pos)[..i + 1]))
  }

  lemma EntriesTail(layer: Layer, xs: seq<Row>, pos: nat)
    requires layer.FullAttention? && xs != []
    ensures Entries(layer, xs, pos)[1..] == Entries(layer, xs[1..], pos + 1)
  {
  }

  /** Writing the first entry moves it from the pending entries to the prefix. */
  lemma PutFirst(kv: seq<Entry>, es: seq<Entry>, pos: nat, i: nat)
    requires pos + |es| <= |kv| && 0 < i <= |es|
    ensures var put := Put(kv, pos, es[0]);
      && put[..pos + 1] + es[1..][..i - 1] == kv[..pos] + es[..i]
      && put[pos + |es|..] == kv[pos + |es|..]
  {
  }

  lemma {:induction false} FullLayerState(layer: Layer, st: LayerState, xs: seq<Row>, pos: nat)
    requires layer.FullAttention? && st.FullState? && pos + |xs| <= |st.kv|
    ensures RunState(layer, st, xs, pos)
         == FullState(st.kv[..pos] + Entries(layer, xs, pos) + st.kv[pos + |xs|..])
    decreases |xs|
  {
    var es := Entries(layer, xs, pos);
    if xs == [] {
      assert st.kv[..pos] + es + st.kv[pos..] == st.kv;
    } else {
      FullLayerState(layer, StepState(layer, st, xs[0], pos), xs[1..], pos + 1);
      EntriesTail(layer, xs, pos);
      PutFirst(st.kv, es, pos, |es|);
      assert es[1..][..|es| - 1] == es[1..] && es[..|es|] == es;
    }
  }

  /** A cached full-attention layer is causal attention over the whole sequence. */
  lemma {:induction false} FullLayerIsCausal(layer: Layer, st: LayerState, xs: seq<Row>, pos: nat, i: nat)
    requires layer.FullAttention? && st.FullState? && pos + |xs| <= |st.kv| && i < |xs|
    ensures RunRows(layer, st, xs, pos)[i] == CausalRow(layer, st.kv[..pos], xs, pos, i)
    decreases i
  {
    var es := Entries(layer, xs, pos);
    PutFirst(st.kv, es, pos, i + 1);
    if i == 0 {
      var keys := Put(st.kv, pos, es[0])[..pos + 1];
      assert keys + es[1..][..0] == keys;
    } else {
      var st1 := StepState(layer, st, xs[0], pos);
      EntriesTail(layer, xs, pos);
      FullLayerIsCausal(layer, st1, xs[1..], pos + 1, i - 1);
      assert RunRows(layer, st, xs, pos)[i] == RunRows(layer, st1, xs[1..], pos + 1)[i - 1];
    }
  }

  /** `es` are the cache's first entries and those that the rows leave, up to row `i`. */
  ghost predicate SeenBy(layer: Layer, kv: seq<Entry>, xs: seq<Row>, pos: nat, i: nat, es: seq<Entry>)
    requires layer.FullAttention? && pos + |xs| <= |kv| && i < |xs|
  {
    && |es| == pos + i + 1 && (forall j :: 0 <= j < pos ==> es[j] == kv[j])
    && forall j :: pos <= j <= pos + i ==> es[j] == layer.project(xs[j - pos], j).entry
  }

  /** Row by row: each is finished from its gate and its query's attention over the entries up to its own. */
  lemma FullRow(layer: Layer, kv: seq<Entry>, xs: seq<Row>, pos: nat, i: nat, es: seq<Entry>)
    requires layer.FullAttention? && pos + |xs| <= |kv| && i < |xs| && SeenBy(layer, kv, xs, pos, i, es)
    ensures var p := layer.project(xs[i], pos + i);
      RunRows(layer, FullState(kv), xs, pos)[i] == layer.finish(xs[i], p.gate, layer.attend(p.q, es))
  {
    FullLayerIsCausal(layer, FullState(kv), xs, pos, i);
    PrefixAndEntries(kv, Entries(layer, xs, pos), pos, i, es);
  }

  lemma PrefixAndEntries(kv: seq<Entry>, entries: seq<Entry>, pos: nat, i: nat, es: seq<Entry>)
    requires pos <= |kv| && i < |entries| && |es| == pos + i + 1 && (forall j :: 0 <= j < pos ==> es[j] == kv[j])
    requires forall j :: pos <= j <= pos + i ==> es[j] == entries[j - pos]
    ensures es == kv[..pos] + entries[..i + 1]
  {
  }

  /** The rows' entries are in the cache afterwards, each at its position, and the others are as before. */
  lemma FullEntries(layer: Layer, kv: seq<Entry>, xs: seq<Row>, pos: nat, j: nat)
    requires layer.FullAttention? && pos + |xs| <= |kv| && j < |kv|
    ensures var st := RunState(layer, FullState(kv), xs, pos);
      && st.FullState? && |st.kv| == |kv|
      && st.kv[j] == if pos <= j < pos + |xs| then layer.project(xs[j - pos], j).entry else kv[j]
  {
    FullLayerState(layer, FullState(kv), xs, pos);
  }

  /** The recurrence over the convolved rows. */
  ghost function Recurrence(layer: Layer, s: Row, xs: seq<Row>, convs: seq<Row>): (r: (Row, seq<Row>))
    requires layer.LinearAttention? && |convs| == |xs|
    ensures |r.1| == |xs|
    decreases |xs|
  {
    if xs == [] then (s, [])
    else
      var step := layer.recur(s, convs[0], layer.gates(xs[0]));
      var rest := Recurrence(layer, step.0, xs[1..], convs[1..]);
      (rest.0, [layer.mix(xs[0], step.1)] + rest.1)
  }

  ghost function RawRows(layer: Layer, xs: seq<Row>): (r: seq<Row>)
    requires layer.LinearAttention?
    ensures |r| == |xs|
  {
    seq(|xs|, i requires 0 <= i < |xs| => layer.qkv(xs[i]))
  }

  function ToWindow(rows: seq<Row>): Window
    requires |rows| == 3
  {
    Window(rows[0], rows[1], rows[2])
  }

  /** A linear layer run token by token is one convolution over the chunk followed by the recurrence over it. */
  lemma {:induction false} LinearLayerIsConvThenRecur(layer: Layer, st: LayerState, xs: seq<Row>, pos: nat)
    requires layer.LinearAttention? && st.LinearState?
    ensures var raw := RawRows(layer, xs);
      var rec := Recurrence(layer, st.s, xs, LinearAttn.ConvOutputs(layer.taps, st.window.Rows(), raw));
      && RunState(layer, st, xs, pos)
         == LinearState(ToWindow(LinearAttn.LastThree(st.window.Rows() + raw)), rec.0)
      && RunRows(layer, st, xs, pos) == rec.1
    decreases |xs|
  {
    var raw, w := RawRows(layer, xs), st.window.Rows();
    if xs == [] {
      assert w + raw == w;
    } else {
      var st1 := StepState(layer, st, xs[0], pos);
      var raw1 := RawRows(layer, xs[1..]);
      LinearLayerIsConvThenRecur(layer, st1, xs[1..], pos + 1);
      assert raw == [raw[0]] + raw1;
      FirstConv(layer, st.window, raw[0], raw1);
    }
  }

  lemma FirstConv(layer: Layer, w: Window, first: Row, rest: seq<Row>)
    requires layer.LinearAttention?
    ensures var convs := LinearAttn.ConvOutputs(layer.taps, w.Rows(), [first] + rest);
      var next := Window(w.w1, w.w2, first).Rows();
      && convs[0] == layer.taps(w.w0, w.w1, w.w2, first)
      && convs[1..] == LinearAttn.ConvOutputs(layer.taps, next, rest)
      && LinearAttn.LastThree(next + rest) == LinearAttn.LastThree(w.Rows() + ([first] + rest))
  {
    LinearAttn.ConvSplits(layer.taps, w.Rows(), [first], rest);
    assert LinearAttn.LastThree(w.Rows() + [first]) == Window(w.w1, w.w2, first).Rows();
  }

  /** `convs` are the convolutions of the rows' projections, after the window; `h` is that history. */
  ghost predicate AreConvs(layer: Layer, w: Window, xs: seq<Row>, raw: seq<Row>, h: seq<Row>, convs: seq<Row>)
    requires layer.LinearAttention?
  {
    && |raw| == |xs| && (forall j :: 0 <= j < |xs| ==> raw[j] == layer.qkv(xs[j]))
    && LinearAttn.AreConvs(layer.taps, [w.w0, w.w1, w.w2], raw, h, convs)
  }

  /** Token `t` takes the state `ss[t]` to `ss[t + 1]` and leaves row `ys[t]`. */
  ghost predicate Recurs(layer: Layer, xs: seq<Row>, convs: seq<Row>, ss: seq<Row>, ys: seq<Row>, t: nat)
    requires layer.LinearAttention? && |convs| == |xs| == |ys| && |ss| == |xs| + 1 && t < |xs|
  {
    var r := layer.recur(ss[t], convs[t], layer.gates(xs[t]));
    ss[t + 1] == r.0 && ys[t] == layer.mix(xs[t], r.1)
  }

  lemma {:induction false} RecurrenceRecurs(layer: Layer, s: Row, xs: seq<Row>, convs: seq<Row>) returns (ss: seq<Row>)
    requires layer.LinearAttention? && |convs| == |xs|
    ensures var r := Recurrence(layer, s, xs, convs);
      && |ss| == |xs| + 1 && ss[0] == s && ss[|xs|] == r.0
      && forall t: nat :: t < |xs| ==> Recurs(layer, xs, convs, ss, r.1, t)
    decreases |xs|
  {
    if xs == [] { return [s]; }
    var step := layer.recur(s, convs[0], layer.gates(xs[0]));
    var rest := RecurrenceRecurs(layer, step.0, xs[1..], convs[1..]);
    ss := [s] + rest;
    var ys, later := Recurrence(layer, s, xs, convs).1, Recurrence(layer, step.0, xs[1..], convs[1..]).1;
    forall t: nat | t < |xs|
      ensures Recurs(layer, xs, convs, ss, ys, t)
    {
      if t > 0 { assert Recurs(layer, xs[1..], convs[1..], rest, later, t - 1); }
    }
  }

  lemma RunIsRecurrence(layer: Layer, w: Window, s: Row, xs: seq<Row>, pos: nat, raw: seq<Row>, h: seq<Row>,
                        convs: seq<Row>)
    requires layer.LinearAttention? && AreConvs(layer, w, xs, raw, h, convs)
    ensures var r := Recurrence(layer, s, xs, convs);
      && RunState(layer, LinearState(w, s), xs, pos) == LinearState(Window(h[|xs|], h[|xs| + 1], h[|xs| + 2]), r.0)
      && RunRows(layer, LinearState(w, s), xs, pos) == r.1
  {
    assert raw == RawRows(layer, xs);
    LinearAttn.ConvAt(layer.taps, w.Rows(), raw, h, convs);
    LinearLayerIsConvThenRecur(layer, LinearState(w, s), xs, pos);
  }

  /** Row by row: the state goes through the recurrence with the convolutions, and the window ends with the last three. */
  lemma LinearRows(layer: Layer, w: Window, s: Row, xs: seq<Row>, pos: nat, raw: seq<Row>, h: seq<Row>,
                   convs: seq<Row>)
      returns (ss: seq<Row>)
    requires layer.LinearAttention? && AreConvs(layer, w, xs, raw, h, convs)
    ensures |ss| == |xs| + 1 && ss[0] == s
    ensures RunState(layer, LinearState(w, s), xs, pos)
         == LinearState(Window(h[|xs|], h[|xs| + 1], h[|xs| + 2]), ss[|xs|])
    ensures var ys := RunRows(layer, LinearState(w, s), xs, pos);
      forall t: nat :: t < |xs| ==> Recurs(layer, xs, convs, ss, ys, t)
  {
    RunIsRecurrence(layer, w, s, xs, pos, raw, h, convs);
    ss := RecurrenceRecurs(layer, s, xs, convs);
  }
}
