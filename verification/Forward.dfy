/**
  The forward pass as the host runs it (src/targets/qwen3_8/forward.cpp): layers over a chunk, chunks over a prompt,
  single decode steps, the draft loop and the batched verification, all mutating one cache.
 */
module Forward {
  import opened Bytes
  import opened Transformer
  import opened KvCache
  import opened Arena
  import opened Drafting
  import opened Rounds
  import LinearAttn
  import Sampling

  // ---------------------------------------------------------------- layers and the cache's slots

  /** How many of the first `l` layers are full-attention layers: `full_idx` on reaching layer `l`. */
  function FullBefore(layers: seq<Layer>, l: nat): (n: nat)
    requires l <= |layers|
    ensures n <= l
  {
    if l == 0 then 0 else FullBefore(layers, l - 1) + (if layers[l - 1].FullAttention? then 1 else 0)
  }

  lemma {:induction false} FullBeforeMonotone(layers: seq<Layer>, l: nat, m: nat)
    requires l <= m <= |layers|
    ensures FullBefore(layers, l) <= FullBefore(layers, m)
    ensures l - FullBefore(layers, l) <= m - FullBefore(layers, m)
  {
    if l < m { FullBeforeMonotone(layers, l, m - 1); }
  }

  /** The cache was built for this model's layers. */
  ghost predicate Fits(model: Model, cache: KVCache)
    reads cache
  {
    && cache.Valid()
    && SlotCounts(model.layers, cache.kv, cache.recurrent)
    && cache.zeroConv == model.zeroConv && cache.zeroState == model.zeroState
  }

  ghost predicate SlotCounts(layers: seq<Layer>, kv: seq<seq<Entry>>, r: Recurrent) {
    && |kv| == FullBefore(layers, |layers|)
    && |r.conv| == |r.states| == |layers| - FullBefore(layers, |layers|)
  }

  /** The state that layer `l` finds in its slot. */
  ghost function StateAt(layers: seq<Layer>, kv: seq<seq<Entry>>, r: Recurrent, l: nat): LayerState
    requires SlotCounts(layers, kv, r) && l < |layers|
  {
    var full := FullBefore(layers, l);
    FullBeforeMonotone(layers, l + 1, |layers|);
    if layers[l].FullAttention? then FullState(kv[full])
    else LinearState(r.conv[l - full], r.states[l - full])
  }

  ghost function StatesOf(layers: seq<Layer>, kv: seq<seq<Entry>>, r: Recurrent): (sts: seq<LayerState>)
    requires SlotCounts(layers, kv, r)
    ensures Matches(layers, sts)
  {
    seq(|layers|, l requires 0 <= l < |layers| => StateAt(layers, kv, r, l))
  }

  ghost function States(model: Model, cache: KVCache): (sts: seq<LayerState>)
    requires Fits(model, cache)
    reads cache
    ensures Matches(model.layers, sts)
  {
    StatesOf(model.layers, cache.kv, cache.recurrent)
  }

  /** Two layers of the same kind never share a slot. */
  lemma SlotsDistinct(layers: seq<Layer>, l: nat, m: nat)
    requires l < m < |layers|
    ensures layers[l].FullAttention? ==> FullBefore(layers, l) < FullBefore(layers, m)
    ensures !layers[l].FullAttention? ==> l - FullBefore(layers, l) < m - FullBefore(layers, m)
  {
    FullBeforeMonotone(layers, l + 1, m);
  }

  lemma SlotInRange(layers: seq<Layer>, l: nat)
    requires l < |layers|
    ensures layers[l].FullAttention? ==> FullBefore(layers, l) < FullBefore(layers, |layers|)
    ensures !layers[l].FullAttention? ==>
      l - FullBefore(layers, l) < |layers| - FullBefore(layers, |layers|)
  {
    FullBeforeMonotone(layers, l + 1, |layers|);
  }

  /** The slots hold exactly these states, layer by layer. */
  ghost predicate Holds(layers: seq<Layer>, kv: seq<seq<Entry>>, r: Recurrent, sts: seq<LayerState>) {
    && SlotCounts(layers, kv, r) && |sts| == |layers|
    && forall l :: 0 <= l < |layers| ==> sts[l] == StateAt(layers, kv, r, l)
  }

  /** Updating one full-attention slot changes that layer's state and no other. */
  lemma FullSlotUpdate(layers: seq<Layer>, kv: seq<seq<Entry>>, r: Recurrent, sts: seq<LayerState>, l: nat,
                       entries: seq<Entry>)
    requires Holds(layers, kv, r, sts) && l < |layers| && layers[l].FullAttention?
    requires FullBefore(layers, l) < |kv|
    ensures Holds(layers, kv[FullBefore(layers, l) := entries], r, sts[l := FullState(entries)])
  {
    var kv' := kv[FullBefore(layers, l) := entries];
    forall m | 0 <= m < |layers| && m != l
      ensures StateAt(layers, kv', r, m) == StateAt(layers, kv, r, m)
    {
      SlotInRange(layers, m);
      if m < l { SlotsDistinct(layers, m, l); } else { SlotsDistinct(layers, l, m); }
    }
  }

  /** Updating one linear slot changes that layer's state and no other. */
  lemma LinearSlotUpdate(layers: seq<Layer>, kv: seq<seq<Entry>>, r: Recurrent, sts: seq<LayerState>, l: nat,
                         w: Window, s: Row)
    requires Holds(layers, kv, r, sts) && l < |layers| && layers[l].LinearAttention?
    requires l - FullBefore(layers, l) < |r.conv|
    ensures var i := l - FullBefore(layers, l);
      Holds(layers, kv, Recurrent(r.conv[i := w], r.states[i := s]), sts[l := LinearState(w, s)])
  {
    var i := l - FullBefore(layers, l);
    var r' := Recurrent(r.conv[i := w], r.states[i := s]);
    forall m | 0 <= m < |layers| && m != l
      ensures StateAt(layers, kv, r', m) == StateAt(layers, kv, r, m)
    {
      SlotInRange(layers, m);
      if m < l { SlotsDistinct(layers, m, l); } else { SlotsDistinct(layers, l, m); }
    }
  }

  // ---------------------------------------------------------------- one layer over a chunk

  method ProjectRows(layer: Layer, xs: seq<Row>, start: nat) returns (projected: seq<Projected>)
    requires layer.FullAttention?
    ensures |projected| == |xs| && forall j :: 0 <= j < |xs| ==> projected[j] == layer.project(xs[j], start + j)
  {
    projected := [];
    for i := 0 to |xs|
      invariant |projected| == i && forall j :: 0 <= j < i ==> projected[j] == layer.project(xs[j], start + j)
    {
      projected := projected + [layer.project(xs[i], start + i)];
    }
  }

  /** `attention_write_kv_cache`, at the grain of cache entries. */
  method WriteEntries(kv: seq<Entry>, projected: seq<Projected>, start: nat) returns (kv': seq<Entry>)
    requires start + |projected| <= |kv|
    ensures |kv'| == |kv|
    ensures forall i :: 0 <= i < |kv| ==>
      kv'[i] == if start <= i < start + |projected| then projected[i - start].entry else kv[i]
  {
    kv' := kv;
    for i := 0 to |projected|
      invariant |kv'| == |kv|
      invariant forall j :: 0 <= j < |kv| ==> kv'[j] == if start <= j < start + i then projected[j - start].entry else kv[j]
    {
      kv' := Put(kv', start + i, projected[i].entry);
    }
  }

  /** Cached causal attention and the rest of the layer, one row after another. */
  method AttendRows(layer: Layer, kv: seq<Entry>, projected: seq<Projected>, xs: seq<Row>, start: nat)
      returns (ys: seq<Row>)
    requires layer.FullAttention? && |projected| == |xs|
    ensures |ys| == |xs|
    ensures forall j :: 0 <= j < |xs| ==>
      ys[j] == layer.finish(xs[j], projected[j].gate, layer.attend(projected[j].q, Keys(kv, start + j + 1)))
  {
    ys := [];
    for i := 0 to |xs|
      invariant |ys| == i
      invariant forall j :: 0 <= j < i ==>
        ys[j] == layer.finish(xs[j], projected[j].gate, layer.attend(projected[j].q, Keys(kv, start + j + 1)))
    {
      var p := projected[i];
      ys := ys + [layer.finish(xs[i], p.gate, layer.attend(p.q, Keys(kv, start + i + 1)))];
    }
  }

  /** The prefix a row attends over, once all the chunk's entries are written. */
  lemma WrittenKeys(layer: Layer, kv: seq<Entry>, kv': seq<Entry>, xs: seq<Row>, start: nat, i: nat)
    requires layer.FullAttention? && start + |xs| <= |kv| && i < |xs|
    requires kv' == kv[..start] + Entries(layer, xs, start) + kv[start + |xs|..]
    ensures Keys(kv', start + i + 1) == kv[..start] + Entries(layer, xs, start)[..i + 1]
  {
  }

  /** Full attention: project every row, write all the entries, then attend causally over the cache. */
  method FullAttentionChunk(layer: Layer, kv: seq<Entry>, xs: seq<Row>, start: nat)
      returns (kv': seq<Entry>, ys: seq<Row>)
    requires layer.FullAttention? && start + |xs| <= |kv|
    ensures FullState(kv') == RunState(layer, FullState(kv), xs, start)
    ensures ys == RunRows(layer, FullState(kv), xs, start)
  {
    var projected := ProjectRows(layer, xs, start);
    kv' := WriteEntries(kv, projected, start);
    assert kv' == kv[..start] + Entries(layer, xs, start) + kv[start + |xs|..];
    FullLayerState(layer, FullState(kv), xs, start);
    ys := AttendRows(layer, kv', projected, xs, start);
    forall j | 0 <= j < |xs|
      ensures ys[j] == RunRows(layer, FullState(kv), xs, start)[j]
    {
      FullLayerIsCausal(layer, FullState(kv), xs, start, j);
      WrittenKeys(layer, kv, kv', xs, start, j);
    }
  }

  method RawProjection(layer: Layer, xs: seq<Row>) returns (raw: seq<Row>)
    requires layer.LinearAttention?
    ensures raw == RawRows(layer, xs)
  {
    raw := [];
    for i := 0 to |xs|
      invariant |raw| == i && forall j :: 0 <= j < i ==> raw[j] == layer.qkv(xs[j])
    {
      raw := raw + [layer.qkv(xs[i])];
    }
  }

  /** The convolution kernel over the chunk's projected rows. */
  method ConvolveChunk(layer: Layer, window: Window, xs: seq<Row>) returns (window': Window, convs: seq<Row>)
    requires layer.LinearAttention?
    ensures convs == LinearAttn.ConvOutputs(layer.taps, window.Rows(), RawRows(layer, xs))
    ensures window' == ToWindow(LinearAttn.LastThree(window.Rows() + RawRows(layer, xs)))
  {
    var raw := RawProjection(layer, xs);
    var slots := new Row[3](i requires 0 <= i < 3 => window.Rows()[i]);
    assert slots[..] == window.Rows();
    convs := LinearAttn.CausalConv1d(layer.taps, raw, slots);
    window' := Window(slots[0], slots[1], slots[2]);
    assert window' == ToWindow(slots[..]);
  }

  /** The recurrent kernel's time loop, with its optional zeroing of the state. */
  method RecurrentLoop(layer: Layer, s: Row, xs: seq<Row>, convs: seq<Row>, zero: bool, zeroState: Row)
      returns (s': Row, ys: seq<Row>)
    requires layer.LinearAttention? && |convs| == |xs|
    ensures var r := Recurrence(layer, if zero then zeroState else s, xs, convs);
      s' == r.0 && ys == r.1
  {
    s' := if zero then zeroState else s;
    ghost var all := Recurrence(layer, s', xs, convs);
    ys := [];
    assert xs[0..] == xs && convs[0..] == convs;
    for t := 0 to |xs|
      invariant all.0 == Recurrence(layer, s', xs[t..], convs[t..]).0
      invariant all.1 == ys + Recurrence(layer, s', xs[t..], convs[t..]).1
    {
      assert xs[t..][0] == xs[t] && xs[t..][1..] == xs[t + 1..];
      assert convs[t..][0] == convs[t] && convs[t..][1..] == convs[t + 1..];
      var step := layer.recur(s', convs[t], layer.gates(xs[t]));
      s' := step.0;
      ys := ys + [layer.mix(xs[t], step.1)];
    }
    assert all.1 == ys;
  }

  /** Linear attention: one convolution kernel over the chunk, then the recurrence over its outputs. */
  method LinearAttentionChunk(layer: Layer, window: Window, s: Row, xs: seq<Row>, zero: bool, zeroState: Row,
                              ghost pos: nat)
      returns (window': Window, s': Row, ys: seq<Row>)
    requires layer.LinearAttention?
    ensures var st := LinearState(window, if zero then zeroState else s);
      LinearState(window', s') == RunState(layer, st, xs, pos) && ys == RunRows(layer, st, xs, pos)
  {
    var convs;
    window', convs := ConvolveChunk(layer, window, xs);
    LinearLayerIsConvThenRecur(layer, LinearState(window, if zero then zeroState else s), xs, pos);
    s', ys := RecurrentLoop(layer, s, xs, convs, zero, zeroState);
  }

  // ---------------------------------------------------------------- all layers over a chunk

  /** The recurrent kernel's `zero_state` flag. The convolution window is not zeroed. */
  ghost function Zeroed(zero: bool, zeroState: Row, st: LayerState): LayerState {
    if zero && st.LinearState? then LinearState(st.window, zeroState) else st
  }

  ghost function AllZeroed(zero: bool, zeroState: Row, sts: seq<LayerState>): (r: seq<LayerState>)
    ensures |r| == |sts| && forall l :: 0 <= l < |sts| ==> r[l] == Zeroed(zero, zeroState, sts[l])
  {
    seq(|sts|, l requires 0 <= l < |sts| => Zeroed(zero, zeroState, sts[l]))
  }

  ghost function Embedded(model: Model, tokens: seq<int>): (r: seq<Row>)
    ensures |r| == |tokens| && forall i :: 0 <= i < |tokens| ==> r[i] == model.embed(tokens[i])
  {
    seq(|tokens|, i requires 0 <= i < |tokens| => model.embed(tokens[i]))
  }

  /** Every key/value buffer holds `maxLen` entries. */
  ghost predicate Buffers(kv: seq<seq<Entry>>, maxLen: nat) {
    forall i :: 0 <= i < |kv| ==> |kv[i]| == maxLen
  }

  method ForwardFull(layers: seq<Layer>, l: nat, kv: seq<seq<Entry>>, fullIdx: nat, xs: seq<Row>, start: nat,
                     ghost r: Recurrent, ghost maxLen: nat, ghost sts: seq<LayerState>)
      returns (kv': seq<seq<Entry>>, ys: seq<Row>)
    requires Holds(layers, kv, r, sts) && l < |layers| && layers[l].FullAttention?
    requires Buffers(kv, maxLen) && start + |xs| <= maxLen && fullIdx == FullBefore(layers, l)
    ensures Buffers(kv', maxLen)
    ensures ys == RunRows(layers[l], sts[l], xs, start)
    ensures Holds(layers, kv', r, sts[l := RunState(layers[l], sts[l], xs, start)])
  {
    SlotInRange(layers, l);
    var entries: seq<Entry>;
    entries, ys := FullAttentionChunk(layers[l], kv[fullIdx], xs, start);
    RoomRemains(layers[l], FullState(kv[fullIdx]), xs, start);
    FullSlotUpdate(layers, kv, r, sts, l, entries);
    kv' := kv[fullIdx := entries];
  }

  method ForwardLinear(layers: seq<Layer>, l: nat, r: Recurrent, linearIdx: nat, xs: seq<Row>, zero: bool,
                       zeroState: Row, ghost start: nat, ghost kv: seq<seq<Entry>>, ghost sts: seq<LayerState>)
      returns (r': Recurrent, ys: seq<Row>)
    requires Holds(layers, kv, r, sts) && l < |layers| && layers[l].LinearAttention?
    requires linearIdx == l - FullBefore(layers, l)
    ensures var st := Zeroed(zero, zeroState, sts[l]);
      ys == RunRows(layers[l], st, xs, start) && Holds(layers, kv, r', sts[l := RunState(layers[l], st, xs, start)])
  {
    SlotInRange(layers, l);
    var w, s;
    w, s, ys := LinearAttentionChunk(layers[l], r.conv[linearIdx], r.states[linearIdx], xs, zero, zeroState, start);
    LinearSlotUpdate(layers, kv, r, sts, l, w, s);
    r' := Recurrent(r.conv[linearIdx := w], r.states[linearIdx := s]);
  }

  /** `forward_layer` for layer `l`: reads and overwrites that layer's slot, and moves the slot counters on. */
  method ForwardLayer(model: Model, l: nat, kv: seq<seq<Entry>>, r: Recurrent, fullIdx: nat, linearIdx: nat,
                      xs: seq<Row>, start: nat, zero: bool, ghost maxLen: nat, ghost sts: seq<LayerState>)
      returns (kv': seq<seq<Entry>>, r': Recurrent, fullIdx': nat, linearIdx': nat, ys: seq<Row>)
    requires Holds(model.layers, kv, r, sts) && l < |model.layers| && Buffers(kv, maxLen) && start + |xs| <= maxLen
    requires fullIdx == FullBefore(model.layers, l) && linearIdx == l - fullIdx
    ensures Buffers(kv', maxLen)
    ensures fullIdx' == FullBefore(model.layers, l + 1) && linearIdx' == l + 1 - fullIdx'
    ensures var st := Zeroed(zero, model.zeroState, sts[l]);
      && ys == RunRows(model.layers[l], st, xs, start)
      && Holds(model.layers, kv', r', sts[l := RunState(model.layers[l], st, xs, start)])
  {
    if model.layers[l].FullAttention? {
      kv', ys := ForwardFull(model.layers, l, kv, fullIdx, xs, start, r, maxLen, sts);
      r', fullIdx', linearIdx' := r, fullIdx + 1, linearIdx;
    } else {
      r', ys := ForwardLinear(model.layers, l, r, linearIdx, xs, zero, model.zeroState, start, kv, sts);
      kv', fullIdx', linearIdx' := kv, fullIdx, linearIdx + 1;
    }
  }

  /** The layer loop: every layer over the whole chunk, on the cache's slots. */
  method RunAllLayers(model: Model, kv: seq<seq<Entry>>, r: Recurrent, rows: seq<Row>, start: nat, zero: bool,
                      ghost maxLen: nat, ghost before: seq<LayerState>, ghost sts: seq<LayerState>)
      returns (kv': seq<seq<Entry>>, r': Recurrent, ys: seq<Row>)
    requires Holds(model.layers, kv, r, before) && Buffers(kv, maxLen) && start + |rows| <= maxLen
    requires |sts| == |before| && forall l :: 0 <= l < |sts| ==> sts[l] == Zeroed(zero, model.zeroState, before[l])
    ensures Buffers(kv', maxLen)
    ensures Holds(model.layers, kv', r', RunLayersState(model.layers, sts, rows, start))
    ensures ys == RunLayersRows(model.layers, sts, rows, start)
  {
    ys := rows;
    var fullIdx, linearIdx := 0, 0;
    kv', r' := kv, r;
    ghost var now := before;
    for l := 0 to |model.layers|
      invariant Holds(model.layers, kv', r', now) && Buffers(kv', maxLen)
      invariant fullIdx == FullBefore(model.layers, l) && linearIdx == l - fullIdx
      invariant ys == RowsAt(model.layers, sts, rows, start, l)
      invariant now[..l] == StatesBelow(model.layers, sts, rows, start, l)
      invariant forall j :: l <= j < |now| ==> now[j] == before[j]
    {
      ghost var st := RunState(model.layers[l], sts[l], ys, start);
      kv', r', fullIdx, linearIdx, ys :=
        ForwardLayer(model, l, kv', r', fullIdx, linearIdx, ys, start, zero, maxLen, now);
      UpdateGrows(now, l, st);
      now := now[l := st];
    }
    assert now == now[..|model.layers|];
  }

  lemma UpdateGrows(now: seq<LayerState>, l: nat, st: LayerState)
    requires l < |now|
    ensures now[l := st][..l + 1] == now[..l] + [st]
  {
  }

  method ForwardLayers(model: Model, cache: KVCache, rows: seq<Row>, start: nat, zero: bool) returns (ys: seq<Row>)
    requires Fits(model, cache) && start + |rows| <= cache.maxLen
    modifies cache`kv, cache`recurrent
    ensures Fits(model, cache)
    ensures var sts := AllZeroed(zero, model.zeroState, old(States(model, cache)));
      && States(model, cache) == RunLayersState(model.layers, sts, rows, start)
      && ys == RunLayersRows(model.layers, sts, rows, start)
  {
    var kv, r;
    ghost var before := States(model, cache);
    ghost var sts := AllZeroed(zero, model.zeroState, before);
    kv, r, ys := RunAllLayers(model, cache.kv, cache.recurrent, rows, start, zero, cache.maxLen, before, sts);
    cache.kv, cache.recurrent := kv, r;
    assert States(model, cache) == RunLayersState(model.layers, sts, rows, start);
  }

  // ---------------------------------------------------------------- the stateless reference

  ghost function ClearedState(model: Model, st: LayerState): LayerState {
    if st.FullState? then st
    else LinearState(Window(model.zeroConv, model.zeroConv, model.zeroConv), model.zeroState)
  }

  /** What `KVCache::clear` leaves: zero recurrent state, and whatever the key and value buffers held. */
  ghost function Cleared(model: Model, sts: seq<LayerState>): (r: seq<LayerState>)
    ensures |r| == |sts| && forall l :: 0 <= l < |sts| ==> r[l] == ClearedState(model, sts[l])
  {
    seq(|sts|, l requires 0 <= l < |sts| => ClearedState(model, sts[l]))
  }

  ghost function BlankState(model: Model, layer: Layer, n: nat): LayerState {
    if layer.FullAttention? then FullState(seq(n, _ => Entry([], [])))
    else LinearState(Window(model.zeroConv, model.zeroConv, model.zeroConv), model.zeroState)
  }

  /** A cache nobody has used, with room for `n` tokens. */
  ghost function Blank(model: Model, n: nat): (r: seq<LayerState>)
    ensures |r| == |model.layers| && forall l :: 0 <= l < |r| ==> r[l] == BlankState(model, model.layers[l], n)
  {
    seq(|model.layers|, l requires 0 <= l < |model.layers| => BlankState(model, model.layers[l], n))
  }

  /** The states one pass over all the tokens leaves. */
  ghost function Prefilled(model: Model, sts: seq<LayerState>, tokens: seq<int>): (r: seq<LayerState>)
    requires |sts| == |model.layers|
    ensures |r| == |model.layers|
  {
    RunLayersState(model.layers, sts, Embedded(model, tokens), 0)
  }

  ghost function LastLogits(model: Model, sts: seq<LayerState>, tokens: seq<int>): seq<real>
    requires |sts| == |model.layers| && tokens != []
  {
    model.head(RunLayersRows(model.layers, sts, Embedded(model, tokens), 0)[|tokens| - 1])
  }

  /** The greedy next token: one pass over the whole sequence on an unused cache, and the argmax of the last logits. */
  ghost function NextToken(model: Model, tokens: seq<int>): int
    requires tokens != []
  {
    Sampling.Argmax(LastLogits(model, Blank(model, |tokens|), tokens))
  }

  /**
    The greedy next token, token by token: embed each, take it front to back through the layers of an unused cache, and let
    the head judge the last one's row.
   */
  lemma NextTokenIs(model: Model, tokens: seq<int>, xs: seq<Row>)
    requires |xs| == |tokens| > 0 && forall i :: 0 <= i < |tokens| ==> xs[i] == model.embed(tokens[i])
    ensures var row := Pass(model.layers, Blank(model, |tokens|), xs, 0).0[|tokens| - 1];
      NextToken(model, tokens) == Sampling.Argmax(model.head(row))
  {
    assert xs == Embedded(model, tokens);
    RunIsPass(model.layers, Blank(model, |tokens|), xs, 0);
  }

  /** The cache's history is that of these tokens. */
  ghost predicate Tracks(model: Model, sts: seq<LayerState>, tokens: seq<int>) {
    && Matches(model.layers, sts) && HasRoom(sts, |tokens|)
    && AllSameBelow(sts, Prefilled(model, Blank(model, |tokens|), tokens), |tokens|)
  }

  lemma EmbeddedAppend(model: Model, a: seq<int>, b: seq<int>)
    ensures Embedded(model, a + b) == Embedded(model, a) + Embedded(model, b)
  {
  }

  /** A pass on a cleared cache does not see what was in it before. */
  lemma PrefillIsFresh(model: Model, sts: seq<LayerState>, tokens: seq<int>)
    requires Matches(model.layers, sts) && HasRoom(sts, |tokens|) && tokens != []
    ensures Tracks(model, Prefilled(model, Cleared(model, sts), tokens), tokens)
    ensures LastLogits(model, Cleared(model, sts), tokens) == LastLogits(model, Blank(model, |tokens|), tokens)
  {
    var cleared, blank := Cleared(model, sts), Blank(model, |tokens|);
    assert AllSameBelow(cleared, blank, 0);
    LayersIgnoreStale(model.layers, cleared, blank, Embedded(model, tokens), 0);
    AllRoomRemains(model.layers, cleared, Embedded(model, tokens), 0, |tokens|);
  }

  /** A larger unused cache gives the same history. */
  lemma BlankRoomIrrelevant(model: Model, tokens: seq<int>, n: nat)
    requires |tokens| <= n
    ensures AllSameBelow(Prefilled(model, Blank(model, |tokens|), tokens), Prefilled(model, Blank(model, n), tokens), |tokens|)
  {
    var a, b := Blank(model, |tokens|), Blank(model, n);
    assert AllSameBelow(a, b, 0);
    LayersIgnoreStale(model.layers, a, b, Embedded(model, tokens), 0);
  }

  lemma SameBelowTransitive(a: seq<LayerState>, b: seq<LayerState>, c: seq<LayerState>, n: nat)
    requires AllSameBelow(a, b, n) && AllSameBelow(b, c, n)
    ensures AllSameBelow(a, c, n)
  {
    forall l | 0 <= l < |a|
      ensures SameBelow(a[l], c[l], n)
    {
      assert SameBelow(a[l], b[l], n) && SameBelow(b[l], c[l], n);
    }
  }

  /**
    Decoding one token on a cache that tracks `tokens` leaves it tracking `tokens + [t]`, and its logits are those of a
    single pass over `tokens + [t]` on an unused cache.
   */
  lemma DecodeTracks(model: Model, sts: seq<LayerState>, tokens: seq<int>, t: int)
    requires Tracks(model, sts, tokens) && HasRoom(sts, |tokens| + 1)
    ensures var x := [model.embed(t)];
      && Tracks(model, RunLayersState(model.layers, sts, x, |tokens|), tokens + [t])
      && model.head(RunLayersRows(model.layers, sts, x, |tokens|)[0])
         == LastLogits(model, Blank(model, |tokens| + 1), tokens + [t])
  {
    var x, n := [model.embed(t)], |tokens|;
    var blank := Blank(model, n + 1);
    var mid := Prefilled(model, blank, tokens);
    BlankRoomIrrelevant(model, tokens, n + 1);
    SameBelowTransitive(sts, Prefilled(model, Blank(model, n), tokens), mid, n);
    AllRoomRemains(model.layers, blank, Embedded(model, tokens), 0, n + 1);
    LayersIgnoreStale(model.layers, sts, mid, x, n);
    AllRoomRemains(model.layers, sts, x, n, n + 1);
    OneMoreToken(model, tokens, t, x, blank, mid);
  }

  /** A pass over one more token is a pass over that token behind the others. */
  lemma OneMoreToken(model: Model, tokens: seq<int>, t: int, x: seq<Row>, blank: seq<LayerState>, mid: seq<LayerState>)
    requires x == [model.embed(t)] && blank == Blank(model, |tokens| + 1) && mid == Prefilled(model, blank, tokens)
    ensures RunLayersState(model.layers, mid, x, |tokens|) == Prefilled(model, blank, tokens + [t])
    ensures model.head(RunLayersRows(model.layers, mid, x, |tokens|)[0]) == LastLogits(model, blank, tokens + [t])
  {
    EmbeddedAppend(model, tokens, [t]);
    assert Embedded(model, [t]) == x;
    ChunksCompose(model.layers, blank, Embedded(model, tokens), x, 0);
  }

  // ---------------------------------------------------------------- chunks, prompts and single steps

  method EmbedTokens(model: Model, tokens: seq<int>) returns (rows: seq<Row>)
    ensures rows == Embedded(model, tokens)
  {
    rows := [];
    for i := 0 to |tokens|
      invariant |rows| == i && forall j :: 0 <= j < i ==> rows[j] == model.embed(tokens[j])
    {
      rows := rows + [model.embed(tokens[i])];
    }
  }

  /** `forward_chunk`: out-of-range chunks do nothing; otherwise all layers run, and the last row's logits if wanted. */
  method ForwardChunk(model: Model, cache: KVCache, tokens: seq<int>, start: nat, zero: bool, wantLogits: bool)
      returns (logits: Option<seq<real>>)
    requires Fits(model, cache)
    modifies cache`kv, cache`recurrent
    ensures Fits(model, cache)
    ensures tokens == [] || start + |tokens| > cache.maxLen ==>
      logits == None && cache.kv == old(cache.kv) && cache.recurrent == old(cache.recurrent)
    ensures tokens != [] && start + |tokens| <= cache.maxLen ==>
      var sts := AllZeroed(zero, model.zeroState, old(States(model, cache)));
      var rows := RunLayersRows(model.layers, sts, Embedded(model, tokens), start);
      && States(model, cache) == RunLayersState(model.layers, sts, Embedded(model, tokens), start)
      && logits == if wantLogits then Some(model.head(rows[|tokens| - 1])) else None
  {
    if tokens == [] { return None; }
    if start + |tokens| > cache.maxLen { return None; }
    var rows := EmbedTokens(model, tokens);
    var ys := ForwardLayers(model, cache, rows, start, zero);
    logits := if wantLogits then Some(model.head(ys[|tokens| - 1])) else None;
  }

  datatype PrefillOutcome = Token(id: int) | ContextLengthExceeded | BufferRefused

  /** The bytes of one row of logits. */
  function RowBytes(model: Model): nat { model.vocabSize * 4 }

  predicate InVocab(model: Model, t: int) {
    0 <= t < model.vocabSize
  }

  /** One step of the chunk loop: from the history of `done` to that of `done + next`. */
  lemma ChunkExtends(model: Model, sts: seq<LayerState>, done: seq<int>, next: seq<int>)
    requires |sts| == |model.layers| && next != []
    ensures var mid := Prefilled(model, sts, done);
      var rows := RunLayersRows(model.layers, mid, Embedded(model, next), |done|);
      && Prefilled(model, sts, done + next) == RunLayersState(model.layers, mid, Embedded(model, next), |done|)
      && LastLogits(model, sts, done + next) == model.head(rows[|next| - 1])
  {
    EmbeddedAppend(model, done, next);
    ChunksCompose(model.layers, sts, Embedded(model, done), Embedded(model, next), 0);
  }

  /** One chunk of a prompt whose first tokens `done` the cache already holds. */
  method PrefillChunk(model: Model, cache: KVCache, next: seq<int>, startPos: nat, zeroLinear: bool, isLast: bool,
                      ghost sts: seq<LayerState>, ghost done: seq<int>)
      returns (logits: Option<seq<real>>)
    requires Fits(model, cache) && next != [] && startPos == |done| && startPos + |next| <= cache.maxLen
    requires |sts| == |model.layers| && States(model, cache) == Prefilled(model, sts, done)
    requires zeroLinear ==> AllZeroed(true, model.zeroState, States(model, cache)) == States(model, cache)
    modifies cache`kv, cache`recurrent
    ensures Fits(model, cache) && States(model, cache) == Prefilled(model, sts, done + next)
    ensures isLast ==> logits == Some(LastLogits(model, sts, done + next))
  {
    assert AllZeroed(false, model.zeroState, States(model, cache)) == States(model, cache);
    ChunkExtends(model, sts, done, next);
    logits := ForwardChunk(model, cache, next, startPos, zeroLinear, isLast);
  }

  /** The chunk loop of `prefill_prompt`, on a cleared cache: whatever the chunk size, the result of one pass. */
  method PrefillChunks(model: Model, cache: KVCache, prompt: seq<int>, chunkSize: nat, ghost sts: seq<LayerState>)
      returns (logits: seq<real>)
    requires Fits(model, cache) && 0 < |prompt| <= cache.maxLen && chunkSize > 0
    requires States(model, cache) == sts && AllZeroed(true, model.zeroState, sts) == sts
    modifies cache`kv, cache`recurrent
    ensures Fits(model, cache) && States(model, cache) == Prefilled(model, sts, prompt)
    ensures logits == LastLogits(model, sts, prompt)
  {
    var offset, startPos := 0, 0;
    logits := [];
    ghost var done: seq<int> := [];
    NothingPrefilled(model, sts);
    while offset < |prompt|
      invariant 0 <= offset <= |prompt| && startPos == offset
      invariant done == prompt[..offset]
      invariant Fits(model, cache)
      invariant States(model, cache) == Prefilled(model, sts, done)
      invariant offset == |prompt| ==> logits == LastLogits(model, sts, done)
    {
      var curChunk := if chunkSize < |prompt| - offset then chunkSize else |prompt| - offset;
      var isLast := offset + curChunk == |prompt|;
      var next := prompt[offset..offset + curChunk];
      PromptGrows(prompt, offset, curChunk);
      var out := PrefillChunk(model, cache, next, startPos, offset == 0, isLast, sts, done);
      if isLast {
        logits := out.value;
      }
      done := done + next;
      startPos := startPos + curChunk;
      offset := offset + curChunk;
    }
    assert done == prompt;
  }

  lemma PromptGrows(prompt: seq<int>, offset: nat, n: nat)
    requires offset + n <= |prompt|
    ensures prompt[..offset] + prompt[offset..offset + n] == prompt[..offset + n]
  {
  }

  lemma NothingPrefilled(model: Model, sts: seq<LayerState>)
    requires |sts| == |model.layers|
    ensures Prefilled(model, sts, []) == sts
  {
    NothingRunsBelow(model.layers, sts, 0, |model.layers|);
    assert sts[..|model.layers|] == sts;
    assert Embedded(model, []) == [];
  }

  /** Clearing the cache clears every layer's state. */
  lemma ClearingClears(model: Model, kv: seq<seq<Entry>>, r: Recurrent, r': Recurrent)
    requires SlotCounts(model.layers, kv, r) && SlotCounts(model.layers, kv, r')
    requires forall i :: 0 <= i < |r'.conv| ==>
      r'.conv[i] == Window(model.zeroConv, model.zeroConv, model.zeroConv) && r'.states[i] == model.zeroState
    ensures StatesOf(model.layers, kv, r') == Cleared(model, StatesOf(model.layers, kv, r))
  {
    forall l | 0 <= l < |model.layers|
      ensures StateAt(model.layers, kv, r', l) == ClearedState(model, StateAt(model.layers, kv, r, l))
    {
      SlotInRange(model.layers, l);
    }
  }

  /**
    `prefill_prompt` without images. The chunk size appears nowhere in what it promises: the cache ends as one pass over
    the whole prompt would leave it, and the token is the stateless reference's. A cache that is already cleared when the
    arena refuses the logits buffer stays cleared.
   */
  method PrefillPrompt(model: Model, cache: KVCache, arena: DeviceArena, prompt: seq<int>, chunkSize: nat)
      returns (outcome: PrefillOutcome)
    requires Fits(model, cache)
    modifies cache, arena
    ensures Fits(model, cache)
    ensures outcome.ContextLengthExceeded? <==> |prompt| > cache.maxLen
    ensures outcome.BufferRefused? <==>
      Prefillable(model, prompt, cache.maxLen) && !old(arena.Grants(RowBytes(model)))
    ensures !Prefillable(model, prompt, cache.maxLen) ==>
      && (|prompt| <= cache.maxLen ==> outcome == Token(if prompt == [] then 0 else -1))
      && cache.len == old(cache.len) && States(model, cache) == old(States(model, cache))
      && arena.persistent == old(arena.persistent)
    ensures outcome.BufferRefused? ==>
      cache.len == 0 && !cache.hasCheckpoint && States(model, cache) == Cleared(model, old(States(model, cache)))
      && arena.persistent == old(arena.persistent)
    ensures Prefillable(model, prompt, cache.maxLen) && !outcome.BufferRefused? ==>
      && outcome == Token(NextToken(model, prompt))
      && cache.len == |prompt| && !cache.hasCheckpoint
      && States(model, cache) == Prefilled(model, Cleared(model, old(States(model, cache))), prompt)
      && Tracks(model, States(model, cache), prompt)
      && arena.persistent == if old(arena.persistent) == None then Some(RowBytes(model)) else old(arena.persistent)
  {
    if prompt == [] { return Token(0); }
    if |prompt| > cache.maxLen { return ContextLengthExceeded; }
    for i := 0 to |prompt|
      invariant forall j :: 0 <= j < i ==> InVocab(model, prompt[j])
      invariant cache.len == old(cache.len) && Fits(model, cache) && States(model, cache) == old(States(model, cache))
      invariant arena.persistent == old(arena.persistent)
    {
      if !InVocab(model, prompt[i]) { return Token(-1); }
    }
    var chunk := if chunkSize == 0 then 512 else chunkSize;
    ClearCache(model, cache);
    var ok := arena.PersistentBuffer(RowBytes(model));
    if !ok { return BufferRefused; }
    var logits := PrefillCleared(model, cache, prompt, chunk, old(States(model, cache)));
    return Token(Sampling.Argmax(logits));
  }

  /** The prompts that prefill runs: not empty, short enough, and all in the vocabulary. */
  predicate Prefillable(model: Model, prompt: seq<int>, maxLen: nat) {
    0 < |prompt| <= maxLen && forall i :: 0 <= i < |prompt| ==> InVocab(model, prompt[i])
  }

  method ClearCache(model: Model, cache: KVCache)
    requires Fits(model, cache)
    modifies cache
    ensures Fits(model, cache) && cache.len == 0 && !cache.hasCheckpoint
    ensures States(model, cache) == Cleared(model, old(States(model, cache)))
  {
    ghost var r := cache.recurrent;
    cache.Clear();
    ClearingClears(model, cache.kv, r, cache.recurrent);
  }

  method PrefillCleared(model: Model, cache: KVCache, prompt: seq<int>, chunk: nat, ghost before: seq<LayerState>)
      returns (logits: seq<real>)
    requires Fits(model, cache) && 0 < |prompt| <= cache.maxLen && chunk > 0 && !cache.hasCheckpoint
    requires Matches(model.layers, before) && States(model, cache) == Cleared(model, before)
    modifies cache
    ensures Fits(model, cache) && cache.len == |prompt| && !cache.hasCheckpoint
    ensures States(model, cache) == Prefilled(model, Cleared(model, before), prompt)
    ensures Tracks(model, States(model, cache), prompt)
    ensures logits == LastLogits(model, Blank(model, |prompt|), prompt)
  {
    RoomInCache(model, cache, |prompt|);
    ghost var sts := Cleared(model, before);
    assert AllZeroed(true, model.zeroState, sts) == sts;
    logits := PrefillChunks(model, cache, prompt, chunk, sts);
    cache.SetSeqLen(|prompt|);
    ClearedRoom(model, before, |prompt|);
    PrefillIsFresh(model, before, prompt);
  }

  lemma ClearedRoom(model: Model, sts: seq<LayerState>, n: nat)
    requires HasRoom(Cleared(model, sts), n)
    ensures HasRoom(sts, n)
  {
    forall l | 0 <= l < |sts|
      ensures Room(sts[l], n)
    {
      assert Cleared(model, sts)[l] == ClearedState(model, sts[l]) && Room(Cleared(model, sts)[l], n);
    }
  }

  lemma RoomInCache(model: Model, cache: KVCache, n: nat)
    requires Fits(model, cache) && n <= cache.maxLen
    ensures HasRoom(States(model, cache), n)
  {
    forall l | 0 <= l < |model.layers| && model.layers[l].FullAttention?
      ensures |StateAt(model.layers, cache.kv, cache.recurrent, l).kv| == cache.maxLen
    {
      SlotInRange(model.layers, l);
    }
  }

  /** `decode_step`: one token at the current length, or -1 when the cache is full or the token is not in the vocabulary. */
  method DecodeStep(model: Model, cache: KVCache, token: int) returns (next: int)
    requires Fits(model, cache)
    modifies cache`kv, cache`recurrent, cache`len
    ensures Fits(model, cache)
    ensures old(cache.len) >= cache.maxLen || !InVocab(model, token) ==>
      next == -1 && cache.len == old(cache.len) && States(model, cache) == old(States(model, cache))
    ensures old(cache.len) < cache.maxLen && InVocab(model, token) ==>
      var x := [model.embed(token)];
      var sts := old(States(model, cache));
      && cache.len == old(cache.len) + 1
      && States(model, cache) == RunLayersState(model.layers, sts, x, old(cache.len))
      && next == Sampling.Argmax(model.head(RunLayersRows(model.layers, sts, x, old(cache.len))[0]))
  {
    if cache.len >= cache.maxLen { return -1; }
    if !InVocab(model, token) { return -1; }
    ghost var sts := States(model, cache);
    assert AllZeroed(false, model.zeroState, sts) == sts;
    assert Embedded(model, [token]) == [model.embed(token)];
    var logits := ForwardChunk(model, cache, [token], cache.len, false, true);
    var ok := cache.Advance(1);
    if !ok { return -1; }
    return Sampling.Argmax(logits.value);
  }

  /** Logit rows have one entry per vocabulary word, so their argmax is a word. */
  ghost predicate HeadCoversVocab(model: Model) {
    forall row :: |model.head(row)| == model.vocabSize
  }

  lemma ArgmaxInVocab(model: Model, row: Row)
    requires HeadCoversVocab(model) && model.vocabSize > 0
    ensures InVocab(model, Sampling.Argmax(model.head(row)))
  {
    Sampling.ArgmaxIsMaximal(model.head(row));
  }

  /** One token fed at `pos` takes the layers from `before` to `after`, and its logits call for `next`. */
  ghost predicate Steps(model: Model, before: seq<LayerState>, t: int, pos: nat, next: int, after: seq<LayerState>) {
    && |before| == |model.layers|
    && after == RunLayersState(model.layers, before, [model.embed(t)], pos)
    && next == Sampling.Argmax(model.head(RunLayersRows(model.layers, before, [model.embed(t)], pos)[0]))
  }

  ghost function StepOf(model: Model): Step<seq<LayerState>> {
    (before, t, pos: nat, next, after) => Steps(model, before, t, pos, next, after)
  }

  lemma StepTracks(model: Model, before: seq<LayerState>, history: seq<int>, t: int, next: int, after: seq<LayerState>,
                   room: nat)
    requires Tracks(model, before, history) && HasRoom(before, room) && |history| < room
    requires Steps(model, before, t, |history|, next, after)
    ensures Tracks(model, after, history + [t]) && HasRoom(after, room)
    ensures next == NextToken(model, history + [t])
  {
    AllRoomRemains(model.layers, before, [model.embed(t)], |history|, room);
    DecodeTracks(model, before, history, t);
  }

  ghost function TracksIn(model: Model, room: nat): (seq<LayerState>, seq<int>) -> bool {
    (sts, history) => Tracks(model, sts, history) && HasRoom(sts, room)
  }

  ghost function SuccessorOf(model: Model): seq<int> -> int {
    tokens => if tokens == [] then 0 else NextToken(model, tokens)
  }

  lemma DecodingFollows(model: Model, room: nat)
    ensures Follows(StepOf(model), TracksIn(model, room), SuccessorOf(model), room)
  {
    forall s, h: seq<int>, t, next, s' | TracksIn(model, room)(s, h) && |h| < room && StepOf(model)(s, t, |h|, next, s')
      ensures TracksIn(model, room)(s', h + [t]) && next == SuccessorOf(model)(h + [t])
    {
      StepTracks(model, s, h, t, next, s', room);
    }
  }

  /** On a cache that tracks a history, each draft is the greedy next token of all before it. */
  lemma DraftsAreGreedy(model: Model, chain: seq<seq<LayerState>>, history: seq<int>, current: int, drafts: seq<int>,
                        n: nat, room: nat)
    requires IsDraft(StepOf(model), chain, current, |history|, drafts) && n < |drafts|
    requires Tracks(model, chain[0], history) && HasRoom(chain[0], room) && |history| + |drafts| <= room
    ensures history + [current] + drafts[..n] != []
    ensures drafts[n] == NextToken(model, history + [current] + drafts[..n])
    ensures Tracks(model, chain[n + 1], history + [current] + drafts[..n])
  {
    DecodingFollows(model, room);
    DraftsFollow(StepOf(model), TracksIn(model, room), SuccessorOf(model), room, chain, history, current, drafts, n);
  }

  /** The cache is where the draft has left it. */
  ghost predicate DraftedTo(model: Model, cache: KVCache, chain: seq<seq<LayerState>>, current: int, pos: nat, drafts: seq<int>)
    requires Fits(model, cache)
    reads cache
  {
    IsDraft(StepOf(model), chain, current, pos, drafts) && chain[|drafts|] == States(model, cache)
  }

  /** A decode step, as a relation between states. */
  method DecodeToken(model: Model, cache: KVCache, token: int) returns (next: int)
    requires Fits(model, cache) && HeadCoversVocab(model) && cache.len < cache.maxLen
    modifies cache`kv, cache`recurrent, cache`len
    ensures Fits(model, cache)
    ensures !InVocab(model, token) ==>
      next == -1 && cache.len == old(cache.len) && States(model, cache) == old(States(model, cache))
    ensures InVocab(model, token) ==> InVocab(model, next) && cache.len == old(cache.len) + 1
    ensures InVocab(model, token) ==>
      StepOf(model)(old(States(model, cache)), token, old(cache.len), next, States(model, cache))
  {
    ghost var rows := RunLayersRows(model.layers, States(model, cache), [model.embed(token)], cache.len);
    next := DecodeStep(model, cache, token);
    if InVocab(model, token) { ArgmaxInVocab(model, rows[0]); }
  }

  lemma ChainGrows(model: Model, chain: seq<seq<LayerState>>, current: int, pos: nat, drafts: seq<int>, next: int,
                   before: seq<LayerState>, after: seq<LayerState>)
    requires IsDraft(StepOf(model), chain, current, pos, drafts) && chain[|drafts|] == before
    requires StepOf(model)(before, Input(current, drafts, |drafts|), pos + |drafts|, next, after)
    ensures IsDraft(StepOf(model), chain + [after], current, pos, drafts + [next])
    ensures (chain + [after])[|drafts + [next]|] == after && (chain + [after])[0] == chain[0]
  {
    DraftGrows(StepOf(model), chain, current, pos, drafts, next, after);
  }

  /** One step of drafting: the next draft, and the chain of states with this step's. */
  method DraftStep(model: Model, cache: KVCache, token: int, ghost chain: seq<seq<LayerState>>, ghost current: int,
                   ghost pos: nat, ghost drafts: seq<int>)
      returns (next: int, ghost chain': seq<seq<LayerState>>)
    requires Fits(model, cache) && HeadCoversVocab(model) && cache.len == pos + |drafts| < cache.maxLen
    requires DraftedTo(model, cache, chain, current, pos, drafts) && token == Input(current, drafts, |drafts|)
    modifies cache`kv, cache`recurrent, cache`len
    ensures Fits(model, cache)
    ensures !InVocab(model, token) ==>
      next == -1 && cache.len == old(cache.len) && States(model, cache) == old(States(model, cache))
    ensures InVocab(model, token) ==> InVocab(model, next) && cache.len == old(cache.len) + 1
    ensures InVocab(model, token) ==>
      DraftedTo(model, cache, chain', current, pos, drafts + [next]) && chain'[0] == chain[0]
  {
    ghost var before := States(model, cache);
    next := DecodeToken(model, cache, token);
    ghost var after := States(model, cache);
    chain' := chain + [after];
    if InVocab(model, token) { ChainGrows(model, chain, current, pos, drafts, next, before, after); }
  }

  /** `draft_decode_loop`: the drafts, or None when it reports failure, with the cache as it was. */
  method DraftDecodeLoop(model: Model, cache: KVCache, current: int, count: nat)
      returns (drafts: Option<seq<int>>, ghost chain: seq<seq<LayerState>>)
    requires Fits(model, cache) && HeadCoversVocab(model)
    modifies cache`kv, cache`recurrent, cache`len
    ensures Fits(model, cache)
    ensures drafts.Some? <==> count == 0 || (old(cache.len) + count <= cache.maxLen && InVocab(model, current))
    ensures drafts.Some? ==> |drafts.value| == count && forall i :: 0 <= i < count ==> InVocab(model, drafts.value[i])
    ensures drafts.Some? ==>
      DraftedTo(model, cache, chain, current, old(cache.len), drafts.value) && chain[0] == old(States(model, cache))
    ensures drafts.None? ==> States(model, cache) == old(States(model, cache))
    ensures cache.len == old(cache.len) + if drafts.Some? then count else 0
  {
    chain := [States(model, cache)];
    if count == 0 { return Some([]), chain; }
    if cache.len + count > cache.maxLen { return None, chain; }
    var tokens: seq<int> := [];
    var input := current;
    ghost var pos := cache.len;
    for step: nat := 0 to count
      invariant Fits(model, cache) && |tokens| == step && cache.len == pos + step
      invariant input == Input(current, tokens, step)
      invariant InVocab(model, input) == InVocab(model, current) && (step > 0 ==> InVocab(model, current))
      invariant DraftedTo(model, cache, chain, current, pos, tokens) && chain[0] == old(States(model, cache))
      invariant forall i :: 0 <= i < step ==> InVocab(model, tokens[i])
    {
      if cache.len >= cache.maxLen { break; }
      var next;
      next, chain := DraftStep(model, cache, input, chain, current, pos, tokens);
      if next < 0 { return None, chain; }
      tokens := tokens + [next];
      input := next;
    }
    return Some(tokens), chain;
  }

  /** The rows of logits a verification pass produces, or the exception it throws. */
  datatype VerifyOutcome = Verified(logits: seq<seq<real>>) | VerifyThrew

  method HeadRows(model: Model, rows: seq<Row>) returns (logits: seq<seq<real>>)
    ensures |logits| == |rows| && forall j :: 0 <= j < |rows| ==> logits[j] == model.head(rows[j])
  {
    logits := [];
    for i := 0 to |rows|
      invariant |logits| == i && forall j :: 0 <= j < i ==> logits[j] == model.head(rows[j])
    {
      logits := logits + [model.head(rows[i])];
    }
  }

  /** `forward_verify`: the drafts run from position `prefixLen`, without changing the cache's length. */
  method ForwardVerify(model: Model, cache: KVCache, drafts: seq<int>, prefixLen: nat) returns (outcome: VerifyOutcome)
    requires Fits(model, cache)
    modifies cache`kv, cache`recurrent
    ensures Fits(model, cache)
    ensures outcome.Verified? <==>
      |drafts| == 0 || (prefixLen + |drafts| <= cache.maxLen && forall i :: 0 <= i < |drafts| ==> InVocab(model, drafts[i]))
    ensures outcome.Verified? ==> |outcome.logits| == |drafts|
    ensures States(model, cache) ==
      var sts := old(States(model, cache));
      if outcome.Verified? && |drafts| > 0 then RunLayersState(model.layers, sts, Embedded(model, drafts), prefixLen) else sts
    ensures outcome.Verified? && |drafts| > 0 ==>
      var sts := old(States(model, cache));
      forall i :: 0 <= i < |drafts| ==>
        outcome.logits[i] == model.head(RunLayersRows(model.layers, sts, Embedded(model, drafts), prefixLen)[i])
  {
    if |drafts| == 0 { return Verified([]); }
    if prefixLen + |drafts| > cache.maxLen { return VerifyThrew; }
    if i :| 0 <= i < |drafts| && !InVocab(model, drafts[i]) { return VerifyThrew; }
    ghost var sts := States(model, cache);
    assert AllZeroed(false, model.zeroState, sts) == sts;
    var rows := EmbedTokens(model, drafts);
    var ys := ForwardLayers(model, cache, rows, prefixLen, false);
    var logits := HeadRows(model, ys);
    return Verified(logits);
  }

  /** The drafts run from `pos` take the layers from `before` to `after`, and the logits of draft `i` call for `picks[i]`. */
  ghost predicate Verifies(model: Model, before: seq<LayerState>, drafts: seq<int>, pos: nat, picks: seq<int>,
                           after: seq<LayerState>) {
    && |before| == |model.layers| && |picks| == |drafts|
    && after == RunLayersState(model.layers, before, Embedded(model, drafts), pos)
    && forall i :: 0 <= i < |picks| ==>
         picks[i] == Sampling.Argmax(model.head(RunLayersRows(model.layers, before, Embedded(model, drafts), pos)[i]))
  }

  /** A rollback takes the recurrent states back, and leaves the key and value buffers as they are. */
  ghost function RolledBack(before: seq<LayerState>, after: seq<LayerState>): (r: seq<LayerState>)
    ensures |r| == |after|
    ensures forall l :: 0 <= l < |r| ==> r[l] == if after[l].FullState? || l >= |before| then after[l] else before[l]
  {
    seq(|after|, l requires 0 <= l < |after| => if after[l].FullState? || l >= |before| then after[l] else before[l])
  }

  ghost function MachineOf(model: Model): Machine<seq<LayerState>> {
    Machine(StepOf(model),
            (before, drafts, pos: nat, picks, after) => Verifies(model, before, drafts, pos, picks, after),
            (before, after) => RolledBack(before, after))
  }

  /** The cache's rollback, layer by layer. */
  lemma RollsBack(layers: seq<Layer>, kv: seq<seq<Entry>>, r: Recurrent, kv': seq<seq<Entry>>, r': Recurrent)
    requires SlotCounts(layers, kv, r) && SlotCounts(layers, kv', r')
    ensures StatesOf(layers, kv', r) == RolledBack(StatesOf(layers, kv, r), StatesOf(layers, kv', r'))
  {
    forall l | 0 <= l < |layers|
      ensures StatesOf(layers, kv', r)[l] == RolledBack(StatesOf(layers, kv, r), StatesOf(layers, kv', r'))[l]
    {
      SlotInRange(layers, l);
    }
  }

  /** `forward_next_token`: a prefill of everything, in one chunk, on a temporary cache; None if the arena throws. */
  method ForwardNextToken(model: Model, arena: DeviceArena, tokens: seq<int>) returns (next: Option<int>)
    modifies arena
    ensures next ==
      if tokens == [] then Some(0)
      else if exists i :: 0 <= i < |tokens| && !InVocab(model, tokens[i]) then Some(-1)
      else if old(arena.Grants(RowBytes(model))) then Some(NextToken(model, tokens)) else None
  {
    var maxLen := if |tokens| + 1 > 8192 then |tokens| + 1 else 8192;
    var full := FullBefore(model.layers, |model.layers|);
    var temp := new KVCache(maxLen, full, |model.layers| - full, model.zeroConv, model.zeroState);
    var outcome := PrefillPrompt(model, temp, arena, tokens, |tokens|);
    next := if outcome.Token? then Some(outcome.id) else None;
  }
}
