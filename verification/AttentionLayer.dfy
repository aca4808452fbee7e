/**
  A full-attention layer whose `attend` is the cached kernel's grouped softmax attention (src/ops/attention.cpp:84-251). The
  layer sees the cache as entries, one a position; the kernel sees two flat buffers. Over buffers that hold those entries the
  kernel gives every row of a chunk what the layer's `attend` gives it.
 */
module AttentionLayer {
  import opened Bytes
  import opened Arithmetic
  import opened Transformer
  import opened Softmax
  import opened Attention
  import opened CachedAttention
  import Forward

  /** The shape of the heads, the score scale, and the exponential function. */
  datatype Heads = Heads(s: Shape, scale: real, exp: real -> real) {
    ghost predicate Valid() { s.Valid() && Exponential(exp) && s.dim % LANES == 0 }

    function QueryLength(): nat { s.hq * s.dim }
  }

  function KeysOf(entries: seq<Entry>): (r: seq<Row>)
    ensures |r| == |entries| && forall i :: 0 <= i < |r| ==> r[i] == entries[i].k
  {
    seq(|entries|, i requires 0 <= i < |entries| => entries[i].k)
  }

  function ValuesOf(entries: seq<Entry>): (r: seq<Row>)
    ensures |r| == |entries| && forall i :: 0 <= i < |r| ==> r[i] == entries[i].v
  {
    seq(|entries|, i requires 0 <= i < |entries| => entries[i].v)
  }

  /** Every entry has a key and a value vector for each key-value head. */
  ghost predicate Uniform(entries: seq<Entry>, stride: nat) {
    forall i :: 0 <= i < |entries| ==> |entries[i].k| == stride && |entries[i].v| == stride
  }

  lemma FlatLengths(entries: seq<Entry>, stride: nat)
    requires Uniform(entries, stride)
    ensures |Concat(KeysOf(entries))| == |entries| * stride == |Concat(ValuesOf(entries))|
  {
    ConcatLength(KeysOf(entries), stride);
    ConcatLength(ValuesOf(entries), stride);
  }

  /** What query head `h` of a row sees. */
  ghost function Sight(heads: Heads, q: Row, entries: seq<Entry>, h: nat): (w: View)
    requires heads.Valid() && |q| == heads.QueryLength() && h < heads.s.hq
    requires entries != [] && Uniform(entries, heads.s.Stride())
    ensures w.Valid() && w.s == heads.s && w.n == |entries|
  {
    Apart(h, heads.s.hq, heads.s.dim);
    FlatLengths(entries, heads.s.Stride());
    View(heads.s, q[h * heads.s.dim..h * heads.s.dim + heads.s.dim], Concat(KeysOf(entries)), Concat(ValuesOf(entries)),
         |entries|, heads.s.KvHead(h), heads.scale)
  }

  /** The outputs of a row's query heads. */
  ghost function HeadOuts(heads: Heads, q: Row, entries: seq<Entry>): (r: seq<Row>)
    requires heads.Valid() && |q| == heads.QueryLength() && entries != [] && Uniform(entries, heads.s.Stride())
    ensures |r| == heads.s.hq && forall h :: 0 <= h < |r| ==> |r[h]| == heads.s.dim
  {
    seq(heads.s.hq, h requires 0 <= h < heads.s.hq => HeadOut(heads.exp, Sight(heads, q, entries, h), heads.s.dim))
  }

  /** A projected row has a query for each query head, and a key and a value for each key-value head. */
  ghost predicate Projects(layer: Layer, heads: Heads, x: Row, pos: nat)
    requires layer.FullAttention?
  {
    var p := layer.project(x, pos);
    |p.q| == heads.QueryLength() && |p.entry.k| == |p.entry.v| == heads.s.Stride()
  }

  ghost predicate Attends(layer: Layer, heads: Heads, q: Row, entries: seq<Entry>)
    requires layer.FullAttention? && heads.Valid()
  {
    |q| == heads.QueryLength() && entries != [] && Uniform(entries, heads.s.Stride()) ==>
      layer.attend(q, entries) == Concat(HeadOuts(heads, q, entries))
  }

  ghost predicate IsAttentionLayer(layer: Layer, heads: Heads) {
    && layer.FullAttention? && heads.Valid()
    && (forall x, pos: nat :: Projects(layer, heads, x, pos))
    && forall q, entries :: Attends(layer, heads, q, entries)
  }

  // ---------------------------------------------------------------- one head of one row

  /** The flat buffers begin with the keys and values of these entries. */
  ghost predicate Buffered(keys: seq<real>, values: seq<real>, entries: seq<Entry>, stride: nat) {
    && Uniform(entries, stride)
    && Agree(keys, Concat(KeysOf(entries)), |entries| * stride) && Agree(values, Concat(ValuesOf(entries)), |entries| * stride)
  }

  lemma ConcatAgrees(flat: seq<real>, rows: seq<Row>, n: nat, hi: nat)
    requires n <= |rows| && Agree(flat, Concat(rows), hi) && |Concat(rows[..n])| <= hi
    ensures Agree(flat, Concat(rows[..n]), |Concat(rows[..n])|)
  {
    assert rows == rows[..n] + rows[n..];
    ConcatAppend(rows[..n], rows[n..]);
    AgreeLess(flat, Concat(rows), hi, |Concat(rows[..n])|);
  }

  lemma BufferedPrefix(keys: seq<real>, values: seq<real>, entries: seq<Entry>, stride: nat, n: nat)
    requires Buffered(keys, values, entries, stride) && n <= |entries|
    ensures Buffered(keys, values, entries[..n], stride)
  {
    FlatLengths(entries[..n], stride);
    TimesMono(n, |entries|, stride);
    assert KeysOf(entries)[..n] == KeysOf(entries[..n]) && ValuesOf(entries)[..n] == ValuesOf(entries[..n]);
    ConcatAgrees(keys, KeysOf(entries), n, |entries| * stride);
    ConcatAgrees(values, ValuesOf(entries), n, |entries| * stride);
  }

  /** The job of a chunk's rows, over buffers that hold the cache up to the chunk's end. */
  ghost predicate IsJob(heads: Heads, job: Job, entries: seq<Entry>, qs: seq<Row>, start: nat) {
    && heads.Valid() && job.s == heads.s && job.scale == heads.scale && job.start == start
    && |entries| == start + |qs| && (job.maxSeq > 0 ==> start + |qs| <= job.maxSeq)
    && (forall i :: 0 <= i < |qs| ==> |qs[i]| == heads.QueryLength()) && job.q == Concat(qs)
    && Buffered(job.keys, job.values, entries, heads.s.Stride())
  }

  lemma JobIsValid(heads: Heads, job: Job, entries: seq<Entry>, qs: seq<Row>, start: nat)
    requires IsJob(heads, job, entries, qs, start)
    ensures job.Valid(|qs| * heads.s.hq) && |job.q| == |qs| * heads.s.hq * heads.s.dim
  {
    ConcatLength(qs, heads.QueryLength());
    assert |qs| * heads.QueryLength() == |qs| * heads.s.hq * heads.s.dim;
    JobValid(job, |qs|, |qs| * heads.s.hq);
  }

  /** The query of head `h` of row `i`. */
  lemma QueryOf(qs: seq<Row>, hq: nat, dim: nat, i: nat, h: nat)
    requires i < |qs| && h < hq && forall j :: 0 <= j < |qs| ==> |qs[j]| == hq * dim
    ensures var id := i * hq + h;
      && 0 <= h * dim && h * dim + dim <= |qs[i]| && 0 <= id * dim && id * dim + dim <= |Concat(qs)|
      && Concat(qs)[id * dim..id * dim + dim] == qs[i][h * dim..h * dim + dim]
  {
    var n := hq * dim;
    ConcatPart(qs, n, i);
    Apart(h, hq, dim);
    QueryAt(i, hq, dim, h);
    SliceOfSlice(Concat(qs), i * n, i * n + n, h * dim, dim);
  }

  lemma QueryAt(i: nat, hq: nat, dim: nat, h: nat)
    ensures (i * hq + h) * dim == i * (hq * dim) + h * dim
  {
  }

  /** What the kernel's query head `h` of row `i` sees. */
  lemma JobView(heads: Heads, job: Job, entries: seq<Entry>, qs: seq<Row>, start: nat, i: nat, h: nat)
      returns (w: View)
    requires IsJob(heads, job, entries, qs, start) && i < |qs| && h < heads.s.hq
    ensures job.Valid(|qs| * heads.s.hq) && i * heads.s.hq + h < |qs| * heads.s.hq
    ensures w == job.HeadView(i * heads.s.hq + h, |qs| * heads.s.hq) && w.Valid()
    ensures w.s == heads.s && w.n == start + i + 1 && w.k == heads.s.KvHead(h) && w.scale == heads.scale
    ensures w.keys == job.keys && w.values == job.values
    ensures 0 <= h * heads.s.dim && h * heads.s.dim + heads.s.dim <= |qs[i]|
    ensures w.q == qs[i][h * heads.s.dim..h * heads.s.dim + heads.s.dim]
  {
    JobIsValid(heads, job, entries, qs, start);
    Apart(i, |qs|, heads.s.hq);
    DivMod(i, h, heads.s.hq);
    QueryOf(qs, heads.s.hq, heads.s.dim, i, h);
    w := job.HeadView(i * heads.s.hq + h, |qs| * heads.s.hq);
  }

  lemma SeesAlike(heads: Heads, w: View, q: Row, seen: seq<Entry>, h: nat)
    requires heads.Valid() && |q| == heads.QueryLength() && h < heads.s.hq && w.Valid()
    requires w.s == heads.s && w.n == |seen| && w.k == heads.s.KvHead(h) && w.scale == heads.scale
    requires 0 <= h * heads.s.dim && h * heads.s.dim + heads.s.dim <= |q|
    requires w.q == q[h * heads.s.dim..h * heads.s.dim + heads.s.dim]
    requires Buffered(w.keys, w.values, seen, heads.s.Stride())
    ensures HeadOut(heads.exp, w, heads.s.dim) == HeadOuts(heads, q, seen)[h]
  {
    FlatLengths(seen, heads.s.Stride());
    SameOut(heads.exp, w, Sight(heads, q, seen, h), heads.s.dim);
  }

  /** The kernel's query head `h` of row `i` gets what the layer's gets. */
  lemma KernelSees(heads: Heads, job: Job, entries: seq<Entry>, qs: seq<Row>, start: nat, i: nat, h: nat)
    requires IsJob(heads, job, entries, qs, start) && i < |qs| && h < heads.s.hq
    ensures job.Valid(|qs| * heads.s.hq) && i * heads.s.hq + h < |qs| * heads.s.hq
    ensures Uniform(entries[..start + i + 1], heads.s.Stride())
    ensures OutOf(heads.exp, job, |qs| * heads.s.hq, i * heads.s.hq + h) == HeadOuts(heads, qs[i], entries[..start + i + 1])[h]
  {
    var w := JobView(heads, job, entries, qs, start, i, h);
    BufferedPrefix(job.keys, job.values, entries, heads.s.Stride(), start + i + 1);
    SeesAlike(heads, w, qs[i], entries[..start + i + 1], h);
  }

  // ---------------------------------------------------------------- the rows of a chunk

  /** What the layer's `attend` gives the rows of a chunk. */
  ghost function Attended(layer: Layer, entries: seq<Entry>, qs: seq<Row>, start: nat): (r: seq<Row>)
    requires layer.FullAttention? && |entries| == start + |qs|
    ensures |r| == |qs| && forall i :: 0 <= i < |r| ==> r[i] == layer.attend(qs[i], entries[..start + i + 1])
  {
    seq(|qs|, i requires 0 <= i < |qs| => layer.attend(qs[i], entries[..start + i + 1]))
  }

  /** The `hq` outputs from `i * hq` on, one after the other, are row `i`. */
  ghost predicate RowAt(outs: seq<Row>, rows: seq<Row>, hq: nat, i: nat)
    requires i < |rows|
  {
    0 <= i * hq && i * hq + hq <= |outs| && Concat(outs[i * hq..i * hq + hq]) == rows[i]
  }

  lemma {:induction false} RowsConcat(outs: seq<Row>, rows: seq<Row>, hq: nat, n: nat)
    requires n <= |rows| && forall i: nat :: i < |rows| ==> RowAt(outs, rows, hq, i)
    ensures 0 <= n * hq <= |outs| && Concat(outs[..n * hq]) == Concat(rows[..n])
  {
    if n > 0 {
      var at := (n - 1) * hq;
      RowsConcat(outs, rows, hq, n - 1);
      assert RowAt(outs, rows, hq, n - 1) && n * hq == at + hq;
      assert outs[..at + hq] == outs[..at] + outs[at..at + hq] && rows[..n] == rows[..n - 1] + [rows[n - 1]];
      ConcatAppend(outs[..at], outs[at..at + hq]);
      ConcatSnoc(rows[..n - 1], rows[n - 1]);
    }
  }

  lemma SliceIs(outs: seq<Row>, at: nat, parts: seq<Row>)
    requires at + |parts| <= |outs| && forall h: nat :: h < |parts| ==> outs[at + h] == parts[h]
    ensures outs[at..at + |parts|] == parts
  {
  }

  lemma MakesRow(outs: seq<Row>, rows: seq<Row>, hq: nat, i: nat, at: nat, parts: seq<Row>)
    requires i < |rows| && at == i * hq && at + hq <= |outs| && |parts| == hq && rows[i] == Concat(parts)
    requires forall h: nat :: h < hq ==> outs[at + h] == parts[h]
    ensures RowAt(outs, rows, hq, i)
  {
    SliceIs(outs, at, parts);
  }

  /** A row's outputs among all outputs of the kernel. */
  lemma OutsOfRow(heads: Heads, job: Job, entries: seq<Entry>, qs: seq<Row>, start: nat, outs: seq<Row>, i: nat, count: nat,
                  at: nat, parts: seq<Row>)
    requires IsJob(heads, job, entries, qs, start) && i < |qs| && count == |qs| * heads.s.hq && at == i * heads.s.hq
    requires job.Valid(count) && |outs| == count && AreOuts(heads.exp, job, count, 0, outs)
    requires Uniform(entries[..start + i + 1], heads.s.Stride()) && parts == HeadOuts(heads, qs[i], entries[..start + i + 1])
    ensures at + heads.s.hq <= |outs| && forall h: nat :: h < heads.s.hq ==> outs[at + h] == parts[h]
  {
    Apart(i, |qs|, heads.s.hq);
    forall h: nat | h < heads.s.hq
      ensures outs[at + h] == parts[h]
    {
      OutOfHead(heads, job, entries, qs, start, outs, i, count, h);
    }
  }

  lemma OutOfHead(heads: Heads, job: Job, entries: seq<Entry>, qs: seq<Row>, start: nat, outs: seq<Row>, i: nat, count: nat,
                  h: nat)
    requires IsJob(heads, job, entries, qs, start) && i < |qs| && count == |qs| * heads.s.hq && h < heads.s.hq
    requires job.Valid(count) && |outs| == count && AreOuts(heads.exp, job, count, 0, outs)
    requires Uniform(entries[..start + i + 1], heads.s.Stride())
    ensures 0 <= i * heads.s.hq + h < |outs|
    ensures outs[i * heads.s.hq + h] == HeadOuts(heads, qs[i], entries[..start + i + 1])[h]
  {
    KernelSees(heads, job, entries, qs, start, i, h);
  }

  lemma EntriesUniform(entries: seq<Entry>, stride: nat, n: nat)
    requires Uniform(entries, stride) && n <= |entries|
    ensures Uniform(entries[..n], stride)
  {
  }

  lemma RowOfOuts(heads: Heads, layer: Layer, job: Job, entries: seq<Entry>, qs: seq<Row>, start: nat, outs: seq<Row>, i: nat,
                  count: nat, rows: seq<Row>)
    requires IsAttentionLayer(layer, heads) && IsJob(heads, job, entries, qs, start) && i < |qs|
    requires count == |qs| * heads.s.hq && job.Valid(count) && |outs| == count && AreOuts(heads.exp, job, count, 0, outs)
    requires rows == Attended(layer, entries, qs, start)
    ensures RowAt(outs, rows, heads.s.hq, i) && |rows[i]| == heads.QueryLength()
  {
    var parts := AttendedParts(heads, layer, entries, qs, start, i, rows);
    var at := i * heads.s.hq;
    OutsOfRow(heads, job, entries, qs, start, outs, i, count, at, parts);
    MakesRow(outs, rows, heads.s.hq, i, at, parts);
  }

  lemma AttendedParts(heads: Heads, layer: Layer, entries: seq<Entry>, qs: seq<Row>, start: nat, i: nat, rows: seq<Row>)
      returns (parts: seq<Row>)
    requires IsAttentionLayer(layer, heads) && i < |qs| && |entries| == start + |qs| && |qs[i]| == heads.QueryLength()
    requires Uniform(entries, heads.s.Stride()) && rows == Attended(layer, entries, qs, start)
    ensures Uniform(entries[..start + i + 1], heads.s.Stride()) && parts == HeadOuts(heads, qs[i], entries[..start + i + 1])
    ensures rows[i] == Concat(parts) && |rows[i]| == heads.QueryLength() && |parts| == heads.s.hq
  {
    EntriesUniform(entries, heads.s.Stride(), start + i + 1);
    AttendedRow(heads, layer, qs[i], entries[..start + i + 1]);
    parts := HeadOuts(heads, qs[i], entries[..start + i + 1]);
  }

  lemma AttendedRow(heads: Heads, layer: Layer, q: Row, seen: seq<Entry>)
    requires IsAttentionLayer(layer, heads)
    requires |q| == heads.QueryLength() && seen != [] && Uniform(seen, heads.s.Stride())
    ensures layer.attend(q, seen) == Concat(HeadOuts(heads, q, seen)) && |layer.attend(q, seen)| == heads.QueryLength()
  {
    assert Attends(layer, heads, q, seen);
    ConcatLength(HeadOuts(heads, q, seen), heads.s.dim);
  }

  /** `sdpa_causal_cached_impl` over a chunk's rows. */
  method AttendByKernel(heads: Heads, layer: Layer, job: Job, qs: seq<Row>, start: nat, ghost entries: seq<Entry>)
      returns (out: seq<real>)
    requires IsAttentionLayer(layer, heads) && IsJob(heads, job, entries, qs, start)
    ensures out == Concat(Attended(layer, entries, qs, start))
    ensures forall i :: 0 <= i < |qs| ==> |Attended(layer, entries, qs, start)[i]| == heads.QueryLength()
  {
    JobIsValid(heads, job, entries, qs, start);
    var count := |qs| * heads.s.hq;
    var buffer := new real[count * heads.s.dim];
    ghost var outs := SdpaCached(buffer, heads.exp, job, count);
    ghost var rows := Attended(layer, entries, qs, start);
    forall i: nat | i < |qs|
      ensures RowAt(outs, rows, heads.s.hq, i) && |rows[i]| == heads.QueryLength()
    {
      RowOfOuts(heads, layer, job, entries, qs, start, outs, i, count, rows);
    }
    RowsConcat(outs, rows, heads.s.hq, |qs|);
    assert outs[..count] == outs && rows[..|qs|] == rows;
    out := buffer[..count * heads.s.dim];
  }

  // ---------------------------------------------------------------- the layer, on flat buffers

  /** Flat rows after flat rows. */
  lemma FlatGrows(cache: seq<real>, after: seq<real>, a: seq<Row>, b: seq<Row>, both: seq<Row>, lo: nat, hi: nat)
    requires lo == |Concat(a)| && hi == lo + |Concat(b)| <= |cache| && Agree(cache, Concat(a), lo)
    requires after == Splice(cache, lo, Concat(b)) && both == a + b
    ensures Agree(after, Concat(both), hi)
  {
    ConcatAppend(a, b);
    SpliceExtends(cache, Concat(a + b), lo, hi);
  }

  lemma PartsAppend(before: seq<Entry>, es: seq<Entry>, stride: nat)
    requires Uniform(before, stride) && Uniform(es, stride)
    ensures Uniform(before + es, stride) && |before + es| * stride == |before| * stride + |es| * stride
    ensures KeysOf(before + es) == KeysOf(before) + KeysOf(es) && ValuesOf(before + es) == ValuesOf(before) + ValuesOf(es)
  {
  }

  lemma EntriesGrow(kc: seq<real>, vc: seq<real>, kc': seq<real>, vc': seq<real>, before: seq<Entry>, es: seq<Entry>,
                    stride: nat, lo: nat, hi: nat)
    requires Buffered(kc, vc, before, stride) && Uniform(es, stride) && |kc| == |vc|
    requires lo == |before| * stride && hi == lo + |es| * stride <= |kc|
    requires |Concat(KeysOf(es))| == |es| * stride == |Concat(ValuesOf(es))|
    requires kc' == Splice(kc, lo, Concat(KeysOf(es))) && vc' == Splice(vc, lo, Concat(ValuesOf(es)))
    ensures Buffered(kc', vc', before + es, stride)
  {
    FlatLengths(before, stride);
    PartsAppend(before, es, stride);
    FlatGrows(kc, kc', KeysOf(before), KeysOf(es), KeysOf(before + es), lo, hi);
    FlatGrows(vc, vc', ValuesOf(before), ValuesOf(es), ValuesOf(before + es), lo, hi);
  }

  /** `attention_write_kv_cache_impl` on a chunk's entries. */
  method WriteChunk(heads: Heads, kc: array<real>, vc: array<real>, es: seq<Entry>, start: nat, maxSeq: int,
                      ghost before: seq<Entry>)
    requires heads.Valid() && kc != vc && kc.Length == vc.Length && es != [] && |before| == start
    requires Uniform(es, heads.s.Stride()) && Buffered(kc[..], vc[..], before, heads.s.Stride())
    requires (start + |es|) * heads.s.Stride() <= kc.Length && (maxSeq > 0 ==> start + |es| <= maxSeq)
    modifies kc, vc
    ensures Buffered(kc[..], vc[..], before + es, heads.s.Stride())
  {
    ghost var stride, ks, vs := heads.s.Stride(), kc[..], vc[..];
    var kIn, vIn := Concat(KeysOf(es)), Concat(ValuesOf(es));
    FlatLengths(es, stride);
    PartsAppend(before, es, stride);
    WriteKvCache(kc, vc, kIn, vIn, start, |es|, heads.s, maxSeq);
    assert kIn[..|es| * stride] == kIn && vIn[..|es| * stride] == vIn;
    EntriesGrow(ks, vs, kc[..], vc[..], before, es, stride, start * stride, start * stride + |es| * stride);
  }

  /** The rest of the layer, row by row. */
  method FinishRows(heads: Heads, layer: Layer, xs: seq<Row>, projected: seq<Projected>, out: seq<real>, ghost rows: seq<Row>)
      returns (ys: seq<Row>)
    requires layer.FullAttention? && |projected| == |xs| == |rows| && out == Concat(rows)
    requires forall j :: 0 <= j < |rows| ==> |rows[j]| == heads.QueryLength()
    ensures |ys| == |xs| && forall j :: 0 <= j < |xs| ==> ys[j] == layer.finish(xs[j], projected[j].gate, rows[j])
  {
    ys := [];
    var n := heads.QueryLength();
    for j := 0 to |xs|
      invariant |ys| == j && forall i :: 0 <= i < j ==> ys[i] == layer.finish(xs[i], projected[i].gate, rows[i])
    {
      ConcatPart(rows, n, j);
      ys := ys + [layer.finish(xs[j], projected[j].gate, out[j * n..j * n + n])];
    }
  }

  lemma FinishedRow(layer: Layer, kv: seq<Entry>, xs: seq<Row>, start: nat, entries: seq<Entry>, qs: seq<Row>, j: nat)
    requires layer.FullAttention? && start + |xs| <= |kv| && j < |xs| == |qs|
    requires entries == kv[..start] + Entries(layer, xs, start) && qs[j] == layer.project(xs[j], start + j).q
    ensures RunRows(layer, FullState(kv), xs, start)[j]
         == layer.finish(xs[j], layer.project(xs[j], start + j).gate, Attended(layer, entries, qs, start)[j])
  {
    FullLayerIsCausal(layer, FullState(kv), xs, start, j);
    assert entries[..start + j + 1] == kv[..start] + Entries(layer, xs, start)[..j + 1];
  }

  lemma EntriesProjected(heads: Heads, layer: Layer, xs: seq<Row>, start: nat)
    requires IsAttentionLayer(layer, heads)
    ensures Uniform(Entries(layer, xs, start), heads.s.Stride())
    ensures forall j: nat :: j < |xs| ==> |layer.project(xs[j], start + j).q| == heads.QueryLength()
  {
    forall j: nat | j < |xs|
      ensures |layer.project(xs[j], start + j).q| == heads.QueryLength()
      ensures |Entries(layer, xs, start)[j].k| == |Entries(layer, xs, start)[j].v| == heads.s.Stride()
    {
      assert Projects(layer, heads, xs[j], start + j);
    }
  }

  /**
    A chunk through the two kernels of the layer: what the forward pass takes a full-attention layer to do. The flat buffers
    end up holding the entries of the layer's new state, up to the chunk's end.
   */
  method AttentionChunk(heads: Heads, layer: Layer, kc: array<real>, vc: array<real>, xs: seq<Row>, start: nat, maxSeq: int,
                        ghost kv: seq<Entry>)
      returns (ys: seq<Row>, ghost kv': seq<Entry>)
    requires IsAttentionLayer(layer, heads) && xs != [] && start + |xs| <= |kv| && (maxSeq > 0 ==> start + |xs| <= maxSeq)
    requires kc != vc && kc.Length == vc.Length && (start + |xs|) * heads.s.Stride() <= kc.Length
    requires Buffered(kc[..], vc[..], kv[..start], heads.s.Stride())
    modifies kc, vc
    ensures FullState(kv') == RunState(layer, FullState(kv), xs, start) && |kv'| == |kv|
    ensures Buffered(kc[..], vc[..], kv'[..start + |xs|], heads.s.Stride())
    ensures ys == RunRows(layer, FullState(kv), xs, start)
  {
    var projected := Forward.ProjectRows(layer, xs, start);
    var es := seq(|xs|, j requires 0 <= j < |xs| => projected[j].entry);
    var qs := seq(|xs|, j requires 0 <= j < |xs| => projected[j].q);
    EntriesProjected(heads, layer, xs, start);
    assert es == Entries(layer, xs, start);
    WriteChunk(heads, kc, vc, es, start, maxSeq, kv[..start]);
    ghost var entries := kv[..start] + es;
    kv' := entries + kv[start + |xs|..];
    assert kv'[..start + |xs|] == entries;
    FullLayerState(layer, FullState(kv), xs, start);
    var job := Job(heads.s, Concat(qs), kc[..], vc[..], start, maxSeq, heads.scale);
    var out := AttendByKernel(heads, layer, job, qs, start, entries);
    ys := FinishRows(heads, layer, xs, projected, out, Attended(layer, entries, qs, start));
    forall j: nat | j < |xs|
      ensures ys[j] == RunRows(layer, FullState(kv), xs, start)[j]
    {
      FinishedRow(layer, kv, xs, start, entries, qs, j);
    }
  }
}
