/**
  Attention over the KV cache (src/ops/attention.cpp:80-251): writing chunks of keys and values, then letting the queries
  of the chunk read the cache. Fed chunk by chunk, the cached kernel computes what the reference kernel computes on the
  whole sequence.
 */
module CachedAttention {
  import opened Bytes
  import opened Softmax
  import opened Attention
  import opened Arithmetic

  // ---------------------------------------------------------------- buffers

  /** `s` with `part` laid over it at `at`. */
  function Splice<T>(s: seq<T>, at: nat, part: seq<T>): (r: seq<T>)
    requires at + |part| <= |s|
    ensures |r| == |s|
  {
    s[..at] + part + s[at + |part|..]
  }

  /** How many tokens a write stores: none for a start outside a bounded cache, fewer at its end. */
  function Stored(start: int, tokens: int, maxSeq: int): (n: nat)
    ensures n > 0 && maxSeq > 0 ==> 0 <= start && start + n <= maxSeq
    ensures n <= if tokens < 0 then 0 else tokens
  {
    if tokens <= 0 then 0
    else if maxSeq > 0 && (start >= maxSeq || start < 0) then 0
    else if maxSeq > 0 && start + tokens > maxSeq then maxSeq - start
    else tokens
  }

  /** Each element is that of the part where the part is, and what it was elsewhere. */
  lemma SpliceAt<T>(s: seq<T>, at: nat, part: seq<T>, i: nat)
    requires at + |part| <= |s| && i < |s|
    ensures Splice(s, at, part)[i] == if at <= i < at + |part| then part[i - at] else s[i]
  {
  }

  /** A write that starts in the cache stores just the tokens whose positions are in it; others store none. */
  lemma StoredAre(start: int, tokens: nat, maxSeq: int, k: nat)
    ensures k < Stored(start, tokens, maxSeq) <==> k < tokens && (maxSeq <= 0 || (0 <= start && start + k < maxSeq))
  {
  }

  lemma CellOf(start: nat, i: nat, stride: nat)
    requires stride > 0
    ensures (start + i / stride) * stride + i % stride == start * stride + i
  {
    assert i == i / stride * stride + i % stride;
    assert (start + i / stride) * stride == start * stride + i / stride * stride;
  }

  /** Where the kernel puts element `i` of its input, unless the position is out of bounds. */
  method CacheIndex(i: nat, start: nat, n: nat, stride: nat, maxSeq: int) returns (c: nat)
    requires stride > 0 && i < n * stride && (maxSeq > 0 ==> start + n <= maxSeq)
    ensures c == start * stride + i
  {
    var pos := start + i / stride;
    Quotient(i, n, stride);
    CellOf(start, i, stride);
    c := pos * stride + i % stride;
    if maxSeq > 0 && (pos < 0 || pos >= maxSeq) {
      assert false;
    }
  }

  /** The write kernel on one buffer: element `i` of the input goes to its position's row. */
  method WriteRows(cache: array<real>, input: seq<real>, start: nat, n: nat, stride: nat, maxSeq: int, ghost base: nat)
    requires stride > 0 && base == start * stride && base + n * stride <= cache.Length && n * stride <= |input|
    requires maxSeq > 0 ==> start + n <= maxSeq
    modifies cache
    ensures cache[..] == Splice(old(cache[..]), base, input[..n * stride])
  {
    var total := n * stride;
    for i := 0 to total
      invariant forall c :: 0 <= c < base ==> cache[c] == old(cache[c])
      invariant forall c :: base <= c < base + i ==> cache[c] == input[c - base]
      invariant forall c :: base + i <= c < cache.Length ==> cache[c] == old(cache[c])
    {
      var c := CacheIndex(i, start, n, stride, maxSeq);
      cache[c] := input[i];
    }
  }

  /** `attention_write_kv_cache_impl`. */
  method WriteKvCache(kc: array<real>, vc: array<real>, kIn: seq<real>, vIn: seq<real>, start: int, tokens: int, s: Shape,
                      maxSeq: int)
    requires kc != vc
    requires var n := Stored(start, tokens, maxSeq); n > 0 && s.Stride() > 0 ==>
      && start >= 0 && start * s.Stride() + n * s.Stride() <= kc.Length && kc.Length == vc.Length
      && n * s.Stride() <= |kIn| && n * s.Stride() <= |vIn|
    modifies kc, vc
    ensures var n := Stored(start, tokens, maxSeq);
      if n > 0 && s.Stride() > 0 then
        && kc[..] == Splice(old(kc[..]), start * s.Stride(), kIn[..n * s.Stride()])
        && vc[..] == Splice(old(vc[..]), start * s.Stride(), vIn[..n * s.Stride()])
      else kc[..] == old(kc[..]) && vc[..] == old(vc[..])
  {
    var n := Stored(start, tokens, maxSeq);
    if n == 0 || s.Stride() == 0 { return; }
    WriteRows(kc, kIn, start, n, s.Stride(), maxSeq, start * s.Stride());
    WriteRows(vc, vIn, start, n, s.Stride(), maxSeq, start * s.Stride());
  }

  /** Appending the next rows of a sequence to a cache that holds the rows so far. */
  lemma SpliceExtends(cache: seq<real>, rows: seq<real>, a: nat, b: nat)
    requires a <= b <= |rows| && b <= |cache| && cache[..a] == rows[..a]
    ensures Splice(cache, a, rows[a..b])[..b] == rows[..b]
  {
    assert rows[..b] == rows[..a] + rows[a..b];
  }

  // ---------------------------------------------------------------- the grid of query heads

  /** Keys visible to the query at position `pos`, in a cache of `maxSeq` positions if that is positive. */
  function KeysSeen(pos: nat, maxSeq: int): (n: nat)
    ensures n > 0
  {
    if maxSeq > 0 && pos + 1 > maxSeq then maxSeq else pos + 1
  }

  /** `count` query heads starting at position `start`, against these keys and values. */
  datatype Job = Job(s: Shape, q: seq<real>, keys: seq<real>, values: seq<real>, start: nat, maxSeq: int, scale: real) {
    ghost predicate Valid(count: nat) {
      && s.Valid() && |q| >= count * s.dim
      && forall id: nat :: id < count ==>
           KeysSeen(start + id / s.hq, maxSeq) * s.Stride() <= |keys| && KeysSeen(start + id / s.hq, maxSeq) * s.Stride() <= |values|
    }

    /** Query head `id`: row by row, head by head. */
    function HeadView(id: nat, count: nat): (w: View)
      requires Valid(count) && id < count
      ensures w.Valid() && w.s == s
    {
      TimesMono(id + 1, count, s.dim);
      View(s, q[id * s.dim..id * s.dim + s.dim], keys, values, KeysSeen(start + id / s.hq, maxSeq), s.KvHead(id % s.hq), scale)
    }
  }

  /** The attention output of query head `id`. */
  ghost function OutOf(exp: real -> real, job: Job, count: nat, id: nat): (o: seq<real>)
    requires Exponential(exp) && job.Valid(count) && id < count
    ensures |o| == job.s.dim
  {
    HeadOut(exp, job.HeadView(id, count), job.s.dim)
  }

  lemma GroupOf(h: nat, hq: nat, hkv: nat, k: nat)
    requires hq > 0 && hkv > 0 && hq % hkv == 0
    ensures hq / hkv > 0
    ensures h / (hq / hkv) == k <==> k * (hq / hkv) <= h < (k + 1) * (hq / hkv)
  {
    var ratio := hq / hkv;
    assert hq == hkv * ratio;
    QuotientAndRemainder(h, ratio);
    Apart(k, h / ratio, ratio);
  }

  /**
    What query head `id` of the kernels sees: its own row's head, the positions up to its row's in a cache of `maxSeq`, and
    key-value head `k` exactly if it is in that head's group of neighbouring query heads.
   */
  lemma HeadSees(job: Job, count: nat, id: nat, k: nat)
    requires job.Valid(count) && id < count
    ensures var w, h, pos := job.HeadView(id, count), id % job.s.hq, job.start + id / job.s.hq;
      && w.keys == job.keys && w.values == job.values && w.scale == job.scale
      && w.n == (if 0 < job.maxSeq <= pos then job.maxSeq else pos + 1)
      && (w.k == k <==> k * (job.s.hq / job.s.hkv) <= h < (k + 1) * (job.s.hq / job.s.hkv))
    ensures 0 <= id * job.s.dim && id * job.s.dim + job.s.dim <= |job.q|
    ensures job.HeadView(id, count).q == job.q[id * job.s.dim..id * job.s.dim + job.s.dim]
  {
    TimesMono(id + 1, count, job.s.dim);
    GroupOf(id % job.s.hq, job.s.hq, job.s.hkv, k);
  }

  /** These are the outputs of the query heads from `first` on. */
  ghost predicate AreOuts(exp: real -> real, job: Job, count: nat, first: nat, outs: seq<seq<real>>)
    requires Exponential(exp) && job.Valid(count)
  {
    first + |outs| <= count && forall id :: 0 <= id < |outs| ==> outs[id] == OutOf(exp, job, count, first + id)
  }

  /** The flat buffer holds the outputs of the query heads from `first` on. */
  ghost predicate HoldsOuts(exp: real -> real, job: Job, count: nat, first: nat, buffer: seq<real>, outs: seq<seq<real>>)
    requires Exponential(exp) && job.Valid(count)
  {
    AreOuts(exp, job, count, first, outs) && buffer == Concat(outs)
  }

  method Store<T>(out: array<T>, base: nat, o: seq<T>)
    requires base + |o| <= out.Length
    modifies out
    ensures out[..] == Splice(old(out[..]), base, o)
  {
    for d := 0 to |o|
      invariant forall c :: 0 <= c < base ==> out[c] == old(out[c])
      invariant forall c :: base <= c < base + d ==> out[c] == o[c - base]
      invariant forall c :: base + d <= c < out.Length ==> out[c] == old(out[c])
    {
      out[base + d] := o[d];
    }
  }

  /** The prefix grows by one head's output. */
  lemma StoreExtends(before: seq<real>, after: seq<real>, done: seq<real>, o: seq<real>)
    requires |done| + |o| <= |before| && after == Splice(before, |done|, o) && before[..|done|] == done
    ensures after[..|done| + |o|] == done + o
  {
  }

  method StoreNext(out: array<real>, id: nat, count: nat, dim: nat, o: seq<real>, ghost outs: seq<seq<real>>)
    requires id < count && count * dim <= out.Length && |o| == dim && id * dim <= out.Length
    requires |outs| == id && (forall i :: 0 <= i < |outs| ==> |outs[i]| == dim) && out[..id * dim] == Concat(outs)
    modifies out
    ensures (id + 1) * dim <= out.Length && out[..(id + 1) * dim] == Concat(outs + [o])
  {
    TimesMono(id + 1, count, dim);
    ConcatLength(outs, dim);
    ghost var before := out[..];
    Store(out, id * dim, o);
    StoreExtends(before, out[..], Concat(outs), o);
    ConcatSnoc(outs, o);
  }

  lemma OutsSnoc(exp: real -> real, job: Job, count: nat, outs: seq<seq<real>>, o: seq<real>)
    requires Exponential(exp) && job.Valid(count) && AreOuts(exp, job, count, 0, outs) && |outs| < count
    requires o == HeadOut(exp, job.HeadView(|outs|, count), job.s.dim)
    ensures AreOuts(exp, job, count, 0, outs + [o])
    ensures forall i :: 0 <= i < |outs| ==> |outs[i]| == job.s.dim
  {
    assert o == OutOf(exp, job, count, |outs|);
  }

  /** `sdpa_causal_cached_impl`: one sub-group per query head. */
  method SdpaCached(out: array<real>, exp: real -> real, job: Job, count: nat) returns (ghost outs: seq<seq<real>>)
    requires Exponential(exp) && job.Valid(count) && job.s.dim % LANES == 0 && count * job.s.dim <= out.Length
    modifies out
    ensures |outs| == count && HoldsOuts(exp, job, count, 0, out[..count * job.s.dim], outs)
  {
    outs := [];
    for id := 0 to count
      invariant |outs| == id && AreOuts(exp, job, count, 0, outs)
      invariant id * job.s.dim <= out.Length && out[..id * job.s.dim] == Concat(outs)
    {
      var o := CachedHead(exp, job.HeadView(id, count));
      OutsSnoc(exp, job, count, outs, o);
      StoreNext(out, id, count, job.s.dim, o, outs);
      outs := outs + [o];
    }
  }

  /** `sdpa_causal_naive_impl`: one work item per query head. */
  method SdpaNaive(out: array<real>, exp: real -> real, job: Job, count: nat) returns (ghost outs: seq<seq<real>>)
    requires Exponential(exp) && job.Valid(count) && count * job.s.dim <= out.Length
    modifies out
    ensures |outs| == count && HoldsOuts(exp, job, count, 0, out[..count * job.s.dim], outs)
  {
    outs := [];
    for id := 0 to count
      invariant |outs| == id && AreOuts(exp, job, count, 0, outs)
      invariant id * job.s.dim <= out.Length && out[..id * job.s.dim] == Concat(outs)
    {
      var o := NaiveHead(exp, job.HeadView(id, count));
      OutsSnoc(exp, job, count, outs, o);
      StoreNext(out, id, count, job.s.dim, o, outs);
      outs := outs + [o];
    }
  }

  // ---------------------------------------------------------------- chunks against the whole sequence

  /** Two views of the same query over buffers that agree on the visible positions. */
  ghost predicate SameSight(a: View, b: View) {
    && a.Valid() && b.Valid() && a.s == b.s && a.q == b.q && a.n == b.n && a.k == b.k && a.scale == b.scale
    && a.keys[..a.n * a.s.Stride()] == b.keys[..a.n * a.s.Stride()]
    && a.values[..a.n * a.s.Stride()] == b.values[..a.n * a.s.Stride()]
  }

  lemma SameHead(s: Shape, a: seq<real>, b: seq<real>, n: nat, k: nat, j: nat)
    requires n * s.Stride() <= |a| && n * s.Stride() <= |b| && a[..n * s.Stride()] == b[..n * s.Stride()]
    requires j < n && k < s.hkv
    ensures Head(s, a, n, k, j) == Head(s, b, n, k, j)
  {
    HeadBound(s, j, n, k);
    var lo := (j * s.hkv + k) * s.dim;
    assert a[lo..lo + s.dim] == a[..n * s.Stride()][lo..lo + s.dim];
    assert b[lo..lo + s.dim] == b[..n * s.Stride()][lo..lo + s.dim];
  }

  lemma SameScore(a: View, b: View, j: nat)
    requires SameSight(a, b) && j < a.n
    ensures a.Score(j) == b.Score(j)
  {
    SameHead(a.s, a.keys, b.keys, a.n, a.k, j);
  }

  lemma {:induction false} SameScores(a: View, b: View, j: nat)
    requires SameSight(a, b) && j <= a.n
    ensures Scores(a, j) == Scores(b, j)
  {
    if j > 0 {
      SameScores(a, b, j - 1);
      SameScore(a, b, j - 1);
    }
  }

  lemma {:induction false} SameColumn(a: View, b: View, d: nat, j: nat)
    requires SameSight(a, b) && d < a.s.dim && j <= a.n
    ensures Column(a, d, j) == Column(b, d, j)
  {
    if j > 0 {
      SameColumn(a, b, d, j - 1);
      SameHead(a.s, a.values, b.values, a.n, a.k, j - 1);
    }
  }

  lemma {:induction false} SameOut(exp: real -> real, a: View, b: View, d: nat)
    requires Exponential(exp) && SameSight(a, b) && d <= a.s.dim
    ensures HeadOut(exp, a, d) == HeadOut(exp, b, d)
  {
    if d > 0 {
      SameOut(exp, a, b, d - 1);
      SameScores(a, b, a.n);
      SameColumn(a, b, d - 1, a.n);
    }
  }

  /** A chunk of `tokens` queries of the whole sequence, over a cache that holds all keys and values up to its end. */
  ghost predicate IsChunk(chunk: Job, whole: Job, tokens: nat, count: nat, total: nat, first: nat) {
    && chunk.s == whole.s && chunk.scale == whole.scale && whole.start == 0 && whole.maxSeq == 0
    && count == tokens * chunk.s.hq && first == chunk.start * chunk.s.hq && first + count <= total
    && chunk.Valid(count) && whole.Valid(total)
    && (chunk.maxSeq > 0 ==> chunk.start + tokens <= chunk.maxSeq)
    && |chunk.q| == count * chunk.s.dim && IsAt(chunk.q, whole.q, first * chunk.s.dim)
    && Agree(chunk.keys, whole.keys, (chunk.start + tokens) * chunk.s.Stride())
    && Agree(chunk.values, whole.values, (chunk.start + tokens) * chunk.s.Stride())
  }

  /** `part` is the stretch of `q` that starts at `at`. */
  ghost predicate IsAt(part: seq<real>, q: seq<real>, at: nat) {
    at + |part| <= |q| && part == q[at..at + |part|]
  }

  ghost predicate Agree(a: seq<real>, b: seq<real>, n: nat) {
    n <= |a| && n <= |b| && a[..n] == b[..n]
  }

  lemma AgreeLess(a: seq<real>, b: seq<real>, n: nat, m: nat)
    requires Agree(a, b, n) && m <= n
    ensures Agree(a, b, m)
  {
    assert a[..m] == a[..n][..m] && b[..m] == b[..n][..m];
  }

  lemma RowOf(start: nat, id: nat, hq: nat)
    requires hq > 0
    ensures (start * hq + id) / hq == start + id / hq && (start * hq + id) % hq == id % hq
  {
    assert (start + id / hq) * hq == start * hq + id / hq * hq;
    assert id == id / hq * hq + id % hq;
    DivMod(start + id / hq, id % hq, hq);
  }

  lemma ChunkRows(id: nat, tokens: nat, hq: nat, start: nat, stride: nat)
    requires hq > 0 && id < tokens * hq
    ensures id / hq < tokens && (start + id / hq + 1) * stride <= (start + tokens) * stride
  {
    Quotient(id, tokens, hq);
    TimesMono(start + id / hq + 1, start + tokens, stride);
  }

  lemma SliceOfSlice(a: seq<real>, lo: nat, hi: nat, i: nat, n: nat)
    requires lo <= hi <= |a| && i + n <= hi - lo
    ensures a[lo..hi][i..i + n] == a[lo + i..lo + i + n]
  {
    var x, y := a[lo..hi][i..i + n], a[lo + i..lo + i + n];
    forall t | 0 <= t < n
      ensures x[t] == y[t]
    {
    }
  }

  lemma ChunkQuery(part: seq<real>, q: seq<real>, first: nat, count: nat, id: nat, dim: nat)
    requires |part| == count * dim && IsAt(part, q, first * dim) && id < count
    ensures id * dim + dim <= |part| && (first + id) * dim + dim <= |q|
    ensures part[id * dim..id * dim + dim] == q[(first + id) * dim..(first + id) * dim + dim]
  {
    assert (first + id) * dim == first * dim + id * dim;
    Apart(id, count, dim);
    SliceOfSlice(q, first * dim, first * dim + |part|, id * dim, dim);
  }

  /** Both see the same number of keys, through the same head. */
  lemma ChunkKeys(chunk: Job, whole: Job, tokens: nat, count: nat, total: nat, first: nat, id: nat, n: nat)
    requires IsChunk(chunk, whole, tokens, count, total, first) && id < count && n == chunk.start + id / chunk.s.hq + 1
    ensures KeysSeen(chunk.start + id / chunk.s.hq, chunk.maxSeq) == n == KeysSeen((first + id) / chunk.s.hq, 0)
    ensures (first + id) % chunk.s.hq == id % chunk.s.hq
    ensures Agree(chunk.keys, whole.keys, n * chunk.s.Stride()) && Agree(chunk.values, whole.values, n * chunk.s.Stride())
  {
    RowOf(chunk.start, id, chunk.s.hq);
    ChunkRows(id, tokens, chunk.s.hq, chunk.start, chunk.s.Stride());
    AgreeLess(chunk.keys, whole.keys, (chunk.start + tokens) * chunk.s.Stride(), n * chunk.s.Stride());
    AgreeLess(chunk.values, whole.values, (chunk.start + tokens) * chunk.s.Stride(), n * chunk.s.Stride());
  }

  /** Every query of the chunk gets what it gets in the whole sequence. */
  lemma ChunkHead(exp: real -> real, chunk: Job, whole: Job, tokens: nat, count: nat, total: nat, first: nat, id: nat)
    requires Exponential(exp) && IsChunk(chunk, whole, tokens, count, total, first) && id < count
    ensures OutOf(exp, chunk, count, id) == OutOf(exp, whole, total, first + id)
  {
    ChunkKeys(chunk, whole, tokens, count, total, first, id, chunk.start + id / chunk.s.hq + 1);
    ChunkQuery(chunk.q, whole.q, first, count, id, chunk.s.dim);
    SameOut(exp, chunk.HeadView(id, count), whole.HeadView(first + id, total), chunk.s.dim);
  }

  /** The outputs of a chunk are those outputs of the whole sequence. */
  lemma ChunkOuts(exp: real -> real, chunk: Job, whole: Job, tokens: nat, count: nat, total: nat, first: nat,
                  outs: seq<seq<real>>)
    requires Exponential(exp) && IsChunk(chunk, whole, tokens, count, total, first)
    requires |outs| == count && AreOuts(exp, chunk, count, 0, outs)
    ensures AreOuts(exp, whole, total, first, outs)
  {
    forall id | 0 <= id < count
      ensures outs[id] == OutOf(exp, whole, total, first + id)
    {
      ChunkHead(exp, chunk, whole, tokens, count, total, first, id);
    }
  }

  lemma OutsContinue(exp: real -> real, job: Job, count: nat, a: seq<seq<real>>, b: seq<seq<real>>)
    requires Exponential(exp) && job.Valid(count) && AreOuts(exp, job, count, 0, a) && AreOuts(exp, job, count, |a|, b)
    ensures AreOuts(exp, job, count, 0, a + b)
  {
  }

  lemma SameOuts(exp: real -> real, job: Job, count: nat, a: seq<seq<real>>, b: seq<seq<real>>)
    requires Exponential(exp) && job.Valid(count) && |a| == |b|
    requires AreOuts(exp, job, count, 0, a) && AreOuts(exp, job, count, 0, b)
    ensures a == b
  {
  }

  // ---------------------------------------------------------------- a sequence fed in chunks

  /** The whole sequence as one job for the reference kernel. */
  function Whole(s: Shape, q: seq<real>, k: seq<real>, v: seq<real>, scale: real): Job {
    Job(s, q, k, v, 0, 0, scale)
  }

  ghost predicate IsSequence(s: Shape, q: seq<real>, k: seq<real>, v: seq<real>, tokens: nat) {
    s.Valid() && |q| == tokens * s.hq * s.dim && |k| == tokens * s.Stride() && |v| == tokens * s.Stride()
  }

  lemma JobValid(job: Job, tokens: nat, count: nat)
    requires job.s.Valid() && count == tokens * job.s.hq && |job.q| >= count * job.s.dim
    requires (job.start + tokens) * job.s.Stride() <= |job.keys| && (job.start + tokens) * job.s.Stride() <= |job.values|
    ensures job.Valid(count)
  {
    forall id: nat | id < count
      ensures KeysSeen(job.start + id / job.s.hq, job.maxSeq) * job.s.Stride() <= (job.start + tokens) * job.s.Stride()
    {
      ChunkRows(id, tokens, job.s.hq, job.start, job.s.Stride());
      TimesMono(KeysSeen(job.start + id / job.s.hq, job.maxSeq), job.start + tokens, job.s.Stride());
    }
  }

  function Total(sizes: seq<nat>): nat {
    if sizes == [] then 0 else sizes[0] + Total(sizes[1..])
  }

  lemma ChunkBounds(pos: nat, c: nat, tokens: nat, s: Shape)
    requires pos + c <= tokens
    ensures pos * s.Stride() + c * s.Stride() == (pos + c) * s.Stride() <= tokens * s.Stride()
    ensures pos * s.hq + c * s.hq == (pos + c) * s.hq <= tokens * s.hq
    ensures (pos * s.hq + c * s.hq) * s.dim - pos * s.hq * s.dim == c * s.hq * s.dim
    ensures (pos * s.hq + c * s.hq) * s.dim <= tokens * s.hq * s.dim
  {
    TimesMono(pos + c, tokens, s.Stride());
    TimesMono(pos + c, tokens, s.hq);
    TimesMono((pos + c) * s.hq, tokens * s.hq, s.dim);
    assert (pos * s.hq + c * s.hq) * s.dim == pos * s.hq * s.dim + c * s.hq * s.dim;
  }

  /** Write the chunk's keys and values, then let its queries attend. */
  method AttendChunk(kc: array<real>, vc: array<real>, exp: real -> real, s: Shape, q: seq<real>, k: seq<real>, v: seq<real>,
                     tokens: nat, scale: real, maxSeq: int, pos: nat, c: nat)
    returns (out: seq<real>, ghost outs: seq<seq<real>>)
    requires Exponential(exp) && IsSequence(s, q, k, v, tokens) && s.dim % LANES == 0 && pos + c <= tokens && c > 0
    requires kc != vc && kc.Length == vc.Length >= tokens * s.Stride() && (maxSeq > 0 ==> tokens <= maxSeq)
    requires Agree(kc[..], k, pos * s.Stride()) && Agree(vc[..], v, pos * s.Stride())
    requires Whole(s, q, k, v, scale).Valid(tokens * s.hq)
    modifies kc, vc
    ensures Agree(kc[..], k, (pos + c) * s.Stride()) && Agree(vc[..], v, (pos + c) * s.Stride())
    ensures |outs| == c * s.hq && out == Concat(outs)
    ensures AreOuts(exp, Whole(s, q, k, v, scale), tokens * s.hq, pos * s.hq, outs)
  {
    ChunkBounds(pos, c, tokens, s);
    FeedCache(kc, vc, k, v, s, maxSeq, pos, c, pos * s.Stride(), (pos + c) * s.Stride());
    var first, count := pos * s.hq, c * s.hq;
    var job := Job(s, q[first * s.dim..first * s.dim + count * s.dim], kc[..], vc[..], pos, maxSeq, scale);
    JobValid(job, c, count);
    out, outs := AttendJob(exp, job, count, c, Whole(s, q, k, v, scale), tokens * s.hq, first);
  }

  /** The queries of a chunk, over a cache that holds everything up to its end. */
  method AttendJob(exp: real -> real, job: Job, count: nat, ghost c: nat, ghost whole: Job, ghost total: nat, ghost first: nat)
    returns (out: seq<real>, ghost outs: seq<seq<real>>)
    requires Exponential(exp) && IsChunk(job, whole, c, count, total, first) && job.s.dim % LANES == 0
    ensures |outs| == count && out == Concat(outs) && AreOuts(exp, whole, total, first, outs)
  {
    var buffer := new real[count * job.s.dim];
    outs := SdpaCached(buffer, exp, job, count);
    out := buffer[..count * job.s.dim];
    ChunkOuts(exp, job, whole, c, count, total, first, outs);
  }

  method FeedCache(kc: array<real>, vc: array<real>, k: seq<real>, v: seq<real>, s: Shape, maxSeq: int, pos: nat, c: nat,
                   lo: nat, hi: nat)
    requires lo == pos * s.Stride() && hi == (pos + c) * s.Stride() == lo + c * s.Stride() && s.Stride() > 0 && c > 0
    requires kc != vc && kc.Length == vc.Length >= hi && hi <= |k| && hi <= |v| && (maxSeq > 0 ==> pos + c <= maxSeq)
    requires Agree(kc[..], k, lo) && Agree(vc[..], v, lo)
    modifies kc, vc
    ensures Agree(kc[..], k, hi) && Agree(vc[..], v, hi)
  {
    ghost var ks, vs := kc[..], vc[..];
    WriteKvCache(kc, vc, k[lo..hi], v[lo..hi], pos, c, s, maxSeq);
    SpliceExtends(ks, k, lo, hi);
    SpliceExtends(vs, v, lo, hi);
    assert k[lo..hi][..c * s.Stride()] == k[lo..hi] && v[lo..hi][..c * s.Stride()] == v[lo..hi];
  }

  lemma {:induction false} TotalSplits(sizes: seq<nat>, i: nat)
    requires i < |sizes|
    ensures Total(sizes[..i + 1]) == Total(sizes[..i]) + sizes[i] <= Total(sizes)
  {
    if i == 0 {
      assert sizes[..1][1..] == [];
    } else {
      TotalSplits(sizes[1..], i - 1);
      assert sizes[..i + 1][1..] == sizes[1..][..i] && sizes[..i][1..] == sizes[1..][..i - 1];
    }
  }

  /** The first `pos` positions are in the cache, and their outputs out. */
  ghost predicate Fed(exp: real -> real, whole: Job, tokens: nat, kc: seq<real>, vc: seq<real>, pos: nat, out: seq<real>,
                      outs: seq<seq<real>>)
  {
    && Exponential(exp) && whole.Valid(tokens * whole.s.hq) && pos <= tokens && |outs| == pos * whole.s.hq
    && Agree(kc, whole.keys, pos * whole.s.Stride()) && Agree(vc, whole.values, pos * whole.s.Stride())
    && HoldsOuts(exp, whole, tokens * whole.s.hq, 0, out, outs)
  }

  method AttendNext(kc: array<real>, vc: array<real>, exp: real -> real, s: Shape, q: seq<real>, k: seq<real>, v: seq<real>,
                    tokens: nat, scale: real, maxSeq: int, pos: nat, c: nat, out: seq<real>, ghost outs: seq<seq<real>>)
    returns (out': seq<real>, ghost outs': seq<seq<real>>)
    requires IsSequence(s, q, k, v, tokens) && s.dim % LANES == 0 && pos + c <= tokens && c > 0
    requires kc != vc && kc.Length == vc.Length >= tokens * s.Stride() && (maxSeq > 0 ==> tokens <= maxSeq)
    requires Fed(exp, Whole(s, q, k, v, scale), tokens, kc[..], vc[..], pos, out, outs)
    modifies kc, vc
    ensures Fed(exp, Whole(s, q, k, v, scale), tokens, kc[..], vc[..], pos + c, out', outs')
  {
    ghost var more;
    var part;
    part, more := AttendChunk(kc, vc, exp, s, q, k, v, tokens, scale, maxSeq, pos, c);
    ConcatAppend(outs, more);
    OutsContinue(exp, Whole(s, q, k, v, scale), tokens * s.hq, outs, more);
    ChunkBounds(pos, c, tokens, s);
    out', outs' := out + part, outs + more;
  }

  lemma NothingFed(exp: real -> real, s: Shape, q: seq<real>, k: seq<real>, v: seq<real>, tokens: nat, scale: real,
                   kc: seq<real>, vc: seq<real>)
    requires Exponential(exp) && IsSequence(s, q, k, v, tokens)
    ensures Fed(exp, Whole(s, q, k, v, scale), tokens, kc, vc, 0, [], [])
  {
    JobValid(Whole(s, q, k, v, scale), tokens, tokens * s.hq);
  }

  /** A sequence fed in non-empty chunks of any sizes: the outputs are those of the whole sequence. */
  method AttendInChunks(kc: array<real>, vc: array<real>, exp: real -> real, s: Shape, q: seq<real>, k: seq<real>, v: seq<real>,
                        tokens: nat, scale: real, maxSeq: int, sizes: seq<nat>)
    returns (out: seq<real>, ghost outs: seq<seq<real>>)
    requires Exponential(exp) && IsSequence(s, q, k, v, tokens) && s.dim % LANES == 0
    requires Total(sizes) == tokens && forall i :: 0 <= i < |sizes| ==> sizes[i] > 0
    requires kc != vc && kc.Length == vc.Length >= tokens * s.Stride() && (maxSeq > 0 ==> tokens <= maxSeq)
    modifies kc, vc
    ensures Fed(exp, Whole(s, q, k, v, scale), tokens, kc[..], vc[..], tokens, out, outs)
  {
    NothingFed(exp, s, q, k, v, tokens, scale, kc[..], vc[..]);
    out, outs := [], [];
    var pos := 0;
    for i := 0 to |sizes|
      invariant pos == Total(sizes[..i]) <= tokens
      invariant Fed(exp, Whole(s, q, k, v, scale), tokens, kc[..], vc[..], pos, out, outs)
    {
      TotalSplits(sizes, i);
      out, outs := AttendNext(kc, vc, exp, s, q, k, v, tokens, scale, maxSeq, pos, sizes[i], out, outs);
      pos := pos + sizes[i];
    }
    assert sizes[..|sizes|] == sizes;
  }

  /** The cached kernel, fed in chunks, and the reference kernel on the whole sequence fill the same buffer. */
  method ChunkedIsNaive(kc: array<real>, vc: array<real>, exp: real -> real, s: Shape, q: seq<real>, k: seq<real>, v: seq<real>,
                        tokens: nat, scale: real, maxSeq: int, sizes: seq<nat>)
    returns (chunked: seq<real>, whole: seq<real>)
    requires Exponential(exp) && IsSequence(s, q, k, v, tokens) && s.dim % LANES == 0
    requires Total(sizes) == tokens && forall i :: 0 <= i < |sizes| ==> sizes[i] > 0
    requires kc != vc && kc.Length == vc.Length >= tokens * s.Stride() && (maxSeq > 0 ==> tokens <= maxSeq)
    modifies kc, vc
    ensures chunked == whole
  {
    ghost var outs;
    chunked, outs := AttendInChunks(kc, vc, exp, s, q, k, v, tokens, scale, maxSeq, sizes);
    var count := tokens * s.hq;
    var buffer := new real[count * s.dim];
    ghost var reference := SdpaNaive(buffer, exp, Whole(s, q, k, v, scale), count);
    whole := buffer[..count * s.dim];
    SameOuts(exp, Whole(s, q, k, v, scale), count, outs, reference);
  }
}
