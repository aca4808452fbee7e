/**
  How the KV cache carves its device storage (src/core/kv_cache.cpp:115-214): one walk over the layers for the attention
  buffers, in FP16 or INT8 form, and one for the recurrent buffers. The regions tile the storage, and no two elements of
  any buffers share a byte.
 */
module CacheLayout {
  import opened Arithmetic

  datatype Config = Config(maxSeq: nat, fullLayers: nat, linearLayers: nat, kvHeads: nat, headDim: nat, vHeads: nat,
                           kDim: nat, vDim: nat, convChannels: nat, convKernel: nat, int8: bool)

  /** A buffer of one layer: so many elements of so many bytes. */
  datatype Buffer = Buffer(count: nat, elem: nat) {
    function Size(): nat { count * elem }
  }

  /** The attention buffers of a layer: keys and values, and in INT8 form their scales and zero points. */
  function AttentionBuffers(c: Config): seq<Buffer> {
    var elements := c.maxSeq * c.kvHeads * c.headDim;
    var heads := c.maxSeq * c.kvHeads;
    if c.int8 then
      [Buffer(elements, 1), Buffer(elements, 1), Buffer(heads, 4), Buffer(heads, 4), Buffer(heads, 4), Buffer(heads, 4)]
    else [Buffer(elements, 2), Buffer(elements, 2)]
  }

  /** The recurrent buffers of a layer: the state matrix and the convolution window. */
  function RecurrentBuffers(c: Config): seq<Buffer> {
    var past := if c.convKernel > 1 then c.convKernel - 1 else 0;
    [Buffer(c.vHeads * c.kDim * c.vDim, 4), Buffer(past * c.convChannels, 4)]
  }

  /** The bytes of the first `b` buffers. */
  function Bytes(buffers: seq<Buffer>, b: nat): nat
    requires b <= |buffers|
  {
    if b == 0 then 0 else Bytes(buffers, b - 1) + buffers[b - 1].Size()
  }

  function PerLayer(buffers: seq<Buffer>): nat { Bytes(buffers, |buffers|) }

  /** Where buffer `b` of layer `l` starts. */
  function Start(buffers: seq<Buffer>, l: nat, b: nat): nat
    requires b <= |buffers|
  {
    l * PerLayer(buffers) + Bytes(buffers, b)
  }

  /** The walk: a pointer moves over the storage, layer by layer and buffer by buffer. */
  method Carve(buffers: seq<Buffer>, layers: nat) returns (starts: seq<seq<nat>>, end: nat)
    ensures |starts| == layers && end == layers * PerLayer(buffers)
    ensures forall l :: 0 <= l < layers ==> |starts[l]| == |buffers|
    ensures forall l, b :: 0 <= l < layers && 0 <= b < |buffers| ==> starts[l][b] == Start(buffers, l, b)
  {
    starts, end := [], 0;
    for l := 0 to layers
      invariant |starts| == l && end == l * PerLayer(buffers)
      invariant forall m :: 0 <= m < l ==> |starts[m]| == |buffers|
      invariant forall m, b :: 0 <= m < l && 0 <= b < |buffers| ==> starts[m][b] == Start(buffers, m, b)
    {
      var row;
      row, end := CarveLayer(buffers, l, end);
      starts := starts + [row];
    }
  }

  method CarveLayer(buffers: seq<Buffer>, ghost l: nat, start: nat) returns (row: seq<nat>, end: nat)
    requires start == l * PerLayer(buffers)
    ensures |row| == |buffers| && end == (l + 1) * PerLayer(buffers)
    ensures forall b :: 0 <= b < |buffers| ==> row[b] == Start(buffers, l, b)
  {
    row, end := [], start;
    for b := 0 to |buffers|
      invariant |row| == b && end == start + Bytes(buffers, b)
      invariant forall c {:trigger row[c]} :: 0 <= c < b ==> row[c] == Start(buffers, l, c)
    {
      row := row + [end];
      end := end + buffers[b].Size();
    }
    assert (l + 1) * PerLayer(buffers) == start + PerLayer(buffers);
  }

  /** `allocate`: the regions, and the sizes of the two storages they are carved from. */
  method Allocate(c: Config) returns (kv: seq<seq<nat>>, kvBytes: nat, recurrent: seq<seq<nat>>, recurrentBytes: nat)
    ensures kvBytes == c.fullLayers * PerLayer(AttentionBuffers(c))
    ensures recurrentBytes == c.linearLayers * PerLayer(RecurrentBuffers(c))
    ensures |kv| == c.fullLayers && forall l, b :: 0 <= l < |kv| && 0 <= b < |AttentionBuffers(c)| ==>
      |kv[l]| == |AttentionBuffers(c)| && kv[l][b] == Start(AttentionBuffers(c), l, b)
    ensures recurrentBytes > 0 ==> |recurrent| == c.linearLayers && forall l, b :: 0 <= l < |recurrent| && 0 <= b < 2 ==>
      |recurrent[l]| == 2 && recurrent[l][b] == Start(RecurrentBuffers(c), l, b)
  {
    kvBytes := KvBytes(c);
    var end;
    kv, end := Carve(AttentionBuffers(c), c.fullLayers);
    recurrentBytes := RecurrentBytes(c);
    recurrent := [];
    if recurrentBytes > 0 {
      recurrent, end := Carve(RecurrentBuffers(c), c.linearLayers);
    }
  }

  lemma TwoBuffers(bs: seq<Buffer>)
    requires |bs| >= 2
    ensures Bytes(bs, 2) == bs[0].Size() + bs[1].Size()
  {
    assert Bytes(bs, 1) == bs[0].Size();
  }

  lemma SixBuffers(bs: seq<Buffer>)
    requires |bs| == 6
    ensures PerLayer(bs) == bs[0].Size() + bs[1].Size() + bs[2].Size() + bs[3].Size() + bs[4].Size() + bs[5].Size()
  {
    TwoBuffers(bs);
    assert Bytes(bs, 3) == Bytes(bs, 2) + bs[2].Size();
    assert Bytes(bs, 5) == Bytes(bs, 4) + bs[4].Size();
  }

  /** The bytes of one attention layer. */
  lemma AttentionLayer(c: Config, elements: nat, heads: nat)
    requires elements == c.maxSeq * c.kvHeads * c.headDim && heads == c.maxSeq * c.kvHeads
    ensures PerLayer(AttentionBuffers(c)) == if c.int8 then 2 * elements + 16 * heads else 4 * elements
    ensures Bytes(AttentionBuffers(c), 2) == if c.int8 then 2 * elements else 4 * elements
  {
    TwoBuffers(AttentionBuffers(c));
    if c.int8 { SixBuffers(AttentionBuffers(c)); }
  }

  /** The size formula for the attention storage is the sum of the buffers. */
  method KvBytes(c: Config) returns (bytes: nat)
    ensures bytes == c.fullLayers * PerLayer(AttentionBuffers(c))
  {
    var elements := c.maxSeq * c.kvHeads * c.headDim;
    AttentionLayer(c, elements, c.maxSeq * c.kvHeads);
    if c.int8 {
      var scaleBytes := c.maxSeq * c.kvHeads * 4;
      var perLayer := 2 * elements + 4 * scaleBytes;
      bytes := c.fullLayers * perLayer;
    } else {
      var cacheBytes := elements * 2;
      assert c.fullLayers * 2 * cacheBytes == c.fullLayers * (2 * cacheBytes);
      bytes := c.fullLayers * 2 * cacheBytes;
    }
  }

  method RecurrentBytes(c: Config) returns (bytes: nat)
    ensures bytes == c.linearLayers * PerLayer(RecurrentBuffers(c))
  {
    var sBytes := c.vHeads * c.kDim * c.vDim * 4;
    var past := if c.convKernel > 1 then c.convKernel - 1 else 0;
    var convBytes := past * c.convChannels * 4;
    TwoBuffers(RecurrentBuffers(c));
    bytes := c.linearLayers * (sBytes + convBytes);
  }

  /** The attention buffers of layer `l`, byte by byte: keys, values and, in INT8 form, their scales and zero points. */
  lemma AttentionStarts(c: Config, l: nat, e: nat, h: nat)
    requires e == c.maxSeq * c.kvHeads * c.headDim && h == c.maxSeq * c.kvHeads
    ensures !c.int8 ==>
      Start(AttentionBuffers(c), l, 0) == l * (4 * e) && Start(AttentionBuffers(c), l, 1) == l * (4 * e) + 2 * e
    ensures c.int8 ==>
      var bs, at := AttentionBuffers(c), l * (2 * e + 16 * h);
      && Start(bs, l, 0) == at && Start(bs, l, 1) == at + e && Start(bs, l, 2) == at + 2 * e
      && Start(bs, l, 3) == at + 2 * e + 4 * h && Start(bs, l, 4) == at + 2 * e + 8 * h
      && Start(bs, l, 5) == at + 2 * e + 12 * h
  {
    var bs := AttentionBuffers(c);
    AttentionLayer(c, e, h);
    assert Bytes(bs, 1) == bs[0].Size();
    if c.int8 {
      assert Bytes(bs, 3) == Bytes(bs, 2) + bs[2].Size();
      assert Bytes(bs, 5) == Bytes(bs, 4) + bs[4].Size();
    }
  }

  /** The recurrent buffers of layer `l`: the state, and a window of one row less than the convolution's length. */
  lemma RecurrentStarts(c: Config, l: nat, s: nat, w: nat)
    requires s == c.vHeads * c.kDim * c.vDim && w == (if c.convKernel > 1 then (c.convKernel - 1) * c.convChannels else 0)
    ensures Start(RecurrentBuffers(c), l, 0) == l * (4 * s + 4 * w)
    ensures Start(RecurrentBuffers(c), l, 1) == l * (4 * s + 4 * w) + 4 * s
  {
    var bs := RecurrentBuffers(c);
    TwoBuffers(bs);
    assert Bytes(bs, 1) == bs[0].Size();
  }

  // ---------------------------------------------------------------- no two elements share a byte

  /** The first byte of element `i` of buffer `b` of layer `l`. */
  function Cell(buffers: seq<Buffer>, l: nat, b: nat, i: nat): nat
    requires b < |buffers|
  {
    Start(buffers, l, b) + i * buffers[b].elem
  }

  lemma {:induction false} BytesGrow(buffers: seq<Buffer>, a: nat, b: nat)
    requires a < b <= |buffers|
    ensures Bytes(buffers, a) + buffers[a].Size() <= Bytes(buffers, b)
    decreases b
  {
    if a < b - 1 { BytesGrow(buffers, a, b - 1); }
  }

  /** An element lies inside its region, and the region inside the storage. */
  lemma InRegion(buffers: seq<Buffer>, layers: nat, l: nat, b: nat, i: nat)
    requires l < layers && b < |buffers| && i < buffers[b].count
    ensures Start(buffers, l, b) <= Cell(buffers, l, b, i)
    ensures Cell(buffers, l, b, i) + buffers[b].elem <= Start(buffers, l, b + 1) <= layers * PerLayer(buffers)
  {
    Apart(i, buffers[b].count, buffers[b].elem);
    Apart(l, layers, PerLayer(buffers));
    if b + 1 < |buffers| { BytesGrow(buffers, b + 1, |buffers|); }
  }

  /** Regions come one after the other: buffer by buffer, layer by layer, from the first byte to the last. */
  lemma Tiles(buffers: seq<Buffer>, layers: nat, l: nat, b: nat)
    requires l < layers && b < |buffers|
    ensures Start(buffers, 0, 0) == 0
    ensures Start(buffers, l, b) + buffers[b].Size() == Start(buffers, l, b + 1)
    ensures Start(buffers, l, |buffers|) == Start(buffers, l + 1, 0)
    ensures Start(buffers, layers - 1, |buffers|) == layers * PerLayer(buffers)
  {
    var per := PerLayer(buffers);
    assert (l + 1) * per == l * per + per;
    assert (layers - 1) * per + per == layers * per;
  }

  ghost predicate Disjoint(a: nat, n: nat, b: nat, m: nat) { a + n <= b || b + m <= a }

  /** Different elements occupy different bytes, whatever layers and buffers they belong to. */
  lemma CellsAreDisjoint(buffers: seq<Buffer>, l: nat, b: nat, i: nat, l': nat, b': nat, i': nat)
    requires b < |buffers| && i < buffers[b].count && b' < |buffers| && i' < buffers[b'].count
    requires l != l' || b != b' || i != i'
    ensures Disjoint(Cell(buffers, l, b, i), buffers[b].elem, Cell(buffers, l', b', i'), buffers[b'].elem)
  {
    if l < l' || (l == l' && (b < b' || (b == b' && i < i'))) {
      Before(buffers, l, b, i, l', b', i');
    } else {
      Before(buffers, l', b', i', l, b, i);
    }
  }

  lemma Before(buffers: seq<Buffer>, l: nat, b: nat, i: nat, l': nat, b': nat, i': nat)
    requires b < |buffers| && i < buffers[b].count && b' < |buffers| && i' < buffers[b'].count
    requires l < l' || (l == l' && (b < b' || (b == b' && i < i')))
    ensures Cell(buffers, l, b, i) + buffers[b].elem <= Cell(buffers, l', b', i')
  {
    if l < l' {
      InRegion(buffers, l', l, b, i);
    } else if b < b' {
      InRegion(buffers, l + 1, l, b, i);
      if b + 1 < b' { BytesGrow(buffers, b + 1, b'); }
    } else {
      Apart(i, i', buffers[b].elem);
    }
  }

  /** The index of position, head and dimension. */
  function Index(pos: nat, h: nat, d: nat, heads: nat, width: nat): nat { (pos * heads + h) * width + d }

  /** It is in range, and different triples have different indices. */
  lemma IndexInRange(pos: nat, h: nat, d: nat, maxSeq: nat, heads: nat, width: nat)
    requires pos < maxSeq && h < heads && d < width
    ensures Index(pos, h, d, heads, width) < maxSeq * heads * width
  {
    Apart(pos, maxSeq, heads);
    Apart(pos * heads + h, maxSeq * heads, width);
  }

  lemma IndexInjective(pos: nat, h: nat, d: nat, pos': nat, h': nat, d': nat, heads: nat, width: nat)
    requires h < heads && h' < heads && d < width && d' < width
    requires Index(pos, h, d, heads, width) == Index(pos', h', d', heads, width)
    ensures pos == pos' && h == h' && d == d'
  {
    SplitUnique(pos * heads + h, d, pos' * heads + h', d', width);
    SplitUnique(pos, h, pos', h', heads);
  }

  /** A key or value element has bytes of its own, apart from every other element of every layer and both caches. */
  lemma ElementsAreDisjoint(c: Config, l: nat, b: nat, pos: nat, h: nat, d: nat, l': nat, b': nat, pos': nat, h': nat, d': nat)
    requires b < 2 && b' < 2 && pos < c.maxSeq && h < c.kvHeads && d < c.headDim
    requires pos' < c.maxSeq && h' < c.kvHeads && d' < c.headDim && (l, b, pos, h, d) != (l', b', pos', h', d')
    ensures var bs := AttentionBuffers(c);
      Disjoint(Cell(bs, l, b, Index(pos, h, d, c.kvHeads, c.headDim)), bs[b].elem,
               Cell(bs, l', b', Index(pos', h', d', c.kvHeads, c.headDim)), bs[b'].elem)
  {
    IndexInRange(pos, h, d, c.maxSeq, c.kvHeads, c.headDim);
    IndexInRange(pos', h', d', c.maxSeq, c.kvHeads, c.headDim);
    var i, i' := Index(pos, h, d, c.kvHeads, c.headDim), Index(pos', h', d', c.kvHeads, c.headDim);
    if i == i' { IndexInjective(pos, h, d, pos', h', d', c.kvHeads, c.headDim); }
    CellsAreDisjoint(AttentionBuffers(c), l, b, i, l', b', i');
  }

  // ---------------------------------------------------------------- alignment of the scales

  /** In INT8 form the scales of every layer start on a multiple of four bytes exactly when a layer has an even number of elements. */
  lemma ScalesAreAligned(c: Config, elements: nat)
    requires c.int8 && elements == c.maxSeq * c.kvHeads * c.headDim
    ensures (forall l: nat :: Start(AttentionBuffers(c), l, 2) % 4 == 0) <==> elements % 2 == 0
  {
    forall l: nat
      ensures elements % 2 == 0 ==> Start(AttentionBuffers(c), l, 2) % 4 == 0
      ensures l == 0 ==> Start(AttentionBuffers(c), l, 2) == 2 * elements
    {
      ScaleStart(c, elements, c.maxSeq * c.kvHeads, l);
    }
    assert Start(AttentionBuffers(c), 0, 2) == 2 * elements;
  }

  lemma ScaleStart(c: Config, elements: nat, heads: nat, l: nat)
    requires c.int8 && elements == c.maxSeq * c.kvHeads * c.headDim && heads == c.maxSeq * c.kvHeads
    ensures elements % 2 == 0 ==> Start(AttentionBuffers(c), l, 2) % 4 == 0
    ensures l == 0 ==> Start(AttentionBuffers(c), l, 2) == 2 * elements
  {
    AttentionLayer(c, elements, heads);
    var start := Start(AttentionBuffers(c), l, 2);
    assert start == l * (2 * elements + 16 * heads) + 2 * elements;
    EvenSteps(l, elements, heads, start);
  }

  lemma EvenSteps(l: nat, elements: nat, heads: nat, start: nat)
    requires start == l * (2 * elements + 16 * heads) + 2 * elements
    ensures elements % 2 == 0 ==> start % 4 == 0
    ensures l == 0 ==> start == 2 * elements
  {
    if elements % 2 == 0 {
      var n := elements / 2 + 4 * heads;
      assert 2 * elements + 16 * heads == 4 * n;
      assert l * (4 * n) == 4 * (l * n);
    }
  }
}
