/**
  The tokenizer (src/targets/qwen3_8/tokenizer.cpp:688-863): special tokens, pre-tokenization, byte symbols and merging
  on the way in, byte symbols on the way out. Functions say what each step computes; the class runs the loops, with the
  memo table that merging fills.
 */
module Tokenizer {
  import opened Bytes
  import opened Utf8
  import opened ByteSymbols
  import opened Bpe
  import Scanner

  /** The loaded tables. */
  datatype Vocabulary = Vocabulary(categories: Scanner.Table, ids: map<ByteString, int>, tokens: map<int, ByteString>,
                                   ranks: Ranks, specials: seq<(ByteString, int)>,
                                   toSymbol: map<byte, ByteString>, toByte: map<ByteString, byte>)

  /** Tokens that decode to nothing. */
  predicate Suppressed(token: ByteString) {
    token == Ascii("<|im_start|>") || token == Ascii("<|im_end|>") || token == Ascii("<|endoftext|>")
  }

  ghost predicate SpecialsNonEmpty(specials: seq<(ByteString, int)>) {
    forall i :: 0 <= i < |specials| ==> specials[i].0 != []
  }

  // ---------------------------------------------------------------- merging one piece of text

  function SplitCharacters(cps: CodePoints): (w: Word)
    requires Encodable(cps)
    ensures |w| == |cps| && forall i :: 0 <= i < |cps| ==> w[i] == Encode(cps[i])
  {
    if cps == [] then [] else [Encode(cps[0])] + SplitCharacters(cps[1..])
  }

  /** Everything the decoder returns has an encoding. */
  lemma {:induction false} DecodeIsEncodable(s: ByteString)
    ensures Encodable(Decode(s))
    decreases |s|
  {
    if s != [] {
      var n := LeadLength(s[0]);
      if n == 0 {
        DecodeIsEncodable(s[1..]);
      } else if n <= |s| {
        DecodeIsEncodable(s[n..]);
        AccumulateBound(s[0], s[1..n]);
        assert Decode(s) == [Accumulate(LeadBits(s[0]), s[1..n])] + Decode(s[n..]);
      }
    }
  }

  lemma AccumulateBound(lead: byte, tail: ByteString)
    requires LeadLength(lead) == |tail| + 1
    ensures Accumulate(LeadBits(lead), tail) < LIMIT
  {
    var bits := LeadBits(lead);
    if |tail| == 1 {
      assert tail == [tail[0]];
      AccumulateOne(bits, tail[0]);
    } else if |tail| == 2 {
      assert tail == [tail[0], tail[1]];
      AccumulateTwo(bits, tail[0], tail[1]);
    } else if |tail| == 3 {
      assert tail == [tail[0], tail[1], tail[2]];
      AccumulateThree(bits, tail[0], tail[1], tail[2]);
    }
  }

  /** The pieces of a text, without any memo table. */
  function Pieces(ranks: Ranks, text: ByteString): Word {
    DecodeIsEncodable(text);
    Merged(ranks, SplitCharacters(Decode(text)))
  }

  // ---------------------------------------------------------------- encoding

  /** Byte by byte, through the symbol table once more. */
  function Fallback(v: Vocabulary, piece: ByteString): seq<int> {
    if piece == [] then [] else FallbackOne(v, piece[0]) + Fallback(v, piece[1..])
  }

  function FallbackOne(v: Vocabulary, b: byte): seq<int> {
    if Symbol(b) in v.ids then [v.ids[Symbol(b)]] else []
  }

  function EncodePiece(v: Vocabulary, piece: ByteString): seq<int> {
    if piece in v.ids then [v.ids[piece]] else Fallback(v, piece)
  }

  function EncodePieces(v: Vocabulary, word: Word): seq<int> {
    if word == [] then [] else EncodePiece(v, word[0]) + EncodePieces(v, word[1..])
  }

  function EncodeChunk(v: Vocabulary, chunk: ByteString): seq<int> {
    EncodePieces(v, Pieces(v.ranks, Symbols(chunk)))
  }

  lemma SplitStep(t: Scanner.Table, cps: CodePoints, pos: nat, ranges: seq<(nat, nat)>, k: nat)
    requires pos <= |cps| && k < |ranges| && ranges[k..] == Scanner.Split(t, cps, pos)
    ensures pos < |cps| && ranges[k] == (pos, Scanner.ScanEnd(t, cps, pos))
    ensures ranges[k + 1..] == Scanner.Split(t, cps, ranges[k].1)
  {
    assert ranges[k] == ranges[k..][0] && ranges[k..][1..] == ranges[k + 1..];
  }

  /** The scanner's tokens from `i` on, each encoded by itself. */
  function EncodeFrom(v: Vocabulary, cps: CodePoints, i: nat): seq<int>
    requires Encodable(cps) && i <= |cps|
    decreases |cps| - i
  {
    if i == |cps| then []
    else
      var e := Scanner.ScanEnd(v.categories, cps, i);
      EncodeChunk(v, EncodeAll(cps[i..e])) + EncodeFrom(v, cps, e)
  }

  function EncodeSegment(v: Vocabulary, seg: ByteString): seq<int> {
    DecodeIsEncodable(seg);
    EncodeFrom(v, Decode(seg), 0)
  }

  predicate OccursAt(text: ByteString, sub: ByteString, p: nat) {
    p + |sub| <= |text| && text[p..p + |sub|] == sub
  }

  /** `std::string::find`: the first occurrence at or after `pos`. */
  function Find(text: ByteString, sub: ByteString, pos: nat): (r: Option<nat>)
    ensures r.Some? ==> pos <= r.value && r.value + |sub| <= |text|
    decreases |text| - pos
  {
    if OccursAt(text, sub, pos) then Some(pos)
    else if pos >= |text| then None
    else Find(text, sub, pos + 1)
  }

  lemma {:induction false} FindIsFirst(text: ByteString, sub: ByteString, pos: nat)
    ensures var r := Find(text, sub, pos);
      && (r.Some? ==> OccursAt(text, sub, r.value))
      && forall p :: pos <= p && OccursAt(text, sub, p) ==> r.Some? && r.value <= p
    decreases |text| - pos
  {
    if !OccursAt(text, sub, pos) && pos < |text| { FindIsFirst(text, sub, pos + 1); }
  }

  /** A position and the index of the special token found there. */
  datatype Hit = Hit(pos: nat, index: nat)

  /** The nearest hit among the first `n` special tokens; on a tie the one listed first. */
  function Nearest(specials: seq<(ByteString, int)>, text: ByteString, pos: nat, n: nat): (r: Option<Hit>)
    requires n <= |specials|
    ensures r.Some? ==>
      && pos <= r.value.pos && r.value.index < n
      && r.value.pos + |specials[r.value.index].0| <= |text|
  {
    if n == 0 then None
    else
      var r := Nearest(specials, text, pos, n - 1);
      var f := Find(text, specials[n - 1].0, pos);
      if f.Some? && (r.None? || f.value < r.value.pos) then Some(Hit(f.value, n - 1)) else r
  }

  lemma {:induction false} NearestIsFirst(specials: seq<(ByteString, int)>, text: ByteString, pos: nat, n: nat)
    requires n <= |specials|
    ensures var r := Nearest(specials, text, pos, n);
      && (r.Some? ==> OccursAt(text, specials[r.value.index].0, r.value.pos))
      && forall p, j :: pos <= p && 0 <= j < n && OccursAt(text, specials[j].0, p) ==> r.Some? && r.value.pos <= p
  {
    if n > 0 {
      NearestIsFirst(specials, text, pos, n - 1);
      FindIsFirst(text, specials[n - 1].0, pos);
    }
  }

  /** Of several at that place, the hit is the one listed first. */
  lemma {:induction false} NearestIsListedFirst(specials: seq<(ByteString, int)>, text: ByteString, pos: nat, n: nat)
    requires n <= |specials|
    ensures var r := Nearest(specials, text, pos, n);
      r.Some? ==> forall j :: 0 <= j < r.value.index ==> !OccursAt(text, specials[j].0, r.value.pos)
  {
    if n > 0 {
      NearestIsListedFirst(specials, text, pos, n - 1);
      NearestIsFirst(specials, text, pos, n - 1);
    }
  }

  /** What one round of the loop deals with: a plain stretch, possibly empty, and the special token that ends it. */
  datatype Round = Round(plain: ByteString, special: Option<(ByteString, int)>) {
    function Text(): ByteString { plain + if special.None? then [] else special.value.0 }
  }

  function NextRound(specials: seq<(ByteString, int)>, text: ByteString, pos: nat): (r: (Round, nat))
    requires SpecialsNonEmpty(specials) && pos < |text|
    ensures pos < r.1 <= |text|
  {
    match Nearest(specials, text, pos, |specials|)
    case None => (Round(text[pos..], None), |text|)
    case Some(h) => (Round(text[pos..h.pos], Some(specials[h.index])), h.pos + |specials[h.index].0|)
  }

  function Cut(specials: seq<(ByteString, int)>, text: ByteString, pos: nat): seq<Round>
    requires SpecialsNonEmpty(specials) && pos <= |text|
    decreases |text| - pos
  {
    if pos == |text| then []
    else
      var (round, next) := NextRound(specials, text, pos);
      [round] + Cut(specials, text, next)
  }

  function EncodeRound(v: Vocabulary, round: Round): seq<int> {
    EncodeSegment(v, round.plain) + if round.special.None? then [] else [round.special.value.1]
  }

  function EncodeRounds(v: Vocabulary, rounds: seq<Round>): seq<int> {
    if rounds == [] then [] else EncodeRounds(v, rounds[..|rounds| - 1]) + EncodeRound(v, rounds[|rounds| - 1])
  }

  function EncodeText(v: Vocabulary, text: ByteString): seq<int>
    requires SpecialsNonEmpty(v.specials)
  {
    if text == [] || v.ids == map[] then [] else EncodeRounds(v, Cut(v.specials, text, 0))
  }

  // ---------------------------------------------------------------- decoding

  function DecodeToken(v: Vocabulary, id: int): ByteString {
    if id !in v.tokens || Suppressed(v.tokens[id]) then []
    else
      DecodeIsEncodable(v.tokens[id]);
      UnmapAll(v.toByte, Decode(v.tokens[id]))
  }

  function DecodeIds(v: Vocabulary, ids: seq<int>): ByteString {
    if ids == [] then [] else DecodeToken(v, ids[0]) + DecodeIds(v, ids[1..])
  }

  // ---------------------------------------------------------------- the tokenizer object

  class QwenTokenizer {
    var v: Vocabulary
    var cache: map<ByteString, Word>

    /** The byte tables are the constructor's, and every memoised result is the one merging would give. */
    ghost predicate Valid()
      reads this
    {
      && Tables(v.toSymbol, v.toByte)
      && forall p :: p in cache ==> cache[p] == Pieces(v.ranks, p)
    }

    constructor (categories: Scanner.Table)
      ensures Valid() && cache == map[]
      ensures v.categories == categories && v.ids == map[] && v.tokens == map[] && v.ranks == map[] && v.specials == []
    {
      var toSymbol, toByte := InitByteEncoder();
      v := Vocabulary(categories, map[], map[], map[], [], toSymbol, toByte);
      cache := map[];
    }

    /** New tables drop the memo table, which was computed with the old ranks. */
    method Load(ids: map<ByteString, int>, tokens: map<int, ByteString>, ranks: Ranks, specials: seq<(ByteString, int)>)
      requires Valid()
      modifies this
      ensures Valid() && cache == map[]
      ensures v == old(v).(ids := ids, tokens := tokens, ranks := ranks, specials := specials)
    {
      cache := map[];
      v := v.(ids := ids, tokens := tokens, ranks := ranks, specials := specials);
    }

    /** Merging with the memo table. */
    method BpeMerge(piece: ByteString) returns (word: Word)
      requires Valid()
      modifies this`cache
      ensures Valid() && word == Pieces(v.ranks, piece)
    {
      if piece == [] { return []; }
      if piece in cache { return cache[piece]; }
      var cps := Utf8ToCodepoints(piece);
      DecodeIsEncodable(piece);
      var start := SplitCharacters(cps);
      word := MergeToFixpoint(v.ranks, start);
      cache := cache[piece := word];
    }

    /** The id of one byte's symbol, if there is one. */
    method FallbackByte(b: byte) returns (ids: seq<int>)
      requires Valid()
      ensures ids == FallbackOne(v, b)
    {
      ids := [];
      if b in v.toSymbol {
        var s := v.toSymbol[b];
        if s in v.ids {
          ids := [v.ids[s]];
        }
      }
    }

    method EncodeOnePiece(piece: ByteString) returns (tokens: seq<int>)
      requires Valid()
      ensures tokens == EncodePiece(v, piece)
    {
      if piece in v.ids { return [v.ids[piece]]; }
      tokens := [];
      ghost var all := Fallback(v, piece);
      ghost var rest := all;
      assert piece[0..] == piece;
      for i := 0 to |piece|
        invariant rest == Fallback(v, piece[i..]) && all == tokens + rest
      {
        assert piece[i..][1..] == piece[i + 1..];
        var ids := FallbackByte(piece[i]);
        rest := Fallback(v, piece[i + 1..]);
        Assoc(tokens, ids, rest);
        tokens := tokens + ids;
      }
    }

    /** Each byte of a chunk through the symbol table. */
    method SymbolsOf(chunk: ByteString) returns (encoded: ByteString)
      requires Valid()
      ensures encoded == Symbols(chunk)
    {
      encoded := [];
      assert chunk[..0] == [];
      for i := 0 to |chunk|
        invariant encoded == Symbols(chunk[..i])
      {
        assert chunk[..i + 1] == chunk[..i] + [chunk[i]];
        SymbolsAppend(chunk[..i], [chunk[i]]);
        SymbolsCons(chunk[i], []);
        assert [chunk[i]] + [] == [chunk[i]];
        if chunk[i] in v.toSymbol {
          encoded := encoded + v.toSymbol[chunk[i]];
        } else {
          assert false;
        }
      }
      assert chunk[..|chunk|] == chunk;
    }

    method EncodeOneChunk(chunk: ByteString) returns (tokens: seq<int>)
      requires Valid()
      modifies this`cache
      ensures Valid() && tokens == EncodeChunk(v, chunk)
    {
      var encoded := SymbolsOf(chunk);
      var pieces := BpeMerge(encoded);
      tokens := [];
      var i := 0;
      ghost var rest := EncodePieces(v, pieces);
      assert pieces[0..] == pieces;
      while i < |pieces|
        invariant 0 <= i <= |pieces|
        invariant Valid()
        invariant rest == EncodePieces(v, pieces[i..]) && EncodePieces(v, pieces) == tokens + rest
      {
        var t := EncodeOnePiece(pieces[i]);
        assert pieces[i..][1..] == pieces[i + 1..];
        assert rest == t + EncodePieces(v, pieces[i + 1..]);
        rest := EncodePieces(v, pieces[i + 1..]);
        Assoc(tokens, t, rest);
        tokens := tokens + t;
        i := i + 1;
      }
    }

    method EncodeOneSegment(seg: ByteString) returns (tokens: seq<int>)
      requires Valid()
      modifies this`cache
      ensures Valid() && tokens == EncodeSegment(v, seg)
    {
      if seg == [] { return []; }
      var cps := Utf8ToCodepoints(seg);
      DecodeIsEncodable(seg);
      tokens := EncodeRanges(cps);
    }

    /** The chunks the scanner cuts, encoded one after the other. */
    method EncodeRanges(cps: CodePoints) returns (tokens: seq<int>)
      requires Valid() && Encodable(cps)
      modifies this`cache
      ensures Valid() && tokens == EncodeFrom(v, cps, 0)
    {
      var ranges := Scanner.SplitQwen35(v.categories, cps);
      tokens := [];
      var k := 0;
      ghost var pos: nat := 0;
      ghost var rest := EncodeFrom(v, cps, 0);
      while k < |ranges|
        invariant 0 <= k <= |ranges| && pos <= |cps|
        invariant Valid()
        invariant ranges[k..] == Scanner.Split(v.categories, cps, pos)
        invariant rest == EncodeFrom(v, cps, pos) && EncodeFrom(v, cps, 0) == tokens + rest
      {
        SplitStep(v.categories, cps, pos, ranges, k);
        var chunk := EncodeSlice(cps, ranges[k].0, ranges[k].1);
        var t := EncodeOneChunk(chunk);
        assert rest == t + EncodeFrom(v, cps, ranges[k].1);
        pos := ranges[k].1;
        rest := EncodeFrom(v, cps, pos);
        Assoc(tokens, t, rest);
        tokens := tokens + t;
        k := k + 1;
      }
    }

    method FindNearest(text: ByteString, pos: nat) returns (hit: Option<Hit>)
      ensures hit == Nearest(v.specials, text, pos, |v.specials|)
    {
      hit := None;
      for s := 0 to |v.specials|
        invariant hit == Nearest(v.specials, text, pos, s)
      {
        var p := Find(text, v.specials[s].0, pos);
        if p.Some? && (hit.None? || p.value < hit.value.pos) {
          hit := Some(Hit(p.value, s));
        }
      }
    }

    method EncodeOneRound(text: ByteString, pos: nat) returns (tokens: seq<int>, next: nat)
      requires Valid() && SpecialsNonEmpty(v.specials) && pos < |text|
      modifies this`cache
      ensures Valid() && next == NextRound(v.specials, text, pos).1
      ensures tokens == EncodeRound(v, NextRound(v.specials, text, pos).0)
    {
      tokens := [];
      var hit := FindNearest(text, pos);
      var end := if hit.None? then |text| else hit.value.pos;
      if end > pos {
        assert text[pos..|text|] == text[pos..];
        tokens := EncodeOneSegment(text[pos..end]);
      }
      if hit.Some? {
        tokens := tokens + [v.specials[hit.value.index].1];
        next := hit.value.pos + |v.specials[hit.value.index].0|;
      } else {
        next := |text|;
      }
    }

    /** `encode`. With an empty special token the source's loop need not end. */
    method Encode(text: ByteString) returns (tokens: seq<int>)
      requires Valid() && SpecialsNonEmpty(v.specials)
      modifies this`cache
      ensures Valid() && tokens == EncodeText(v, text)
    {
      if text == [] || v.ids == map[] { return []; }
      tokens := [];
      var pos := 0;
      ghost var done, rest: seq<Round> := [], Cut(v.specials, text, 0);
      while pos < |text|
        invariant 0 <= pos <= |text|
        invariant Valid()
        invariant rest == Cut(v.specials, text, pos) && Cut(v.specials, text, 0) == done + rest
        invariant tokens == EncodeRounds(v, done)
        decreases |text| - pos
      {
        ghost var round := NextRound(v.specials, text, pos).0;
        var t, next := EncodeOneRound(text, pos);
        assert rest == [round] + Cut(v.specials, text, next);
        rest := Cut(v.specials, text, next);
        Assoc(done, [round], rest);
        done := done + [round];
        assert done[..|done| - 1] + [round] == done;
        tokens, pos := tokens + t, next;
      }
      assert done + [] == done;
    }

    method DecodeOne(id: int) returns (text: ByteString)
      requires Valid()
      ensures text == DecodeToken(v, id)
    {
      if id !in v.tokens { return []; }
      var piece := v.tokens[id];
      if Suppressed(piece) { return []; }
      var cps := Utf8ToCodepoints(piece);
      DecodeIsEncodable(piece);
      text := UnmapCharacters(v.toByte, cps);
    }

    method DecodeAll(ids: seq<int>) returns (text: ByteString)
      requires Valid()
      ensures text == DecodeIds(v, ids)
    {
      text := [];
      var i := 0;
      ghost var rest := DecodeIds(v, ids);
      assert ids[0..] == ids;
      while i < |ids|
        invariant 0 <= i <= |ids|
        invariant rest == DecodeIds(v, ids[i..]) && DecodeIds(v, ids) == text + rest
      {
        assert ids[i..][1..] == ids[i + 1..];
        var t := DecodeOne(ids[i]);
        text := text + t;
        i := i + 1;
        rest := DecodeIds(v, ids[i..]);
      }
    }
  }

  lemma UnmapStep(toByte: map<ByteString, byte>, cps: CodePoints, i: nat)
    requires Encodable(cps) && i < |cps|
    ensures UnmapAll(toByte, cps[i..]) == Unmap(toByte, cps[i]) + UnmapAll(toByte, cps[i + 1..])
  {
    assert cps[i..][1..] == cps[i + 1..];
  }

  /** One character of a token: the byte its symbol stands for, or its own bytes. */
  method UnmapOne(toByte: map<ByteString, byte>, cp: nat) returns (t: ByteString)
    requires cp < LIMIT
    ensures t == Unmap(toByte, cp)
  {
    var s := Utf8.Encode(cp);
    if s in toByte {
      t := [toByte[s]];
    } else {
      t := s;
    }
  }

  method UnmapCharacters(toByte: map<ByteString, byte>, cps: CodePoints) returns (text: ByteString)
    requires Encodable(cps)
    ensures text == UnmapAll(toByte, cps)
  {
    text := [];
    var i := 0;
    ghost var all := UnmapAll(toByte, cps);
    ghost var rest := all;
    assert cps[0..] == cps;
    while i < |cps|
      invariant 0 <= i <= |cps|
      invariant rest == UnmapAll(toByte, cps[i..]) && all == text + rest
    {
      UnmapStep(toByte, cps, i);
      var t := UnmapOne(toByte, cps[i]);
      rest := UnmapAll(toByte, cps[i + 1..]);
      Assoc(text, t, rest);
      text, i := text + t, i + 1;
    }
  }

  /** The UTF-8 of a range of code points, character by character. */
  method EncodeSlice(cps: CodePoints, lo: nat, hi: nat) returns (chunk: ByteString)
    requires Encodable(cps) && lo <= hi <= |cps|
    ensures chunk == EncodeAll(cps[lo..hi])
  {
    chunk := [];
    var i := lo;
    ghost var all := cps[lo..hi];
    while i < hi
      invariant lo <= i <= hi && chunk == EncodeAll(cps[lo..i])
    {
      assert cps[lo..i + 1] == cps[lo..i] + [cps[i]];
      EncodeAllAppend(cps[lo..i], [cps[i]]);
      EncodeCons(cps[i], []);
      assert [cps[i]] + [] == [cps[i]];
      chunk := chunk + Utf8.Encode(cps[i]);
      i := i + 1;
    }
  }
}
