/**
  What the tokenizer's output is (src/targets/qwen3_8/tokenizer.cpp:688-863), said without the functions that compute it:
  where the text is cut, which ids each stretch of it yields, and which bytes an id stands for.
 */
module Encoding {
  import opened Bytes
  import opened Utf8
  import opened ByteSymbols
  import opened Bpe
  import opened Tokenizer
  import Scanner

  // ---------------------------------------------------------------- one chunk

  lemma SplitOfSymbols(bs: ByteString)
    ensures Encodable(Decode(Symbols(bs)))
    ensures var w := SplitCharacters(Decode(Symbols(bs)));
      |w| == |bs| && forall i :: 0 <= i < |bs| ==> w[i] == Symbol(bs[i])
  {
    DecodeSymbols(bs);
  }

  /** The ids of a piece: its own, or those of the symbols of its bytes that have one. */
  ghost predicate IdsOfPiece(v: Vocabulary, piece: ByteString, ids: seq<int>, parts: seq<seq<int>>) {
    if piece in v.ids then ids == [v.ids[piece]]
    else
      && ids == Concat(parts) && |parts| == |piece|
      && forall i :: 0 <= i < |piece| ==>
           parts[i] == if Symbol(piece[i]) in v.ids then [v.ids[Symbol(piece[i])]] else []
  }

  lemma {:induction false} FallbackParts(v: Vocabulary, piece: ByteString) returns (parts: seq<seq<int>>)
    ensures Fallback(v, piece) == Concat(parts) && |parts| == |piece|
    ensures forall i :: 0 <= i < |piece| ==>
      parts[i] == if Symbol(piece[i]) in v.ids then [v.ids[Symbol(piece[i])]] else []
  {
    if piece == [] { return []; }
    var rest := FallbackParts(v, piece[1..]);
    parts := [FallbackOne(v, piece[0])] + rest;
  }

  ghost predicate HasIds(v: Vocabulary, piece: ByteString, ids: seq<int>) {
    exists parts :: IdsOfPiece(v, piece, ids, parts)
  }

  lemma {:induction false} PieceIds(v: Vocabulary, word: Word) returns (parts: seq<seq<int>>)
    ensures EncodePieces(v, word) == Concat(parts) && |parts| == |word|
    ensures forall k :: 0 <= k < |word| ==> HasIds(v, word[k], parts[k])
  {
    if word == [] { return []; }
    var rest := PieceIds(v, word[1..]);
    var bytes := FallbackParts(v, word[0]);
    assert IdsOfPiece(v, word[0], EncodePiece(v, word[0]), bytes);
    parts := [EncodePiece(v, word[0])] + rest;
  }

  /**
    A chunk's ids are those of the pieces that merging by rank makes of the symbols of its bytes: `words` goes from the
    symbols, one a byte, to the pieces, and `parts` are the pieces' ids.
   */
  lemma ChunkIds(v: Vocabulary, chunk: ByteString) returns (words: seq<Word>, parts: seq<seq<int>>)
    requires RanksArePositions(v.ranks)
    ensures IsMergeChain(v.ranks, words)
    ensures |words[0]| == |chunk| && forall i :: 0 <= i < |chunk| ==> words[0][i] == Symbol(chunk[i])
    ensures var pieces := words[|words| - 1];
      && EncodeChunk(v, chunk) == Concat(parts) && |parts| == |pieces|
      && forall k :: 0 <= k < |pieces| ==> HasIds(v, pieces[k], parts[k])
  {
    SplitOfSymbols(chunk);
    words := MergedIsByRank(v.ranks, SplitCharacters(Decode(Symbols(chunk))));
    parts := PieceIds(v, words[|words| - 1]);
  }

  // ---------------------------------------------------------------- one segment

  /** The ranges follow one another from `i` to the end, each as far as the scanner goes. */
  ghost predicate ScannerRanges(t: Scanner.Table, cps: CodePoints, i: nat, ranges: seq<(nat, nat)>) {
    && i <= |cps| && (ranges == [] <==> i == |cps|)
    && (ranges != [] ==> ranges[0].0 == i && ranges[|ranges| - 1].1 == |cps|)
    && forall k: nat :: k < |ranges| ==> RangeAt(t, cps, ranges, k)
  }

  ghost predicate RangeAt(t: Scanner.Table, cps: CodePoints, ranges: seq<(nat, nat)>, k: nat)
    requires k < |ranges|
  {
    && ranges[k].0 < |cps| && ranges[k].1 == Scanner.ScanEnd(t, cps, ranges[k].0) <= |cps|
    && (k + 1 < |ranges| ==> ranges[k + 1].0 == ranges[k].1)
  }

  /** These are the ids of the chunk in this range. */
  ghost predicate IdsOfRange(v: Vocabulary, cps: CodePoints, range: (nat, nat), ids: seq<int>)
    requires Encodable(cps)
  {
    range.0 <= range.1 <= |cps| && ids == EncodeChunk(v, EncodeAll(cps[range.0..range.1]))
  }

  lemma FromStep(v: Vocabulary, cps: CodePoints, i: nat, e: nat)
    requires Encodable(cps) && i < |cps| && e == Scanner.ScanEnd(v.categories, cps, i)
    ensures EncodeFrom(v, cps, i) == EncodeChunk(v, EncodeAll(cps[i..e])) + EncodeFrom(v, cps, e)
  {
  }

  lemma RangesCons(t: Scanner.Table, cps: CodePoints, i: nat, e: nat, later: seq<(nat, nat)>)
    requires i < |cps| && e == Scanner.ScanEnd(t, cps, i) && ScannerRanges(t, cps, e, later)
    ensures ScannerRanges(t, cps, i, [(i, e)] + later)
  {
    var ranges := [(i, e)] + later;
    forall k: nat | k < |ranges|
      ensures RangeAt(t, cps, ranges, k)
    {
      if k > 0 { assert RangeAt(t, cps, later, k - 1); }
    }
  }

  lemma ConcatCons<T>(part: seq<T>, parts: seq<seq<T>>)
    ensures Concat([part] + parts) == part + Concat(parts)
  {
  }

  lemma {:induction false} FromIds(v: Vocabulary, cps: CodePoints, i: nat) returns (ranges: seq<(nat, nat)>, parts: seq<seq<int>>)
    requires Encodable(cps) && i <= |cps|
    ensures ScannerRanges(v.categories, cps, i, ranges)
    ensures EncodeFrom(v, cps, i) == Concat(parts) && |parts| == |ranges|
    ensures forall k :: 0 <= k < |ranges| ==> IdsOfRange(v, cps, ranges[k], parts[k])
    decreases |cps| - i
  {
    if i == |cps| { return [], []; }
    var e := Scanner.ScanEnd(v.categories, cps, i);
    var ids := EncodeChunk(v, EncodeAll(cps[i..e]));
    var later, rest := FromIds(v, cps, e);
    FromStep(v, cps, i, e);
    RangesCons(v.categories, cps, i, e, later);
    ConcatCons(ids, rest);
    assert IdsOfRange(v, cps, (i, e), ids);
    ranges, parts := [(i, e)] + later, [ids] + rest;
  }

  /** A segment's ids are those of its chunks, each the text of one of the scanner's ranges of its code points. */
  lemma SegmentIds(v: Vocabulary, seg: ByteString) returns (ranges: seq<(nat, nat)>, parts: seq<seq<int>>)
    ensures Encodable(Decode(seg)) && ScannerRanges(v.categories, Decode(seg), 0, ranges)
    ensures EncodeSegment(v, seg) == Concat(parts) && |parts| == |ranges|
    ensures forall k :: 0 <= k < |ranges| ==> IdsOfRange(v, Decode(seg), ranges[k], parts[k])
  {
    DecodeIsEncodable(seg);
    ranges, parts := FromIds(v, Decode(seg), 0);
  }

  // ---------------------------------------------------------------- the whole text

  ghost predicate NoneAt(specials: seq<(ByteString, int)>, text: ByteString, p: nat) {
    forall j :: 0 <= j < |specials| ==> !(p + |specials[j].0| <= |text| && text[p..p + |specials[j].0|] == specials[j].0)
  }

  /**
    From `start` the text is plain up to `h`, the first place where a special token occurs, and that is token `j`, the first
    listed of those that do; or it is plain to its end, with no special token in it.
   */
  ghost predicate IsRound(specials: seq<(ByteString, int)>, text: ByteString, start: nat, round: Round, h: nat, j: nat,
                          next: nat) {
    && start <= h <= |text| && round.plain == text[start..h] && (forall p: nat :: start <= p < h ==> NoneAt(specials, text, p))
    && if round.special == None then h == |text| == next
       else
         && j < |specials| && round.special == Some(specials[j]) && next == h + |specials[j].0| <= |text|
         && text[h..next] == specials[j].0
         && NoneAt(specials[..j], text, h)
  }

  ghost predicate CutsTo(specials: seq<(ByteString, int)>, text: ByteString, start: nat, round: Round, next: nat) {
    exists h, j :: IsRound(specials, text, start, round, h, j, next)
  }

  ghost predicate RoundAt(specials: seq<(ByteString, int)>, text: ByteString, at: seq<nat>, rounds: seq<Round>, k: nat)
    requires k < |rounds| && |at| == |rounds| + 1
  {
    CutsTo(specials, text, at[k], rounds[k], at[k + 1])
  }

  lemma NextIsRound(specials: seq<(ByteString, int)>, text: ByteString, pos: nat) returns (h: nat, j: nat)
    requires SpecialsNonEmpty(specials) && pos < |text|
    ensures var r := NextRound(specials, text, pos); IsRound(specials, text, pos, r.0, h, j, r.1)
  {
    var n := |specials|;
    NearestIsFirst(specials, text, pos, n);
    NearestIsListedFirst(specials, text, pos, n);
    var r := Nearest(specials, text, pos, n);
    h, j := if r.None? then |text| else r.value.pos, if r.None? then 0 else r.value.index;
    forall p: nat | pos <= p < h
      ensures NoneAt(specials, text, p)
    {
      NoHitBefore(specials, text, pos, p, h);
    }
    if r.Some? { FirstListed(specials, text, h, j); }
  }

  lemma NoHitBefore(specials: seq<(ByteString, int)>, text: ByteString, pos: nat, p: nat, h: nat)
    requires pos <= p < h
    requires forall p, j :: pos <= p && 0 <= j < |specials| && OccursAt(text, specials[j].0, p) ==> h <= p
    ensures NoneAt(specials, text, p)
  {
    forall j | 0 <= j < |specials|
      ensures !OccursAt(text, specials[j].0, p)
    {
    }
  }

  lemma FirstListed(specials: seq<(ByteString, int)>, text: ByteString, h: nat, j: nat)
    requires j <= |specials| && forall i :: 0 <= i < j ==> !OccursAt(text, specials[i].0, h)
    ensures NoneAt(specials[..j], text, h)
  {
    forall i | 0 <= i < j
      ensures !OccursAt(text, specials[..j][i].0, h)
    {
      assert specials[..j][i] == specials[i];
    }
  }

  lemma {:induction false} CutIsNearest(specials: seq<(ByteString, int)>, text: ByteString, pos: nat) returns (at: seq<nat>)
    requires SpecialsNonEmpty(specials) && pos <= |text|
    ensures var rounds := Cut(specials, text, pos);
      && |at| == |rounds| + 1 && at[0] == pos && at[|rounds|] == |text|
      && forall k: nat :: k < |rounds| ==> RoundAt(specials, text, at, rounds, k)
    decreases |text| - pos
  {
    if pos == |text| { return [pos]; }
    var rounds := Cut(specials, text, pos);
    var next := NextRound(specials, text, pos).1;
    var h, j := NextIsRound(specials, text, pos);
    var later := CutIsNearest(specials, text, next);
    at := [pos] + later;
    assert rounds[1..] == Cut(specials, text, next);
    forall k: nat | k < |rounds|
      ensures RoundAt(specials, text, at, rounds, k)
    {
      if k == 0 {
        assert CutsTo(specials, text, pos, rounds[0], next);
      } else {
        assert RoundAt(specials, text, later, rounds[1..], k - 1);
      }
    }
  }

  /** A round's ids are those of its plain segment, and then its special token's, if it has one. */
  ghost predicate IdsOfRound(v: Vocabulary, round: Round, ids: seq<int>) {
    ids == EncodeSegment(v, round.plain) + if round.special == None then [] else [round.special.value.1]
  }

  lemma LastRound(v: Vocabulary, rounds: seq<Round>, n: nat) returns (ids: seq<int>)
    requires |rounds| == n + 1
    ensures IdsOfRound(v, rounds[n], ids) && EncodeRounds(v, rounds) == EncodeRounds(v, rounds[..n]) + ids
  {
    ids := EncodeRound(v, rounds[n]);
  }

  /** The two sequences correspond, element by element. */
  ghost predicate Match<A, B>(ok: (A, B) -> bool, xs: seq<A>, ys: seq<B>) {
    |xs| == |ys| && forall k :: 0 <= k < |xs| ==> ok(xs[k], ys[k])
  }

  lemma MatchSnoc<A, B>(ok: (A, B) -> bool, xs: seq<A>, n: nat, ys: seq<B>, y: B)
    requires |xs| == n + 1 && Match(ok, xs[..n], ys) && ok(xs[n], y)
    ensures Match(ok, xs, ys + [y])
  {
    forall k | 0 <= k < |xs|
      ensures ok(xs[k], (ys + [y])[k])
    {
      assert k < n ==> ok(xs[..n][k], ys[k]);
    }
  }

  ghost function RoundIds(v: Vocabulary): (Round, seq<int>) -> bool {
    (round, ids) => IdsOfRound(v, round, ids)
  }

  lemma {:induction false} RoundsIds(v: Vocabulary, rounds: seq<Round>) returns (parts: seq<seq<int>>)
    ensures EncodeRounds(v, rounds) == Concat(parts) && Match(RoundIds(v), rounds, parts)
    decreases |rounds|
  {
    if rounds == [] { return []; }
    var n := |rounds| - 1;
    var before := RoundsIds(v, rounds[..n]);
    var ids := LastRound(v, rounds, n);
    MatchSnoc(RoundIds(v), rounds, n, before, ids);
    ConcatSnoc(before, ids);
    parts := before + [ids];
  }

  /**
    The text's ids: it is cut at the special tokens, nearest first, and each round yields the ids of its plain segment and
    the special token's. Without a vocabulary there are none.
   */
  lemma TextIds(v: Vocabulary, text: ByteString) returns (rounds: seq<Round>, at: seq<nat>, parts: seq<seq<int>>)
    requires SpecialsNonEmpty(v.specials) && v.ids != map[]
    ensures |at| == |rounds| + 1 && at[0] == 0 && at[|rounds|] == |text|
    ensures forall k: nat :: k < |rounds| ==> RoundAt(v.specials, text, at, rounds, k)
    ensures EncodeText(v, text) == Concat(parts) && Match(RoundIds(v), rounds, parts)
  {
    rounds := Cut(v.specials, text, 0);
    at := CutIsNearest(v.specials, text, 0);
    parts := RoundsIds(v, rounds);
  }

  lemma NoVocabularyNoIds(v: Vocabulary, text: ByteString)
    requires SpecialsNonEmpty(v.specials) && v.ids == map[]
    ensures EncodeText(v, text) == []
  {
  }

  // ---------------------------------------------------------------- decoding

  /** The bytes of one code point of a token: the byte whose symbol it is, or else its own encoding. */
  ghost predicate BytesOf(cp: nat, bytes: ByteString) {
    && cp < LIMIT
    && (forall b: byte :: Encode(cp) == Symbol(b) ==> bytes == [b])
    && ((forall b: byte :: Encode(cp) != Symbol(b)) ==> bytes == Encode(cp))
  }

  lemma {:induction false} UnmapParts(v: Vocabulary, cps: CodePoints) returns (parts: seq<ByteString>)
    requires Tables(v.toSymbol, v.toByte) && Encodable(cps)
    ensures UnmapAll(v.toByte, cps) == Concat(parts) && |parts| == |cps|
    ensures forall i :: 0 <= i < |cps| ==> BytesOf(cps[i], parts[i])
  {
    if cps == [] { return []; }
    var rest := UnmapParts(v, cps[1..]);
    UnmapOne(v, cps[0]);
    parts := [Unmap(v.toByte, cps[0])] + rest;
  }

  lemma UnmapOne(v: Vocabulary, cp: nat)
    requires Tables(v.toSymbol, v.toByte) && cp < LIMIT
    ensures BytesOf(cp, Unmap(v.toByte, cp))
  {
    forall b: byte | Encode(cp) == Symbol(b)
      ensures Unmap(v.toByte, cp) == [b]
    {
      assert Symbol(b) in v.toByte;
    }
    if Encode(cp) in v.toByte { assert Encode(cp) == Symbol(v.toByte[Encode(cp)]); }
  }

  /** An id stands for nothing if it is unknown or one of the three markers, and else for its code points' bytes. */
  lemma TokenBytes(v: Vocabulary, id: int) returns (parts: seq<ByteString>)
    requires Tables(v.toSymbol, v.toByte)
    ensures id !in v.tokens ==> DecodeToken(v, id) == []
    ensures id in v.tokens && v.tokens[id] in {Ascii("<|im_start|>"), Ascii("<|im_end|>"), Ascii("<|endoftext|>")} ==>
      DecodeToken(v, id) == []
    ensures id in v.tokens && v.tokens[id] !in {Ascii("<|im_start|>"), Ascii("<|im_end|>"), Ascii("<|endoftext|>")} ==>
      && DecodeToken(v, id) == Concat(parts) && |parts| == |Decode(v.tokens[id])|
      && forall i :: 0 <= i < |parts| ==> BytesOf(Decode(v.tokens[id])[i], parts[i])
  {
    parts := [];
    if id in v.tokens {
      DecodeIsEncodable(v.tokens[id]);
      parts := UnmapParts(v, Decode(v.tokens[id]));
    }
  }

  /** The symbol table: printable bytes stand for themselves, the others for the code points from 256 up, in order. */
  lemma SymbolTable(b: byte)
    ensures SymbolCp(b) == var n := b as nat;
      if n <= 32 then 256 + n else if n <= 126 then n else if n <= 160 then n + 162 else if n == 173 then 323 else n
  {
  }
}
