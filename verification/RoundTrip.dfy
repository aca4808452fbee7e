/**
  Decoding undoes encoding (src/targets/qwen3_8/tokenizer.cpp:751-863). Every id that encoding emits accounts for a
  non-empty stretch of the text, and the stretches put together are the text; decoding returns each stretch, except for
  the three tokens it suppresses.
 */
module RoundTrip {
  import opened Bytes
  import opened Utf8
  import opened ByteSymbols
  import opened Bpe
  import opened Tokenizer
  import Scanner

  // ---------------------------------------------------------------- vocabularies

  ghost predicate InverseTables(v: Vocabulary) {
    forall p :: p in v.ids ==> v.ids[p] in v.tokens && v.tokens[v.ids[p]] == p
  }

  /** Every byte symbol is a token, and so is every pair that can be merged. */
  ghost predicate Closed(v: Vocabulary) {
    && (forall b: byte :: Symbol(b) in v.ids)
    && (forall a: ByteString, b: ByteString :: Key(a, b) in v.ranks ==> a + b in v.ids)
  }

  /** Special tokens are non-empty text that decodes to itself, and their ids name them. */
  ghost predicate GoodSpecial(v: Vocabulary, content: ByteString, id: int) {
    && content != [] && WellFormed(content)
    && (forall i :: 0 <= i < |Decode(content)| ==> Transparent(Decode(content)[i]))
    && id in v.tokens && v.tokens[id] == content
  }

  ghost predicate GoodSpecials(v: Vocabulary) {
    forall i :: 0 <= i < |v.specials| ==> GoodSpecial(v, v.specials[i].0, v.specials[i].1)
  }

  ghost predicate ValidVocabulary(v: Vocabulary) {
    Tables(v.toSymbol, v.toByte) && InverseTables(v) && Closed(v) && GoodSpecials(v)
  }

  // ---------------------------------------------------------------- accounting for text

  /** The id stands for this stretch of text: decoding returns it, or suppresses the token that it is. */
  ghost predicate StandsFor(v: Vocabulary, id: int, part: ByteString) {
    && part != [] && id in v.tokens
    && if Suppressed(v.tokens[id]) then v.tokens[id] == part else DecodeToken(v, id) == part
  }

  ghost predicate Accounts(v: Vocabulary, ids: seq<int>, parts: seq<ByteString>) {
    |ids| == |parts| && forall i :: 0 <= i < |ids| ==> StandsFor(v, ids[i], parts[i])
  }

  ghost predicate NoneSuppressed(v: Vocabulary, ids: seq<int>) {
    forall i :: 0 <= i < |ids| ==> ids[i] in v.tokens ==> !Suppressed(v.tokens[ids[i]])
  }

  /** If the ids account for a text, decoding gives it back exactly when no token is suppressed. */
  lemma {:induction false} DecodesIff(v: Vocabulary, ids: seq<int>, parts: seq<ByteString>)
    requires Accounts(v, ids, parts)
    ensures |DecodeIds(v, ids)| <= |Concat(parts)|
    ensures NoneSuppressed(v, ids) ==> DecodeIds(v, ids) == Concat(parts)
    ensures !NoneSuppressed(v, ids) ==> |DecodeIds(v, ids)| < |Concat(parts)|
  {
    if ids != [] {
      assert StandsFor(v, ids[0], parts[0]);
      DecodesIff(v, ids[1..], parts[1..]);
      assert !NoneSuppressed(v, ids) ==> Suppressed(v.tokens[ids[0]]) || !NoneSuppressed(v, ids[1..]);
    }
  }

  // ---------------------------------------------------------------- merging keeps the accounts

  /** The pieces of a word are the symbols of non-empty byte strings, and tokens. */
  ghost predicate Spells(v: Vocabulary, word: Word, parts: seq<ByteString>) {
    && |word| == |parts|
    && forall i :: 0 <= i < |word| ==> Spelled(v, word[i], parts[i])
  }

  ghost predicate Spelled(v: Vocabulary, piece: ByteString, part: ByteString) {
    part != [] && piece == Symbols(part) && piece in v.ids
  }

  lemma PairIsSpelled(v: Vocabulary, a: Piece, b: Piece, p: ByteString, q: ByteString)
    requires Closed(v) && Key(a, b) in v.ranks && Spelled(v, a, p) && Spelled(v, b, q)
    ensures Spelled(v, a + b, p + q)
  {
    SymbolsAppend(p, q);
  }

  lemma SpellsCons(v: Vocabulary, piece: Piece, part: ByteString, word: Word, parts: seq<ByteString>)
    requires Spelled(v, piece, part) && Spells(v, word, parts)
    ensures Spells(v, [piece] + word, [part] + parts) && Concat([part] + parts) == part + Concat(parts)
  {
    assert ([part] + parts)[1..] == parts;
  }

  lemma {:induction false} MergeSpells(v: Vocabulary, word: Word, a: Piece, b: Piece, parts: seq<ByteString>)
    returns (merged: seq<ByteString>)
    requires Closed(v) && Key(a, b) in v.ranks && Spells(v, word, parts)
    ensures Spells(v, Merge(word, a, b), merged) && Concat(merged) == Concat(parts)
    decreases |word|
  {
    if |word| >= 2 && word[0] == a && word[1] == b {
      var rest := MergeSpells(v, word[2..], a, b, parts[2..]);
      assert Spelled(v, word[0], parts[0]) && Spelled(v, word[1], parts[1]);
      PairIsSpelled(v, a, b, parts[0], parts[1]);
      SpellsCons(v, a + b, parts[0] + parts[1], Merge(word[2..], a, b), rest);
      merged := [parts[0] + parts[1]] + rest;
      assert parts[1..][1..] == parts[2..];
      Assoc(parts[0], parts[1], Concat(parts[2..]));
    } else if word == [] {
      merged := [];
    } else {
      var rest := MergeSpells(v, word[1..], a, b, parts[1..]);
      assert Spelled(v, word[0], parts[0]);
      SpellsCons(v, word[0], parts[0], Merge(word[1..], a, b), rest);
      merged := [parts[0]] + rest;
    }
  }

  lemma {:induction false} BestIsInTable(ranks: Ranks, word: Word, n: nat)
    requires n < |word|
    ensures var c := Best(ranks, word, n); c.rank >= 0 ==> Key(c.first, c.second) in ranks
  {
    if n > 0 { BestIsInTable(ranks, word, n - 1); }
  }

  lemma {:induction false} MergedSpells(v: Vocabulary, word: Word, parts: seq<ByteString>)
    returns (merged: seq<ByteString>)
    requires Closed(v) && Spells(v, word, parts)
    ensures Spells(v, Merged(v.ranks, word), merged) && Concat(merged) == Concat(parts)
    decreases |word|
  {
    merged := parts;
    if |word| > 1 {
      var c := Best(v.ranks, word, |word| - 1);
      if c.rank >= 0 {
        var i :| 0 <= i < |word| - 1 && word[i] == c.first && word[i + 1] == c.second;
        MergeShrinks(word, c.first, c.second, i);
        BestIsInTable(v.ranks, word, |word| - 1);
        merged := MergeSpells(v, word, c.first, c.second, parts);
        merged := MergedSpells(v, Merge(word, c.first, c.second), merged);
      }
    }
  }

  function Singles(bs: ByteString): (r: seq<ByteString>)
    ensures |r| == |bs| && forall i :: 0 <= i < |bs| ==> r[i] == [bs[i]]
  {
    if bs == [] then [] else [[bs[0]]] + Singles(bs[1..])
  }

  lemma {:induction false} ConcatSingles(bs: ByteString)
    ensures Concat(Singles(bs)) == bs
  {
    if bs != [] { ConcatSingles(bs[1..]); }
  }

  /** The pieces of a chunk's symbols spell the chunk. */
  lemma PiecesSpell(v: Vocabulary, chunk: ByteString) returns (parts: seq<ByteString>)
    requires Closed(v)
    ensures Spells(v, Pieces(v.ranks, Symbols(chunk)), parts) && Concat(parts) == chunk
  {
    DecodeSymbols(chunk);
    var word := SplitCharacters(SymbolCps(chunk));
    forall i | 0 <= i < |word|
      ensures Spelled(v, word[i], Singles(chunk)[i])
    {
      SymbolsCons(chunk[i], []);
      assert [chunk[i]] + [] == [chunk[i]] && Symbol(chunk[i]) + [] == Symbol(chunk[i]);
      assert Symbol(chunk[i]) in v.ids;
    }
    ConcatSingles(chunk);
    parts := MergedSpells(v, word, Singles(chunk));
  }

  lemma MarkersAreSymbols(marker: ByteString, part: ByteString)
    requires Suppressed(marker) && marker == Symbols(part)
    ensures part == marker
  {
    assert Ascii33To126(marker);
    PrintableIsItself(marker);
    SymbolsInjective(part, marker);
  }

  /** A piece that spells a stretch of text has an id that stands for it. */
  lemma PieceStandsFor(v: Vocabulary, piece: ByteString, part: ByteString)
    requires Tables(v.toSymbol, v.toByte) && InverseTables(v) && Spelled(v, piece, part)
    ensures StandsFor(v, v.ids[piece], part)
  {
    DecodeSymbols(part);
    UnmapSymbols(v.toSymbol, v.toByte, part);
    if Suppressed(piece) { MarkersAreSymbols(piece, part); }
  }

  /** The fallback is never reached: every piece has an id, and the ids account for the text. */
  lemma {:induction false} PiecesAccount(v: Vocabulary, word: Word, parts: seq<ByteString>)
    requires Tables(v.toSymbol, v.toByte) && InverseTables(v) && Spells(v, word, parts)
    ensures Accounts(v, EncodePieces(v, word), parts)
    ensures |EncodePieces(v, word)| == |word| && forall i :: 0 <= i < |word| ==> EncodePieces(v, word)[i] == v.ids[word[i]]
  {
    if word != [] {
      assert Spelled(v, word[0], parts[0]);
      PieceStandsFor(v, word[0], parts[0]);
      PiecesAccount(v, word[1..], parts[1..]);
    }
  }

  // ---------------------------------------------------------------- chunks, segments, the whole text

  lemma AccountsAppend(v: Vocabulary, a: seq<int>, p: seq<ByteString>, b: seq<int>, q: seq<ByteString>)
    requires Accounts(v, a, p) && Accounts(v, b, q)
    ensures Accounts(v, a + b, p + q) && Concat(p + q) == Concat(p) + Concat(q)
  {
    ConcatAppend(p, q);
    forall i | 0 <= i < |a + b|
      ensures StandsFor(v, (a + b)[i], (p + q)[i])
    {
      if i < |a| {
        assert StandsFor(v, a[i], p[i]);
      } else {
        assert StandsFor(v, b[i - |a|], q[i - |a|]);
      }
    }
  }

  lemma ChunkAccounts(v: Vocabulary, chunk: ByteString) returns (parts: seq<ByteString>)
    requires ValidVocabulary(v)
    ensures Accounts(v, EncodeChunk(v, chunk), parts) && Concat(parts) == chunk
  {
    parts := PiecesSpell(v, chunk);
    PiecesAccount(v, Pieces(v.ranks, Symbols(chunk)), parts);
  }

  lemma EncodeFromStep(v: Vocabulary, cps: CodePoints, i: nat, e: nat)
    requires Encodable(cps) && i < |cps| && e == Scanner.ScanEnd(v.categories, cps, i)
    ensures EncodeFrom(v, cps, i) == EncodeChunk(v, EncodeAll(cps[i..e])) + EncodeFrom(v, cps, e)
    ensures EncodeAll(cps[i..]) == EncodeAll(cps[i..e]) + EncodeAll(cps[e..])
  {
    assert cps[i..] == cps[i..e] + cps[e..];
    EncodeAllAppend(cps[i..e], cps[e..]);
  }

  lemma {:induction false} RangesAccount(v: Vocabulary, cps: CodePoints, i: nat) returns (parts: seq<ByteString>)
    requires ValidVocabulary(v) && Encodable(cps) && i <= |cps|
    ensures Accounts(v, EncodeFrom(v, cps, i), parts) && Concat(parts) == EncodeAll(cps[i..])
    decreases |cps| - i
  {
    if i == |cps| {
      parts := [];
    } else {
      var e := Scanner.ScanEnd(v.categories, cps, i);
      var chunk := EncodeAll(cps[i..e]);
      var p := ChunkAccounts(v, chunk);
      var q := RangesAccount(v, cps, e);
      AccountsAppend(v, EncodeChunk(v, chunk), p, EncodeFrom(v, cps, e), q);
      parts := p + q;
      EncodeFromStep(v, cps, i, e);
    }
  }

  lemma SegmentAccounts(v: Vocabulary, seg: ByteString) returns (parts: seq<ByteString>)
    requires ValidVocabulary(v) && WellFormed(seg)
    ensures Accounts(v, EncodeSegment(v, seg), parts) && Concat(parts) == seg
  {
    DecodeWellFormed(seg);
    parts := RangesAccount(v, Decode(seg), 0);
    assert Decode(seg)[0..] == Decode(seg);
  }

  lemma SpecialStandsFor(v: Vocabulary, content: ByteString, id: int)
    requires Tables(v.toSymbol, v.toByte) && GoodSpecial(v, content, id)
    ensures StandsFor(v, id, content)
  {
    DecodesToItselfIff(v.toSymbol, v.toByte, content);
  }

  ghost predicate GoodRound(v: Vocabulary, round: Round) {
    WellFormed(round.plain) && (round.special.Some? ==> GoodSpecial(v, round.special.value.0, round.special.value.1))
  }

  ghost predicate GoodRounds(v: Vocabulary, rounds: seq<Round>) {
    forall i :: 0 <= i < |rounds| ==> GoodRound(v, rounds[i])
  }

  function TextOf(rounds: seq<Round>): ByteString {
    if rounds == [] then [] else TextOf(rounds[..|rounds| - 1]) + rounds[|rounds| - 1].Text()
  }

  lemma {:induction false} TextOfCons(round: Round, rest: seq<Round>)
    ensures TextOf([round] + rest) == round.Text() + TextOf(rest)
  {
    if rest == [] {
      assert ([round] + rest)[..0] == [];
    } else {
      var n := |rest| - 1;
      assert ([round] + rest)[..n + 1] == [round] + rest[..n];
      TextOfCons(round, rest[..n]);
      Assoc(round.Text(), TextOf(rest[..n]), rest[n].Text());
    }
  }

  lemma RoundAccounts(v: Vocabulary, round: Round) returns (parts: seq<ByteString>)
    requires ValidVocabulary(v) && GoodRound(v, round)
    ensures Accounts(v, EncodeRound(v, round), parts) && Concat(parts) == round.Text()
  {
    parts := SegmentAccounts(v, round.plain);
    if round.special.Some? {
      SpecialAccounts(v, round.special.value.0, round.special.value.1);
      AccountsAppend(v, EncodeSegment(v, round.plain), parts, [round.special.value.1], [round.special.value.0]);
      parts := parts + [round.special.value.0];
    }
  }

  lemma SpecialAccounts(v: Vocabulary, content: ByteString, id: int)
    requires Tables(v.toSymbol, v.toByte) && GoodSpecial(v, content, id)
    ensures Accounts(v, [id], [content]) && Concat([content]) == content
  {
    SpecialStandsFor(v, content, id);
    assert Concat([content]) == content + Concat([]);
  }

  lemma {:induction false} RoundsAccount(v: Vocabulary, rounds: seq<Round>) returns (parts: seq<ByteString>)
    requires ValidVocabulary(v) && GoodRounds(v, rounds)
    ensures Accounts(v, EncodeRounds(v, rounds), parts) && Concat(parts) == TextOf(rounds)
  {
    if rounds == [] {
      parts := [];
    } else {
      var n := |rounds| - 1;
      var p := RoundsAccount(v, rounds[..n]);
      var q := RoundAccounts(v, rounds[n]);
      AccountsAppend(v, EncodeRounds(v, rounds[..n]), p, EncodeRound(v, rounds[n]), q);
      parts := p + q;
    }
  }

  lemma SliceAround(text: ByteString, pos: nat, p: nat, content: ByteString)
    requires pos <= p && OccursAt(text, content, p)
    ensures text[pos..] == text[pos..p] + content + text[p + |content|..]
  {
  }

  /** One round takes the text apart: a plain stretch, a special token of the list if there is one, and what is left. */
  lemma RoundParts(specials: seq<(ByteString, int)>, text: ByteString, pos: nat, round: Round, next: nat)
    requires SpecialsNonEmpty(specials) && pos < |text| && NextRound(specials, text, pos) == (round, next)
    ensures text[pos..] == round.Text() + text[next..]
    ensures round.special.None? ==> text[next..] == []
    ensures round.special.Some? ==> round.special.value in specials
  {
    var hit := Nearest(specials, text, pos, |specials|);
    NearestIsFirst(specials, text, pos, |specials|);
    if hit.Some? {
      SliceAround(text, pos, hit.value.pos, specials[hit.value.index].0);
    } else {
      assert text[pos..] + [] == text[pos..];
    }
  }

  /** It does so at a character boundary. */
  lemma RoundIsGood(v: Vocabulary, whole: ByteString, round: Round, after: ByteString)
    requires GoodSpecials(v) && WellFormed(whole) && whole == round.Text() + after
    requires round.special.None? ==> after == []
    requires round.special.Some? ==> round.special.value in v.specials
    ensures GoodRound(v, round) && WellFormed(after)
  {
    if round.special.Some? {
      var (content, id) := round.special.value;
      assert GoodSpecial(v, content, id);
      CutAround(round.plain, content, after);
    } else {
      assert round.plain + [] == round.plain && whole == round.plain;
    }
  }

  /** Cutting well-formed text at special tokens loses nothing and never cuts inside a character. */
  lemma {:induction false} CutIsGood(v: Vocabulary, text: ByteString, pos: nat, whole: ByteString)
    requires GoodSpecials(v) && SpecialsNonEmpty(v.specials) && pos <= |text| && whole == text[pos..] && WellFormed(whole)
    ensures TextOf(Cut(v.specials, text, pos)) == whole && GoodRounds(v, Cut(v.specials, text, pos))
    decreases |text| - pos
  {
    if pos < |text| {
      var (round, next) := NextRound(v.specials, text, pos);
      var after := text[next..];
      RoundParts(v.specials, text, pos, round, next);
      RoundIsGood(v, whole, round, after);
      CutIsGood(v, text, next, after);
      TextOfCons(round, Cut(v.specials, text, next));
    }
  }

  // ---------------------------------------------------------------- the theorems

  /** Every id of an encoded text stands for a stretch of it. */
  lemma EncodingAccounts(v: Vocabulary, text: ByteString) returns (parts: seq<ByteString>)
    requires ValidVocabulary(v) && SpecialsNonEmpty(v.specials) && WellFormed(text)
    ensures Accounts(v, EncodeText(v, text), parts) && Concat(parts) == text
  {
    assert Symbol(0) in v.ids;
    assert text[0..] == text;
    if text == [] {
      parts := [];
    } else {
      CutIsGood(v, text, 0, text);
      parts := RoundsAccount(v, Cut(v.specials, text, 0));
    }
  }

  /** Decoding an encoded text gives it back if and only if no emitted token is one of the suppressed three. */
  lemma RoundTripIff(v: Vocabulary, text: ByteString)
    requires ValidVocabulary(v) && SpecialsNonEmpty(v.specials) && WellFormed(text)
    ensures DecodeIds(v, EncodeText(v, text)) == text <==> NoneSuppressed(v, EncodeText(v, text))
  {
    var parts := EncodingAccounts(v, text);
    DecodesIff(v, EncodeText(v, text), parts);
  }

  ghost predicate FreeOfMarkers(text: ByteString) {
    forall p: nat, m: ByteString :: OccursAt(text, m, p) ==> !Suppressed(m)
  }

  lemma {:induction false} PartOccurs(parts: seq<ByteString>, i: nat) returns (p: nat)
    requires i < |parts|
    ensures OccursAt(Concat(parts), parts[i], p)
  {
    if i == 0 {
      p := 0;
    } else {
      var q := PartOccurs(parts[1..], i - 1);
      p := |parts[0]| + q;
      assert Concat(parts)[|parts[0]|..] == Concat(parts[1..]);
    }
  }

  /** Text in which no suppressed marker occurs survives the round trip. */
  lemma MarkerFreeTextRoundTrips(v: Vocabulary, text: ByteString)
    requires ValidVocabulary(v) && SpecialsNonEmpty(v.specials) && WellFormed(text) && FreeOfMarkers(text)
    ensures DecodeIds(v, EncodeText(v, text)) == text
  {
    var ids := EncodeText(v, text);
    var parts := EncodingAccounts(v, text);
    forall i | 0 <= i < |ids|
      ensures !Suppressed(v.tokens[ids[i]])
    {
      assert StandsFor(v, ids[i], parts[i]);
      var p := PartOccurs(parts, i);
    }
    RoundTripIff(v, text);
  }

  // ---------------------------------------------------------------- texts with markers

  ghost predicate IsSpecial(specials: seq<(ByteString, int)>, content: ByteString) {
    exists k :: 0 <= k < |specials| && specials[k].0 == content
  }

  /** `d` occurs at `q`, inside the occurrence of `c` at `p` or starting there. */
  ghost predicate Overlap(text: ByteString, c: ByteString, p: nat, d: ByteString, q: nat) {
    OccursAt(text, c, p) && OccursAt(text, d, q) && p <= q < p + |c|
  }

  /** Occurrences of two special tokens in a text never overlap, unless they are the same. */
  ghost predicate StandAlone(specials: seq<(ByteString, int)>) {
    forall text, i, j, p, q ::
      0 <= i < |specials| && 0 <= j < |specials| && Overlap(text, specials[i].0, p, specials[j].0, q) ==>
        p == q && specials[i].0 == specials[j].0
  }

  ghost predicate EndsWith(round: Round, content: ByteString) {
    round.special.Some? && round.special.value.0 == content
  }

  /** The next round ends with the token that occurs at `q`, or before that occurrence. */
  lemma RoundIsNotPast(specials: seq<(ByteString, int)>, text: ByteString, pos: nat, k: nat, q: nat)
    requires SpecialsNonEmpty(specials) && StandAlone(specials) && pos <= q && pos < |text|
    requires k < |specials| && OccursAt(text, specials[k].0, q)
    ensures EndsWith(NextRound(specials, text, pos).0, specials[k].0) || NextRound(specials, text, pos).1 <= q
  {
    NearestIsFirst(specials, text, pos, |specials|);
    var h := Nearest(specials, text, pos, |specials|).value;
    var c, d := specials[h.index].0, specials[k].0;
    assert Overlap(text, c, h.pos, d, q) || h.pos + |c| <= q;
  }

  /** A special token that occurs in the text is cut out as such. */
  lemma {:induction false} SpecialIsCut(specials: seq<(ByteString, int)>, text: ByteString, pos: nat, k: nat, q: nat)
    returns (i: nat)
    requires SpecialsNonEmpty(specials) && StandAlone(specials) && pos <= q
    requires k < |specials| && OccursAt(text, specials[k].0, q)
    ensures i < |Cut(specials, text, pos)| && EndsWith(Cut(specials, text, pos)[i], specials[k].0)
    decreases |text| - pos
  {
    assert specials[k].0 != [];
    RoundIsNotPast(specials, text, pos, k, q);
    var (round, next) := NextRound(specials, text, pos);
    if EndsWith(round, specials[k].0) {
      i := 0;
    } else {
      i := SpecialIsCut(specials, text, next, k, q);
      i := i + 1;
    }
  }

  lemma {:induction false} SpecialIsEmitted(v: Vocabulary, rounds: seq<Round>, i: nat) returns (k: nat)
    requires i < |rounds| && rounds[i].special.Some?
    ensures k < |EncodeRounds(v, rounds)| && EncodeRounds(v, rounds)[k] == rounds[i].special.value.1
  {
    var n := |rounds| - 1;
    if i == n {
      k := |EncodeRounds(v, rounds)| - 1;
    } else {
      k := SpecialIsEmitted(v, rounds[..n], i);
    }
  }

  ghost predicate MarkersAreSpecial(v: Vocabulary) {
    forall m :: Suppressed(m) ==> IsSpecial(v.specials, m)
  }

  /**
    When the suppressed markers are special tokens and special tokens stand alone, the texts that survive the round trip
    are exactly those in which no marker occurs.
   */
  lemma RoundTripIffMarkerFree(v: Vocabulary, text: ByteString)
    requires ValidVocabulary(v) && SpecialsNonEmpty(v.specials) && WellFormed(text)
    requires MarkersAreSpecial(v) && StandAlone(v.specials)
    ensures DecodeIds(v, EncodeText(v, text)) == text <==> FreeOfMarkers(text)
  {
    if FreeOfMarkers(text) {
      MarkerFreeTextRoundTrips(v, text);
    } else {
      var q, m :| OccursAt(text, m, q) && Suppressed(m);
      MarkerIsEmitted(v, text, q, m);
      RoundTripIff(v, text);
    }
  }

  lemma MarkerIsEmitted(v: Vocabulary, text: ByteString, q: nat, m: ByteString)
    requires ValidVocabulary(v) && SpecialsNonEmpty(v.specials) && WellFormed(text)
    requires MarkersAreSpecial(v) && StandAlone(v.specials) && OccursAt(text, m, q) && Suppressed(m)
    ensures !NoneSuppressed(v, EncodeText(v, text))
  {
    assert IsSpecial(v.specials, m);
    var k :| 0 <= k < |v.specials| && v.specials[k].0 == m;
    var cut := Cut(v.specials, text, 0);
    var i := SpecialIsCut(v.specials, text, 0, k, q);
    assert text[0..] == text && Symbol(0) in v.ids;
    CutIsGood(v, text, 0, text);
    assert GoodRound(v, cut[i]);
    var e := SpecialIsEmitted(v, cut, i);
  }

  /** The object: whatever its memo table holds by now, decoding what it encodes gives the text back. */
  method EncodeThenDecode(tok: QwenTokenizer, text: ByteString) returns (ids: seq<int>, back: ByteString)
    requires tok.Valid() && SpecialsNonEmpty(tok.v.specials) && ValidVocabulary(tok.v) && WellFormed(text)
    modifies tok`cache
    ensures tok.Valid()
    ensures back == text <==> NoneSuppressed(tok.v, ids)
    ensures FreeOfMarkers(text) ==> back == text
  {
    ids := tok.Encode(text);
    back := tok.DecodeAll(ids);
    RoundTripIff(tok.v, text);
    if FreeOfMarkers(text) { MarkerFreeTextRoundTrips(tok.v, text); }
  }
}
