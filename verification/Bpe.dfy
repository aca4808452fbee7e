/** Rank-ordered byte-pair merging (src/targets/qwen3_8/tokenizer.cpp:688-749). */
module Bpe {
  import opened Bytes

  type Piece = ByteString
  type Word = seq<Piece>
  type Ranks = map<ByteString, int>

  /** The table key of an adjacent pair: both pieces with a blank between them. */
  function Key(a: Piece, b: Piece): ByteString { a + [32] + b }

  /** The best pair seen so far; a negative rank means none. */
  datatype Choice = Choice(rank: int, first: Piece, second: Piece)

  /** The best of the first `n` adjacent pairs, as the scan finds it. */
  function Best(ranks: Ranks, word: Word, n: nat): (c: Choice)
    requires n < |word|
    ensures c.rank >= 0 ==> exists i :: 0 <= i < n && word[i] == c.first && word[i + 1] == c.second
  {
    if n == 0 then Choice(-1, [], [])
    else
      var c := Best(ranks, word, n - 1);
      var key := Key(word[n - 1], word[n]);
      if key in ranks && (c.rank < 0 || ranks[key] < c.rank) then
        assert word[n - 1] == word[n - 1] && word[n - 1 + 1] == word[n];
        Choice(ranks[key], word[n - 1], word[n])
      else c
  }

  /** Every occurrence of the pair joined, left to right. */
  function Merge(word: Word, a: Piece, b: Piece): (r: Word)
    ensures |r| <= |word|
    decreases |word|
  {
    if |word| >= 2 && word[0] == a && word[1] == b then [a + b] + Merge(word[2..], a, b)
    else if word == [] then []
    else [word[0]] + Merge(word[1..], a, b)
  }

  lemma {:induction false} MergeShrinks(word: Word, a: Piece, b: Piece, i: nat)
    requires i + 1 < |word| && word[i] == a && word[i + 1] == b
    ensures |Merge(word, a, b)| < |word|
    decreases |word|
  {
    if word[0] == a && word[1] == b {
    } else {
      MergeShrinks(word[1..], a, b, i - 1);
    }
  }

  /** The fixpoint the loop computes. */
  function Merged(ranks: Ranks, word: Word): Word
    decreases |word|
  {
    if |word| <= 1 then word
    else
      var c := Best(ranks, word, |word| - 1);
      if c.rank < 0 then word
      else
        ghost var i :| 0 <= i < |word| - 1 && word[i] == c.first && word[i + 1] == c.second;
        MergeShrinks(word, c.first, c.second, i);
        Merged(ranks, Merge(word, c.first, c.second))
  }

  // ---------------------------------------------------------------- the loops

  method FindBest(ranks: Ranks, word: Word) returns (c: Choice)
    requires |word| > 1
    ensures c == Best(ranks, word, |word| - 1)
  {
    c := Choice(-1, [], []);
    var i := 0;
    while i + 1 < |word|
      invariant 0 <= i < |word| && c == Best(ranks, word, i)
    {
      var key := Key(word[i], word[i + 1]);
      if key in ranks {
        if c.rank < 0 || ranks[key] < c.rank {
          c := Choice(ranks[key], word[i], word[i + 1]);
        }
      }
      i := i + 1;
    }
  }

  /** How far one turn of the rebuilding loop moves on, and the piece it appends. */
  lemma MergeStep(word: Word, a: Piece, b: Piece, i: nat, n: nat, piece: Piece)
    requires i < |word| && n == (if i + 1 < |word| && word[i] == a && word[i + 1] == b then 2 else 1)
    requires piece == if n == 2 then a + b else word[i]
    ensures Merge(word[i..], a, b) == [piece] + Merge(word[i + n..], a, b)
  {
    assert word[i..][1..] == word[i + 1..];
    if n == 2 { assert word[i..][2..] == word[i + 2..]; }
  }

  method MergeAll(word: Word, a: Piece, b: Piece) returns (merged: Word)
    ensures merged == Merge(word, a, b)
  {
    merged := [];
    var i := 0;
    ghost var all := Merge(word, a, b);
    ghost var rest := all;
    assert word[0..] == word;
    while i < |word|
      invariant 0 <= i <= |word|
      invariant rest == Merge(word[i..], a, b) && all == merged + rest
      decreases |word| - i
    {
      var n, piece := 1, word[i];
      if i + 1 < |word| && word[i] == a && word[i + 1] == b {
        n, piece := 2, word[i] + word[i + 1];
      }
      MergeStep(word, a, b, i, n, piece);
      rest := Merge(word[i + n..], a, b);
      Assoc(merged, [piece], rest);
      merged, i := merged + [piece], i + n;
    }
  }

  /** The merge loop. */
  method MergeToFixpoint(ranks: Ranks, start: Word) returns (word: Word)
    ensures word == Merged(ranks, start)
  {
    word := start;
    while |word| > 1
      invariant Merged(ranks, word) == Merged(ranks, start)
      decreases |word|
    {
      var c := FindBest(ranks, word);
      if c.rank < 0 { return; }
      ghost var i :| 0 <= i < |word| - 1 && word[i] == c.first && word[i + 1] == c.second;
      MergeShrinks(word, c.first, c.second, i);
      word := MergeAll(word, c.first, c.second);
    }
  }

  // ---------------------------------------------------------------- what it keeps and where it stops

  lemma {:induction false} MergeKeepsText(word: Word, a: Piece, b: Piece)
    ensures Concat(Merge(word, a, b)) == Concat(word)
    decreases |word|
  {
    if |word| >= 2 && word[0] == a && word[1] == b {
      MergeKeepsText(word[2..], a, b);
      assert word[1..][1..] == word[2..];
      assert Merge(word, a, b)[1..] == Merge(word[2..], a, b);
    } else if word != [] {
      MergeKeepsText(word[1..], a, b);
      assert Merge(word, a, b)[1..] == Merge(word[1..], a, b);
    }
  }

  /** Merging moves no bytes: the pieces still spell the input. */
  lemma {:induction false} MergedKeepsText(ranks: Ranks, word: Word)
    ensures Concat(Merged(ranks, word)) == Concat(word)
    decreases |word|
  {
    if |word| > 1 {
      var c := Best(ranks, word, |word| - 1);
      if c.rank >= 0 {
        var i :| 0 <= i < |word| - 1 && word[i] == c.first && word[i + 1] == c.second;
        MergeShrinks(word, c.first, c.second, i);
        MergeKeepsText(word, c.first, c.second);
        MergedKeepsText(ranks, Merge(word, c.first, c.second));
      }
    }
  }

  /** Ranks are positions in the merge list. */
  ghost predicate RanksArePositions(ranks: Ranks) {
    forall k :: k in ranks ==> ranks[k] >= 0
  }

  /** The pair at `i` is in the merge table. */
  ghost predicate InTable(ranks: Ranks, word: Word, i: int) {
    0 <= i < |word| - 1 && word[i] + [32] + word[i + 1] in ranks
  }

  function RankAt(ranks: Ranks, word: Word, i: int): int
    requires InTable(ranks, word, i)
  {
    ranks[word[i] + [32] + word[i + 1]]
  }

  /** The scan finds a pair of lowest rank, and finds one whenever there is one. */
  lemma {:induction false} BestIsLowest(ranks: Ranks, word: Word, n: nat)
    requires n < |word| && RanksArePositions(ranks)
    ensures var c := Best(ranks, word, n);
      && (c.rank >= 0 ==> c.first + [32] + c.second in ranks && ranks[c.first + [32] + c.second] == c.rank)
      && forall i :: InTable(ranks, word, i) && i < n ==> 0 <= c.rank <= RankAt(ranks, word, i)
  {
    if n > 0 { BestIsLowest(ranks, word, n - 1); }
  }

  /** No adjacent pair is in the merge table. */
  ghost predicate Stuck(ranks: Ranks, word: Word) {
    forall i :: !InTable(ranks, word, i)
  }

  lemma NoChoiceMeansStuck(ranks: Ranks, word: Word)
    requires RanksArePositions(ranks) && |word| > 1 && Best(ranks, word, |word| - 1).rank < 0
    ensures Stuck(ranks, word)
  {
    BestIsLowest(ranks, word, |word| - 1);
  }

  /** Merging goes on until no adjacent pair of the result can be merged. */
  lemma {:induction false} MergedIsStuck(ranks: Ranks, word: Word)
    requires RanksArePositions(ranks)
    ensures Stuck(ranks, Merged(ranks, word))
    decreases |word|
  {
    if |word| > 1 {
      var c := Best(ranks, word, |word| - 1);
      if c.rank >= 0 {
        var i :| 0 <= i < |word| - 1 && word[i] == c.first && word[i + 1] == c.second;
        MergeShrinks(word, c.first, c.second, i);
        MergedIsStuck(ranks, Merge(word, c.first, c.second));
        assert Merged(ranks, word) == Merged(ranks, Merge(word, c.first, c.second));
      } else {
        NoChoiceMeansStuck(ranks, word);
      }
    }
  }

  // ---------------------------------------------------------------- what it is

  /** The pair at `i` has the least rank of all adjacent pairs, and is the first that has. */
  ghost predicate IsLeast(ranks: Ranks, word: Word, i: int) {
    && InTable(ranks, word, i)
    && (forall j :: InTable(ranks, word, j) ==> RankAt(ranks, word, i) <= RankAt(ranks, word, j))
    && (forall j :: InTable(ranks, word, j) && j < i ==> RankAt(ranks, word, i) < RankAt(ranks, word, j))
  }

  /** Piece `k` of the new word is made of the old one's from `at[k]` on: both, if they are the pair, or the first alone. */
  ghost predicate PieceOf(word: Word, a: Piece, b: Piece, joined: Word, at: seq<nat>, k: nat)
    requires k < |joined| && |at| == |joined| + 1
  {
    && at[k] < |word|
    && if at[k] + 1 < |word| && word[at[k]] == a && word[at[k] + 1] == b then
         joined[k] == a + b && at[k + 1] == at[k] + 2
       else
         joined[k] == word[at[k]] && at[k + 1] == at[k] + 1
  }

  /** `joined` is the word with every occurrence of the pair joined, taken from left to right. */
  ghost predicate IsJoined(word: Word, a: Piece, b: Piece, joined: Word, at: seq<nat>) {
    && |at| == |joined| + 1 && at[0] == 0 && at[|joined|] == |word|
    && forall k: nat :: k < |joined| ==> PieceOf(word, a, b, joined, at, k)
  }

  ghost predicate MergesAt(ranks: Ranks, word: Word, next: Word, i: int, at: seq<nat>) {
    IsLeast(ranks, word, i) && IsJoined(word, word[i], word[i + 1], next, at)
  }

  ghost predicate MergesTo(ranks: Ranks, word: Word, next: Word) {
    exists i, at :: MergesAt(ranks, word, next, i, at)
  }

  /** Each word of the chain comes from the one before by merging a pair of least rank; the last has none left. */
  ghost predicate IsMergeChain(ranks: Ranks, words: seq<Word>) {
    && words != [] && Stuck(ranks, words[|words| - 1])
    && forall k: nat :: k < |words| - 1 ==> MergesTo(ranks, words[k], words[k + 1])
  }

  lemma {:induction false} MergeIsJoined(word: Word, a: Piece, b: Piece) returns (at: seq<nat>)
    ensures IsJoined(word, a, b, Merge(word, a, b), at)
    decreases |word|
  {
    if word == [] { return [0]; }
    var n := if |word| >= 2 && word[0] == a && word[1] == b then 2 else 1;
    var joined, rest := Merge(word, a, b), Merge(word[n..], a, b);
    var later := MergeIsJoined(word[n..], a, b);
    at := [0] + seq(|later|, k requires 0 <= k < |later| => later[k] + n);
    forall k: nat | k < |joined|
      ensures PieceOf(word, a, b, joined, at, k)
    {
      if k > 0 { assert PieceOf(word[n..], a, b, rest, later, k - 1); }
    }
  }

  /** Where the scan's choice comes from. */
  lemma {:induction false} BestIsFirst(ranks: Ranks, word: Word, n: nat) returns (i: nat)
    requires n < |word| && RanksArePositions(ranks) && Best(ranks, word, n).rank >= 0
    ensures var c := Best(ranks, word, n);
      && i < n && word[i] == c.first && word[i + 1] == c.second && InTable(ranks, word, i) && RankAt(ranks, word, i) == c.rank
      && (forall j :: InTable(ranks, word, j) && j < n ==> c.rank <= RankAt(ranks, word, j))
      && (forall j :: InTable(ranks, word, j) && j < i ==> c.rank < RankAt(ranks, word, j))
  {
    var c, before := Best(ranks, word, n), Best(ranks, word, n - 1);
    if before.rank >= 0 {
      i := BestIsFirst(ranks, word, n - 1);
    } else {
      NoneBefore(ranks, word, n - 1);
    }
    if c != before || before.rank < 0 { i := n - 1; }
  }

  lemma NoneBefore(ranks: Ranks, word: Word, n: nat)
    requires n < |word| && RanksArePositions(ranks) && Best(ranks, word, n).rank < 0
    ensures forall j :: InTable(ranks, word, j) ==> j >= n
  {
    BestIsLowest(ranks, word, n);
  }

  /** The result ends the chain of words in which each merges, at all its occurrences, a pair of least rank. */
  lemma {:induction false} MergedIsByRank(ranks: Ranks, word: Word) returns (words: seq<Word>)
    requires RanksArePositions(ranks)
    ensures IsMergeChain(ranks, words) && words[0] == word && words[|words| - 1] == Merged(ranks, word)
    decreases |word|
  {
    if |word| <= 1 { return [word]; }
    var c := Best(ranks, word, |word| - 1);
    if c.rank < 0 {
      NoChoiceMeansStuck(ranks, word);
      return [word];
    }
    var i := BestIsFirst(ranks, word, |word| - 1);
    MergeShrinks(word, c.first, c.second, i);
    var next := Merge(word, c.first, c.second);
    var at := MergeIsJoined(word, c.first, c.second);
    assert MergesAt(ranks, word, next, i, at);
    var rest := MergedIsByRank(ranks, next);
    words := [word] + rest;
    forall k: nat | k < |words| - 1
      ensures MergesTo(ranks, words[k], words[k + 1])
    {
      if k > 0 { assert MergesTo(ranks, rest[k - 1], rest[k]); }
    }
  }

  lemma {:induction false} SameCuts(word: Word, a: Piece, b: Piece, x: Word, at: seq<nat>, y: Word, bt: seq<nat>, k: nat)
    requires IsJoined(word, a, b, x, at) && IsJoined(word, a, b, y, bt) && k <= |x| && k <= |y|
    ensures at[k] == bt[k] && x[..k] == y[..k]
  {
    if k > 0 {
      SameCuts(word, a, b, x, at, y, bt, k - 1);
      assert PieceOf(word, a, b, x, at, k - 1) && PieceOf(word, a, b, y, bt, k - 1);
      assert x[..k] == x[..k - 1] + [x[k - 1]] && y[..k] == y[..k - 1] + [y[k - 1]];
    }
  }

  lemma CutsInside(word: Word, a: Piece, b: Piece, joined: Word, at: seq<nat>)
    requires IsJoined(word, a, b, joined, at)
    ensures forall k :: 0 <= k < |joined| ==> at[k] < |word|
  {
    forall k: nat | k < |joined|
      ensures at[k] < |word|
    {
      assert PieceOf(word, a, b, joined, at, k);
    }
  }

  lemma JoinedIsUnique(word: Word, a: Piece, b: Piece, x: Word, at: seq<nat>, y: Word, bt: seq<nat>)
    requires IsJoined(word, a, b, x, at) && IsJoined(word, a, b, y, bt)
    ensures x == y
  {
    var n := if |x| <= |y| then |x| else |y|;
    SameCuts(word, a, b, x, at, y, bt, n);
    CutsInside(word, a, b, x, at);
    CutsInside(word, a, b, y, bt);
  }

  lemma MergeIsUnique(ranks: Ranks, word: Word, x: Word, y: Word)
    requires MergesTo(ranks, word, x) && MergesTo(ranks, word, y)
    ensures x == y
  {
    var i, at :| MergesAt(ranks, word, x, i, at);
    var j, bt :| MergesAt(ranks, word, y, j, bt);
    assert InTable(ranks, word, i) && InTable(ranks, word, j);
    JoinedIsUnique(word, word[i], word[i + 1], x, at, y, bt);
  }

  lemma MergeableIsNotStuck(ranks: Ranks, word: Word, next: Word)
    requires MergesTo(ranks, word, next)
    ensures !Stuck(ranks, word)
  {
    var i, at :| MergesAt(ranks, word, next, i, at);
    assert InTable(ranks, word, i);
  }

  lemma TailIsChain(ranks: Ranks, words: seq<Word>)
    requires IsMergeChain(ranks, words) && |words| > 1
    ensures MergesTo(ranks, words[0], words[1]) && IsMergeChain(ranks, words[1..])
  {
    forall k: nat | k < |words[1..]| - 1
      ensures MergesTo(ranks, words[1..][k], words[1..][k + 1])
    {
      assert MergesTo(ranks, words[k + 1], words[k + 2]);
    }
  }

  lemma {:induction false} SameEnd(ranks: Ranks, xs: seq<Word>, ys: seq<Word>)
    requires IsMergeChain(ranks, xs) && IsMergeChain(ranks, ys) && xs[0] == ys[0]
    ensures xs[|xs| - 1] == ys[|ys| - 1]
  {
    if |xs| > 1 {
      TailIsChain(ranks, xs);
      MergeableIsNotStuck(ranks, xs[0], xs[1]);
    }
    if |ys| > 1 {
      TailIsChain(ranks, ys);
      MergeableIsNotStuck(ranks, ys[0], ys[1]);
    }
    if |xs| > 1 && |ys| > 1 {
      MergeIsUnique(ranks, xs[0], xs[1], ys[1]);
      SameEnd(ranks, xs[1..], ys[1..]);
    }
  }

  /** There is only one such chain: whatever chain starts with the word, it ends with the result. */
  lemma ChainEndsInMerged(ranks: Ranks, words: seq<Word>)
    requires RanksArePositions(ranks) && IsMergeChain(ranks, words)
    ensures words[|words| - 1] == Merged(ranks, words[0])
  {
    var chain := MergedIsByRank(ranks, words[0]);
    SameEnd(ranks, words, chain);
  }
}
