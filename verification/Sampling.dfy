/**
  Greedy sampling (src/ops/sampling.cpp): the two-stage argmax kernel and the accept/reject rule of speculative
  decoding. Scores are reals; `None` is the minus infinity that pads the last work-group.
 */
module Sampling {
  import opened Bytes

  const WG_SIZE: nat := 256

  datatype Slot = Slot(max: Option<real>, idx: int)

  predicate Beats(a: Option<real>, b: Option<real>) {
    a.Some? && (b.None? || a.value > b.value)
  }

  // ---------------------------------------------------------------- one barrier phase of the tree

  /** What one phase must leave, lane by lane. */
  function Phase(s: seq<Slot>, stride: nat): (r: seq<Slot>)
    requires 2 * stride <= |s|
    ensures |r| == |s|
  {
    seq(|s|, i requires 0 <= i < |s| => if i < stride && Beats(s[i + stride].max, s[i].max) then s[i + stride] else s[i])
  }

  /** An order in which the lanes `0 .. n` may run between two barriers. */
  ghost predicate LaneOrder(order: seq<nat>, n: nat) {
    && (forall t :: 0 <= t < |order| ==> order[t] < n)
    && (forall t, u :: 0 <= t < u < |order| ==> order[t] != order[u])
    && (forall lane :: 0 <= lane < n ==> lane in order)
  }

  method ReducePhase(local: array<Slot>, stride: nat, order: seq<nat>)
    requires 2 * stride <= local.Length && LaneOrder(order, stride)
    modifies local
    ensures local[..] == Phase(old(local[..]), stride)
  {
    ghost var before := local[..];
    for t := 0 to |order|
      invariant forall i :: 0 <= i < local.Length ==>
        local[i] == if i in order[..t] then Phase(before, stride)[i] else before[i]
    {
      var lane := order[t];
      assert lane !in order[..t] && lane + stride !in order[..t];
      if Beats(local[lane + stride].max, local[lane].max) {
        local[lane] := local[lane + stride];
      }
      assert order[..t + 1] == order[..t] + [lane];
    }
    assert order[..|order|] == order;
  }

  /** The phases from `stride` down to 1. */
  function TreeReduce(s: seq<Slot>, stride: nat): Slot
    requires |s| > 0 && 2 * stride <= |s|
    decreases stride
  {
    if stride == 0 then s[0] else TreeReduce(Phase(s, stride), stride / 2)
  }

  // ---------------------------------------------------------------- the two stages

  /** What lane `global` loads. */
  function Load(logits: seq<real>, global: nat): Slot {
    if global < |logits| then Slot(Some(logits[global]), global) else Slot(None, -1)
  }

  function Loaded(logits: seq<real>, wg: nat): (s: seq<Slot>)
    ensures |s| == WG_SIZE && forall i :: 0 <= i < WG_SIZE ==> s[i] == Load(logits, wg * WG_SIZE + i)
  {
    seq(WG_SIZE, i requires 0 <= i < WG_SIZE => Load(logits, wg * WG_SIZE + i))
  }

  function Partial(logits: seq<real>, wg: nat): Slot {
    TreeReduce(Loaded(logits, wg), WG_SIZE / 2)
  }

  function BestOf(logits: seq<real>, wgs: nat): Slot
    requires wgs > 0
  {
    if wgs == 1 then Partial(logits, 0)
    else
      var best := BestOf(logits, wgs - 1);
      if Beats(Partial(logits, wgs - 1).max, best.max) then Partial(logits, wgs - 1) else best
  }

  /** The index the kernel returns. */
  function Argmax(logits: seq<real>): int {
    if |logits| <= 1 then 0 else BestOf(logits, (|logits| + WG_SIZE - 1) / WG_SIZE).idx
  }

  method ReduceWorkGroup(logits: seq<real>, wg: nat, orders: nat -> seq<nat>) returns (partial: Slot)
    requires forall stride :: LaneOrder(orders(stride), stride)
    ensures partial == Partial(logits, wg)
  {
    var local := new Slot[WG_SIZE](i => Load(logits, wg * WG_SIZE + i));
    assert local[..] == Loaded(logits, wg);
    var stride: nat := WG_SIZE / 2;
    while stride > 0
      invariant 2 * stride <= WG_SIZE
      invariant TreeReduce(local[..], stride) == Partial(logits, wg)
    {
      ReducePhase(local, stride, orders(stride));
      stride := stride / 2;
    }
    partial := local[0];
  }

  /** `argmax`: whatever order the lanes of each phase run in, the result is `Argmax(logits)`. */
  method ArgmaxKernel(logits: seq<real>, orders: (nat, nat) -> seq<nat>) returns (best: int)
    requires forall wg, stride :: LaneOrder(orders(wg, stride), stride)
    ensures best == Argmax(logits)
  {
    if |logits| <= 1 { return 0; }
    var wgs := (|logits| + WG_SIZE - 1) / WG_SIZE;
    var partials := new Slot[wgs](_ => Slot(None, -1));
    for wg := 0 to wgs
      invariant forall w :: 0 <= w < wg ==> partials[w] == Partial(logits, w)
    {
      var p := ReduceWorkGroup(logits, wg, stride => orders(wg, stride));
      partials[wg] := p;
    }
    var slot := partials[0];
    for i := 1 to wgs
      invariant slot == BestOf(logits, i)
    {
      if Beats(partials[i].max, slot.max) { slot := partials[i]; }
    }
    best := slot.idx;
  }

  // ---------------------------------------------------------------- it is a maximum

  predicate IsPow2(n: nat) {
    n == 1 || (n > 1 && n % 2 == 0 && IsPow2(n / 2))
  }

  /** `r` is one of the first `n` slots and none of them beats it. */
  ghost predicate Dominates(r: Slot, s: seq<Slot>, n: nat)
    requires n <= |s|
  {
    && (exists i :: 0 <= i < n && s[i] == r)
    && (forall i :: 0 <= i < n ==> !Beats(s[i].max, r.max))
  }

  /** What dominates the lower half after a phase dominates both halves before it. */
  lemma PhaseDominates(s: seq<Slot>, stride: nat, r: Slot)
    requires 2 * stride <= |s| && Dominates(r, Phase(s, stride), stride)
    ensures Dominates(r, s, 2 * stride)
  {
    var p := Phase(s, stride);
    var i :| 0 <= i < stride && p[i] == r;
    assert s[i] == r || s[i + stride] == r;
    forall j | 0 <= j < 2 * stride
      ensures !Beats(s[j].max, r.max)
    {
      var lane := if j < stride then j else j - stride;
      assert !Beats(p[lane].max, r.max);
    }
  }

  lemma {:induction false} TreeDominates(s: seq<Slot>, stride: nat)
    requires IsPow2(stride) && 2 * stride <= |s|
    ensures Dominates(TreeReduce(s, stride), s, 2 * stride)
    decreases stride
  {
    var p := Phase(s, stride);
    if stride == 1 {
      assert TreeReduce(p, 0) == p[0];
    } else {
      TreeDominates(p, stride / 2);
    }
    PhaseDominates(s, stride, TreeReduce(s, stride));
  }

  lemma PartialIsMaximal(logits: seq<real>, wg: nat)
    requires wg * WG_SIZE < |logits|
    ensures var r := Partial(logits, wg);
      && wg * WG_SIZE <= r.idx < (wg + 1) * WG_SIZE && r.idx < |logits| && r.max == Some(logits[r.idx])
      && forall k :: wg * WG_SIZE <= k < (wg + 1) * WG_SIZE && k < |logits| ==> logits[k] <= logits[r.idx]
  {
    var s := Loaded(logits, wg);
    assert IsPow2(8) && IsPow2(64);
    TreeDominates(s, WG_SIZE / 2);
    var r := Partial(logits, wg);
    assert !Beats(s[0].max, r.max);
    forall k | wg * WG_SIZE <= k < (wg + 1) * WG_SIZE && k < |logits|
      ensures logits[k] <= logits[r.idx]
    {
      assert !Beats(s[k - wg * WG_SIZE].max, r.max);
    }
  }

  lemma {:induction false} BestOfIsMaximal(logits: seq<real>, wgs: nat)
    requires wgs > 0 && (wgs - 1) * WG_SIZE < |logits|
    ensures var r := BestOf(logits, wgs);
      && 0 <= r.idx < |logits| && r.max == Some(logits[r.idx])
      && forall k :: 0 <= k < wgs * WG_SIZE && k < |logits| ==> logits[k] <= logits[r.idx]
  {
    PartialIsMaximal(logits, wgs - 1);
    if wgs > 1 {
      BestOfIsMaximal(logits, wgs - 1);
    }
  }

  /** The result is an index of a maximal logit, for every vocabulary size. */
  lemma ArgmaxIsMaximal(logits: seq<real>)
    requires |logits| > 0
    ensures 0 <= Argmax(logits) < |logits|
    ensures forall k :: 0 <= k < |logits| ==> logits[k] <= logits[Argmax(logits)]
  {
    if |logits| > 1 {
      BestOfIsMaximal(logits, (|logits| + WG_SIZE - 1) / WG_SIZE);
    }
  }

  // ---------------------------------------------------------------- which maximum it is

  /** The place of slot `i` in the order in which a tree of `2 * stride` slots prefers equals: the bits of `i`, reversed. */
  function Key(i: nat, stride: nat): nat {
    if stride == 0 then 0
    else if i < stride then 2 * Key(i, stride / 2)
    else 2 * Key(i - stride, stride / 2) + 1
  }

  lemma KeyOfUpper(i: nat, b: nat, stride: nat)
    requires stride > 0 && i < stride && b <= 1
    ensures Key(i + b * stride, stride) == 2 * Key(i, stride / 2) + b
  {
  }

  lemma TwoBits(i: nat, b: nat, c: nat, stride: nat)
    requires stride >= 2 && stride % 2 == 0 && i < stride / 2 && b <= 1 && c <= 1
    ensures Key(i + b * (stride / 2) + c * stride, stride) == 4 * Key(i, stride / 2 / 2) + 2 * b + c
  {
    KeyOfUpper(i, b, stride / 2);
    KeyOfUpper(i + b * (stride / 2), c, stride);
  }

  lemma FourBits(b0: nat, b1: nat, b2: nat, b3: nat, i: nat)
    requires b0 <= 1 && b1 <= 1 && b2 <= 1 && b3 <= 1 && i == b0 + 2 * b1 + 4 * b2 + 8 * b3
    ensures Key(i, 8) == 8 * b0 + 4 * b1 + 2 * b2 + b3
  {
    TwoBits(b0 + 2 * b1, b2, b3, 8);
    TwoBits(0, b0, b1, 2);
  }

  lemma EightBits(low: nat, key: nat, b4: nat, b5: nat, b6: nat, b7: nat, i: nat)
    requires low < 16 && key == Key(low, 8) && b4 <= 1 && b5 <= 1 && b6 <= 1 && b7 <= 1
    requires i == low + 16 * b4 + 32 * b5 + 64 * b6 + 128 * b7
    ensures Key(i, 128) == 16 * key + 8 * b4 + 4 * b5 + 2 * b6 + b7
  {
    TwoBits(low, b4, b5, 32);
    TwoBits(low + 16 * b4 + 32 * b5, b6, b7, 128);
  }

  /** In a group of 256 that is the number with its eight bits in the opposite order. */
  lemma KeyIsReversal(b0: nat, b1: nat, b2: nat, b3: nat, b4: nat, b5: nat, b6: nat, b7: nat, i: nat)
    requires b0 <= 1 && b1 <= 1 && b2 <= 1 && b3 <= 1 && b4 <= 1 && b5 <= 1 && b6 <= 1 && b7 <= 1
    requires i == b0 + 2 * b1 + 4 * b2 + 8 * b3 + 16 * b4 + 32 * b5 + 64 * b6 + 128 * b7
    ensures Key(i, WG_SIZE / 2) == 128 * b0 + 64 * b1 + 32 * b2 + 16 * b3 + 8 * b4 + 4 * b5 + 2 * b6 + b7
  {
    FourBits(b0, b1, b2, b3, b0 + 2 * b1 + 4 * b2 + 8 * b3);
    EightBits(b0 + 2 * b1 + 4 * b2 + 8 * b3, 8 * b0 + 4 * b1 + 2 * b2 + b3, b4, b5, b6, b7, i);
  }

  predicate Ties(a: Option<real>, b: Option<real>) {
    !Beats(a, b) && !Beats(b, a)
  }

  /** Slot `w` is what the tree returns: nothing beats it, and it has the least key of its equals. */
  ghost predicate Wins(s: seq<Slot>, stride: nat, n: nat, w: nat)
    requires n <= |s| && 2 * stride <= |s|
  {
    && w < n && TreeReduce(s, stride) == s[w]
    && (forall j :: 0 <= j < n ==> !Beats(s[j].max, s[w].max))
    && (forall j :: 0 <= j < n && j != w && Ties(s[j].max, s[w].max) ==> Key(w, stride) < Key(j, stride))
  }

  /** One phase below the root: the winner among the pairs' winners is the winner of all. */
  lemma PhaseWins(s: seq<Slot>, stride: nat, w: nat) returns (v: nat)
    requires 0 < stride && 2 * stride <= |s| && Wins(Phase(s, stride), stride / 2, stride, w)
    ensures Wins(s, stride, 2 * stride, v)
  {
    var p := Phase(s, stride);
    v := if Beats(s[w + stride].max, s[w].max) then w + stride else w;
    forall j | 0 <= j < 2 * stride && j != v
      ensures !Beats(s[j].max, s[v].max) && (Ties(s[j].max, s[v].max) ==> Key(v, stride) < Key(j, stride))
    {
      var lane := if j < stride then j else j - stride;
      assert !Beats(p[lane].max, p[w].max);
      assert lane != w && Ties(p[lane].max, p[w].max) ==> Key(w, stride / 2) < Key(lane, stride / 2);
    }
  }

  lemma {:induction false} TreeWins(s: seq<Slot>, stride: nat) returns (w: nat)
    requires IsPow2(stride) && 2 * stride <= |s|
    ensures Wins(s, stride, 2 * stride, w)
    decreases stride
  {
    if stride == 1 {
      assert Wins(Phase(s, 1), 0, 1, 0);
      w := 0;
    } else {
      w := TreeWins(Phase(s, stride), stride / 2);
    }
    w := PhaseWins(s, stride, w);
  }

  /** The order of preference among equal logits: the lower work-group first, and within it the lower key. */
  predicate Before(a: int, b: int) {
    a / WG_SIZE < b / WG_SIZE
    || (a / WG_SIZE == b / WG_SIZE && Key(a % WG_SIZE, WG_SIZE / 2) < Key(b % WG_SIZE, WG_SIZE / 2))
  }

  predicate IsMaximal(logits: seq<real>, m: nat) {
    m < |logits| && forall k :: 0 <= k < |logits| ==> logits[k] <= logits[m]
  }

  /** `r` comes before every other index below `n` with as large a logit. */
  ghost predicate First(logits: seq<real>, n: nat, r: int) {
    && 0 <= r < |logits| && r < n
    && forall k :: 0 <= k < n && k < |logits| && k != r && logits[k] == logits[r] ==> Before(r, k)
  }

  lemma PartialIsFirst(logits: seq<real>, wg: nat)
    requires wg * WG_SIZE < |logits|
    ensures var r := Partial(logits, wg).idx;
      && wg * WG_SIZE <= r < |logits| && r < (wg + 1) * WG_SIZE
      && forall k :: wg * WG_SIZE <= k < (wg + 1) * WG_SIZE && k < |logits| && k != r && logits[k] == logits[r] ==> Before(r, k)
  {
    var s := Loaded(logits, wg);
    assert IsPow2(8) && IsPow2(64);
    var w := TreeWins(s, WG_SIZE / 2);
    PartialIsMaximal(logits, wg);
    forall j | 0 <= j < WG_SIZE && j != w && wg * WG_SIZE + j < |logits|
               && logits[wg * WG_SIZE + j] == logits[wg * WG_SIZE + w]
      ensures Key(w, WG_SIZE / 2) < Key(j, WG_SIZE / 2)
    {
      assert Ties(s[j].max, s[w].max);
    }
    FirstOfGroup(logits, wg, wg * WG_SIZE, w);
  }

  lemma FirstOfGroup(logits: seq<real>, wg: nat, base: nat, w: nat)
    requires base == wg * WG_SIZE && base + w < |logits| && w < WG_SIZE
    requires forall j :: 0 <= j < WG_SIZE && j != w && base + j < |logits| && logits[base + j] == logits[base + w] ==>
      Key(w, WG_SIZE / 2) < Key(j, WG_SIZE / 2)
    ensures forall k :: base <= k < base + WG_SIZE && k < |logits| && k != base + w && logits[k] == logits[base + w] ==>
      Before(base + w, k)
  {
    forall k | base <= k < base + WG_SIZE && k < |logits| && k != base + w && logits[k] == logits[base + w]
      ensures Before(base + w, k)
    {
      InGroup(wg, w);
      InGroup(wg, k - base);
      assert logits[base + (k - base)] == logits[k];
    }
  }

  lemma InGroup(wg: nat, i: nat)
    requires i < WG_SIZE
    ensures (wg * WG_SIZE + i) / WG_SIZE == wg && (wg * WG_SIZE + i) % WG_SIZE == i
  {
  }

  lemma {:induction false} BestOfIsFirst(logits: seq<real>, wgs: nat)
    requires wgs > 0 && (wgs - 1) * WG_SIZE < |logits|
    ensures First(logits, wgs * WG_SIZE, BestOf(logits, wgs).idx)
  {
    BestOfIsMaximal(logits, wgs);
    PartialIsMaximal(logits, wgs - 1);
    PartialIsFirst(logits, wgs - 1);
    if wgs > 1 {
      BestOfIsMaximal(logits, wgs - 1);
      BestOfIsFirst(logits, wgs - 1);
    }
  }

  /** The tie rule: the result comes before all other maximal indices. */
  lemma ArgmaxIsFirst(logits: seq<real>, k: nat)
    requires IsMaximal(logits, k) && k != Argmax(logits)
    ensures Before(Argmax(logits), k)
  {
    ArgmaxIsMaximal(logits);
    BestOfIsFirst(logits, (|logits| + WG_SIZE - 1) / WG_SIZE);
  }

  /** The lowest maximal index is returned if and only if no maximal index of its work-group has a smaller key. */
  lemma ArgmaxIsLowestIff(logits: seq<real>, m: nat)
    requires IsMaximal(logits, m) && forall k :: 0 <= k < m ==> !IsMaximal(logits, k)
    ensures Argmax(logits) == m <==>
      !exists k: nat :: IsMaximal(logits, k) && k / WG_SIZE == m / WG_SIZE
                   && Key(k % WG_SIZE, WG_SIZE / 2) < Key(m % WG_SIZE, WG_SIZE / 2)
  {
    ArgmaxIsMaximal(logits);
    var r := Argmax(logits);
    if r == m {
      forall k: nat | IsMaximal(logits, k) && k != r
        ensures Before(r, k)
      {
        ArgmaxIsFirst(logits, k);
      }
    } else {
      ArgmaxIsFirst(logits, m);
      assert IsMaximal(logits, r) && m <= r;
    }
  }

  lemma KeysOfTwo()
    ensures !Before(1, 128)
  {
    assert Key(0, 64) == 0 by { assert Key(0, 32) == 0 && Key(0, 4) == 0; }
    assert Key(1, 4) == 4 && Key(1, 32) == 32;
  }

  /** An instance: of equal maxima at 1 and 128 alone the second is returned, since its key is 1 and the other's is 128. */
  lemma TieBreak(logits: seq<real>)
    requires |logits| == WG_SIZE && IsMaximal(logits, 1) && IsMaximal(logits, 128)
    requires forall k :: 0 <= k < WG_SIZE && k != 1 && k != 128 ==> !IsMaximal(logits, k)
    ensures Argmax(logits) == 128
  {
    ArgmaxIsMaximal(logits);
    KeysOfTwo();
    if Argmax(logits) == 1 { ArgmaxIsFirst(logits, 128); }
    assert IsMaximal(logits, Argmax(logits));
  }

  // ---------------------------------------------------------------- accept / reject

  /** `SpeculativeAcceptanceResult`. */
  datatype Acceptance = Acceptance(accepted: seq<int>, bonusOrResampled: int, hasRejected: bool, rejected: int,
                                   numRejected: nat, numResampled: nat, numRemaining: nat)

  /** `SpeculativeAcceptanceResult{}`. */
  const NO_ACCEPTANCE := Acceptance([], -1, false, -1, 0, 0, 0)

  datatype AcceptOutcome = Accepted(result: Acceptance) | LogicError

  /**
    How a draft is judged: greedily against the row's argmax, or, when draft probabilities are given, by the
    stochastic test, which is an arbitrary verdict per draft here.
   */
  datatype Judge = Greedy | Stochastic(verdict: (nat, int) -> bool)

  predicate Accepts(judge: Judge, drafts: seq<int>, rows: seq<seq<real>>, i: nat)
    requires i < |drafts| == |rows|
  {
    match judge
    case Greedy => drafts[i] == Argmax(rows[i])
    case Stochastic(verdict) => verdict(i, drafts[i])
  }

  /** The longest run of accepted drafts from the front. */
  function AcceptedPrefix(judge: Judge, drafts: seq<int>, rows: seq<seq<real>>, from: nat): (n: nat)
    requires from <= |drafts| == |rows|
    ensures from <= n <= |drafts|
    ensures forall i :: from <= i < n ==> Accepts(judge, drafts, rows, i)
    ensures n < |drafts| ==> !Accepts(judge, drafts, rows, n)
    decreases |drafts| - from
  {
    if from < |drafts| && Accepts(judge, drafts, rows, from) then AcceptedPrefix(judge, drafts, rows, from + 1)
    else from
  }

  /**
    `speculative_accept_reject`. The result keeps exactly the longest accepted prefix of the drafts; the next token
    is the argmax of the first rejected row, or of the last row when nothing is rejected; neither balance check
    can fail.
   */
  method SpeculativeAcceptReject(judge: Judge, drafts: seq<int>, rows: seq<seq<real>>, vocabSize: int)
      returns (outcome: AcceptOutcome)
    requires |rows| == |drafts|
    ensures |drafts| == 0 || vocabSize <= 0 ==> outcome == Accepted(NO_ACCEPTANCE)
    ensures outcome.Accepted?
    ensures |drafts| > 0 && vocabSize > 0 ==>
      var n := AcceptedPrefix(judge, drafts, rows, 0);
      var r := outcome.result;
      && r.accepted == drafts[..n]
      && r.hasRejected == (n < |drafts|)
      && r.bonusOrResampled == Argmax(rows[if n < |drafts| then n else |drafts| - 1])
      && (r.hasRejected ==> r.rejected == drafts[n] && r.numRejected == r.numResampled == 1
                            && n + 1 + r.numRemaining == |drafts|)
  {
    if |drafts| == 0 || vocabSize <= 0 {
      return Accepted(NO_ACCEPTANCE);
    }
    var result := NO_ACCEPTANCE;
    var rejectionOccurred := false;
    var i := 0;
    while i < |drafts| && !rejectionOccurred
      invariant 0 <= i <= |drafts|
      invariant !rejectionOccurred ==> result == NO_ACCEPTANCE.(accepted := drafts[..i])
      invariant !rejectionOccurred ==> AcceptedPrefix(judge, drafts, rows, i) == AcceptedPrefix(judge, drafts, rows, 0)
      invariant rejectionOccurred ==>
        i < |drafts| && i == AcceptedPrefix(judge, drafts, rows, 0)
        && result == Acceptance(drafts[..i], Argmax(rows[i]), true, drafts[i], 1, 1, |drafts| - (i + 1))
      decreases |drafts| - i, !rejectionOccurred
    {
      var targetArgmax := Argmax(rows[i]);
      var accepted := Accepts(judge, drafts, rows, i);
      if accepted {
        result := result.(accepted := result.accepted + [drafts[i]]);
        i := i + 1;
      } else {
        rejectionOccurred := true;
        result := result.(hasRejected := true, rejected := drafts[i], numRejected := 1,
                          bonusOrResampled := targetArgmax, numResampled := 1,
                          numRemaining := |drafts| - (|result.accepted| + 1));
      }
    }
    if rejectionOccurred {
      if |result.accepted| + result.numRejected + result.numRemaining != |drafts| { return LogicError; }
    } else {
      if |result.accepted| != |drafts| { return LogicError; }
      result := result.(bonusOrResampled := Argmax(rows[|drafts| - 1]));
    }
    return Accepted(result);
  }
}
