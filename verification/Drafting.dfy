/**
  Drafting (src/targets/qwen3_8/forward.cpp:600-650) over an arbitrary decode step: the current token is fed first, and then
  each token drafted. `step(s, t, pos, next, s')` says that feeding `t` at `pos` takes `s` to `s'` and calls for `next`.
 */
module Drafting {
  type Step<!S> = (S, int, nat, int, S) -> bool

  /** The token that the draft's step `i` feeds. */
  function Input(current: int, drafts: seq<int>, i: nat): int
    requires i <= |drafts|
  {
    if i == 0 then current else drafts[i - 1]
  }

  ghost predicate StepAt<S>(step: Step<S>, chain: seq<S>, current: int, pos: nat, drafts: seq<int>, i: nat)
    requires i < |drafts| && |chain| == |drafts| + 1
  {
    step(chain[i], Input(current, drafts, i), pos + i, drafts[i], chain[i + 1])
  }

  /** `chain` holds the states before, between and after the steps that give the drafts. */
  ghost predicate IsDraft<S>(step: Step<S>, chain: seq<S>, current: int, pos: nat, drafts: seq<int>) {
    |chain| == |drafts| + 1 && forall i: nat :: i < |drafts| ==> StepAt(step, chain, current, pos, drafts, i)
  }

  lemma DraftGrows<S>(step: Step<S>, chain: seq<S>, current: int, pos: nat, drafts: seq<int>, next: int, after: S)
    requires IsDraft(step, chain, current, pos, drafts)
    requires step(chain[|drafts|], Input(current, drafts, |drafts|), pos + |drafts|, next, after)
    ensures IsDraft(step, chain + [after], current, pos, drafts + [next])
  {
    forall i: nat | i < |drafts| + 1
      ensures StepAt(step, chain + [after], current, pos, drafts + [next], i)
    {
      if i < |drafts| { assert StepAt(step, chain, current, pos, drafts, i); }
    }
  }

  /** From states that track a history, feeding a token gives states that track one more, and calls for its successor. */
  ghost predicate Follows<S(!new)>(step: Step<S>, tracks: (S, seq<int>) -> bool, successor: seq<int> -> int, room: nat) {
    forall s, h: seq<int>, t, next, s' :: tracks(s, h) && |h| < room && step(s, t, |h|, next, s') ==>
      tracks(s', h + [t]) && next == successor(h + [t])
  }

  /** What has been fed before the draft's step `i`. */
  function Fed(history: seq<int>, current: int, drafts: seq<int>, i: nat): (r: seq<int>)
    requires i <= |drafts|
    ensures |r| == |history| + i
  {
    if i == 0 then history else history + [current] + drafts[..i - 1]
  }

  lemma FedThenInput(history: seq<int>, current: int, drafts: seq<int>, i: nat)
    requires i < |drafts|
    ensures Fed(history, current, drafts, i) + [Input(current, drafts, i)] == Fed(history, current, drafts, i + 1)
  {
  }

  lemma FollowsOnce<S(!new)>(step: Step<S>, tracks: (S, seq<int>) -> bool, successor: seq<int> -> int, room: nat, s: S,
                             h: seq<int>, t: int, next: int, s': S, pos: nat)
    requires Follows(step, tracks, successor, room) && tracks(s, h) && pos == |h| < room && step(s, t, pos, next, s')
    ensures tracks(s', h + [t]) && next == successor(h + [t])
  {
    assert step(s, t, |h|, next, s');
  }

  /** Each draft is then the successor of all that has been fed, and the states track that. */
  lemma {:induction false} DraftsFollow<S(!new)>(step: Step<S>, tracks: (S, seq<int>) -> bool, successor: seq<int> -> int,
                                                 room: nat, chain: seq<S>, history: seq<int>, current: int,
                                                 drafts: seq<int>, n: nat)
    requires Follows(step, tracks, successor, room) && IsDraft(step, chain, current, |history|, drafts)
    requires tracks(chain[0], history) && |history| + |drafts| <= room && n < |drafts|
    ensures var fed := Fed(history, current, drafts, n + 1);
      drafts[n] == successor(fed) && tracks(chain[n + 1], fed)
  {
    if n > 0 { DraftsFollow(step, tracks, successor, room, chain, history, current, drafts, n - 1); }
    FedThenInput(history, current, drafts, n);
    assert StepAt(step, chain, current, |history|, drafts, n);
    FollowsOnce(step, tracks, successor, room, chain[n], Fed(history, current, drafts, n), Input(current, drafts, n),
                drafts[n], chain[n + 1], |history| + n);
  }
}
