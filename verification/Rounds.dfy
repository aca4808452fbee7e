/**
  What the iterations of generation do (src/runtime/engine.cpp:405-559), over arbitrary layer states: a plain step decodes
  one token; a speculative round drafts, verifies, and keeps the drafts up to the first that the verification disagrees
  with. Both then emit tokens one by one, until one is a stop token or the callback has had enough.
 */
module Rounds {
  import opened Drafting

  /** `verify(s, drafts, pos, picks, s')`: verifying the drafts from `pos` takes `s` to `s'` and picks a token per draft. */
  type Verify<!S> = (S, seq<int>, nat, seq<int>, S) -> bool

  /** The decode step, the verification pass, and what a rollback makes of the states before and after a round. */
  datatype Machine<!S> = Machine(step: Step<S>, verify: Verify<S>, rollBack: (S, S) -> S)

  /** A round: the states while drafting, the drafts, the verification's picks and its states, how many drafts are kept. */
  datatype Round<S> = Round(chain: seq<S>, drafts: seq<int>, picks: seq<int>, verified: S, kept: nat) {
    /** The kept drafts, and the pick at the first other one, or at the last if all are kept. */
    function Tokens(): (r: seq<int>)
      requires kept <= |drafts| == |picks| && |drafts| > 0
      ensures |r| == kept + 1
    {
      drafts[..kept] + [picks[if kept < |drafts| then kept else |drafts| - 1]]
    }
  }

  /** The drafts are those of decode steps from `s`; just those before the first disagreement are kept. */
  ghost predicate IsRound<S>(m: Machine<S>, s: S, current: int, len: nat, count: nat, r: Round<S>) {
    && |r.drafts| == |r.picks| == count > 0 && r.kept <= count
    && IsDraft(m.step, r.chain, current, len, r.drafts) && r.chain[0] == s
    && m.verify(r.chain[count], r.drafts, len, r.picks, r.verified)
    && (forall i :: 0 <= i < r.kept ==> r.drafts[i] == r.picks[i])
    && (r.kept < count ==> r.drafts[r.kept] != r.picks[r.kept])
  }

  /** The states a round leaves: rolled back if a draft was rejected. */
  function End<S>(m: Machine<S>, s: S, r: Round<S>): S {
    if r.kept < |r.drafts| then m.rollBack(s, r.verified) else r.verified
  }

  /** A round of `count` drafts from `s` yields these tokens and ends in `s'`. */
  ghost predicate Yields<S(!new)>(m: Machine<S>, s: S, current: int, len: nat, count: nat, tokens: seq<int>, s': S) {
    exists r :: IsRound(m, s, current, len, count, r) && tokens == r.Tokens() && s' == End(m, s, r)
  }

  /** An iteration that drafts `count` tokens, or makes a plain step if that is none. */
  ghost predicate IsIteration<S(!new)>(m: Machine<S>, s: S, current: int, len: nat, count: nat, tokens: seq<int>, s': S) {
    if count == 0 then |tokens| == 1 && m.step(s, current, len, tokens[0], s')
    else Yields(m, s, current, len, count, tokens, s')
  }

  lemma RoundYields<S(!new)>(m: Machine<S>, s: S, current: int, len: nat, count: nat, r: Round<S>)
    requires IsRound(m, s, current, len, count, r)
    ensures IsIteration(m, s, current, len, count, r.Tokens(), End(m, s, r))
  {
  }
}
