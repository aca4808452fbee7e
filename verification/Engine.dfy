/**
  Text generation (src/runtime/engine.cpp): admission, prefill, and the decode loop that mixes single-token and
  speculative steps over the bounded cache. The model's functions, the prompt's tokens, the caller's callback and the
  device faults are arbitrary; every property holds for all of them.
 */
module Engine {
  import opened Bytes
  import opened Transformer
  import opened KvCache
  import opened Forward
  import opened Sampling
  import opened Arena
  import opened Drafting
  import opened Rounds

  /** How a run left the decode loop. The source reports the first, and the three that cannot happen, as "length". */
  datatype Exit = MaxTokens | CacheFull | StepFailed | AdvanceClamped | StopToken | CallbackStop

  datatype FinishReason = Length | Stop

  function Reason(exit: Exit): FinishReason {
    if exit.StopToken? || exit.CallbackStop? then Stop else Length
  }

  datatype Error = NotLoaded | InvalidParameter | UnsupportedParameter | EmptyPrompt | ContextLength | PrefillFailed
                 | MissingEos | Exception

  /** `GenerationResult`: the emitted ids, and either an error or how the run ended. */
  datatype Result = Success(ids: seq<int>, exit: Exit) | Failure(ids: seq<int>, error: Error)

  datatype GenerationConfig = GenerationConfig(maxNewTokens: int, temperature: real, topP: real, draftTokensNum: int,
                                               eosTokenId: int, imEndTokenId: int)

  datatype EngineConfig = EngineConfig(prefillChunkSize: nat, enableSpeculative: bool, draftTokensNum: nat,
                                       draftReady: bool, eosTokenId: int, imEndTokenId: int)

  /** The two tokens that end a run; a negative im_end is never matched. */
  datatype Stops = Stops(eos: int, imEnd: int)

  predicate IsStop(stops: Stops, t: int) {
    t == stops.eos || (stops.imEnd >= 0 && t == stops.imEnd)
  }

  ghost predicate NoStops(stops: Stops, ids: seq<int>) {
    forall i :: 0 <= i < |ids| ==> !IsStop(stops, ids[i])
  }

  /** `validate_tokens`: the prompt and everything it may generate fit in the context. */
  predicate ValidateTokens(promptTokens: nat, maxNewTokens: int, limit: nat) {
    maxNewTokens > 0 && promptTokens <= limit && promptTokens + maxNewTokens <= limit
  }

  datatype StepOutcome = Continue(current: int) | Finish(exit: Exit) | Threw

  /** The emitted ids are the greedy continuation of the prompt. */
  ghost predicate IsGreedy(model: Model, prompt: seq<int>, ids: seq<int>) {
    prompt != [] && forall i :: 0 <= i < |ids| ==> ids[i] == NextToken(model, prompt + ids[..i])
  }

  /**
    From `ids` these tokens are emitted one by one. All of them are out if the run goes on, with the last as the current
    token; else the next one is a stop token, or the callback has just answered no, for the first time.
   */
  ghost predicate Emits(ids: seq<int>, tokens: seq<int>, stops: Stops, keepGoing: seq<int> -> bool, ids': seq<int>,
                        outcome: StepOutcome) {
    && ids <= ids' <= ids + tokens && NoStops(stops, ids')
    && (forall k :: |ids| < k <= |ids'| ==> Passes(keepGoing, ids', k, outcome))
    && match outcome
       case Continue(current) => ids' == ids + tokens && tokens != [] && current == tokens[|tokens| - 1]
       case Finish(exit) =>
         if exit == CallbackStop then |ids| < |ids'|
         else exit == StopToken && |ids'| < |ids + tokens| && IsStop(stops, (ids + tokens)[|ids'|])
       case Threw => false
  }

  /** The callback let `k` tokens pass, unless they are all and it ended the run. */
  ghost predicate Passes(keepGoing: seq<int> -> bool, ids: seq<int>, k: int, outcome: StepOutcome) {
    0 <= k <= |ids| && (keepGoing(ids[..k]) <==> !(outcome == Finish(CallbackStop) && k == |ids|))
  }

  /** What the decode loop goes by. */
  datatype Plan = Plan(promptLen: nat, maxNew: nat, speculative: bool, draftN: nat, maxLen: nat, stops: Stops,
                       keepGoing: seq<int> -> bool)
  {
    /** How many tokens the iteration drafts that starts with `len` cached and `out` emitted; none is a plain step. */
    function Drafts(len: nat, out: nat): (n: nat)
      ensures n > 0 ==> n < maxNew - out
    {
      if speculative && maxNew - out > 1 && len + draftN <= maxLen then
        if draftN < maxNew - out - 1 then draftN else maxNew - out - 1
      else 0
    }

    /** The first iteration drafts two tokens or more. */
    predicate DraftsTooMany() { Drafts(promptLen, 1) >= 2 }

    /** If the first iteration does not, no later one does. */
    lemma LaterDraftsLess(len: nat, out: nat)
      requires promptLen <= len && 1 <= out
      ensures Drafts(len, out) >= 2 ==> DraftsTooMany()
    {
    }
  }

  /** A loop head: the cache length, the number of tokens out, the current one, and the layers' states. */
  datatype Head = Head(len: nat, out: nat, current: int, states: seq<LayerState>)

  /** An iteration has emitted one token or, as a round, two equal ones. */
  ghost predicate Gained(from: nat, to: nat, ids: seq<int>, round: bool) {
    from < to <= |ids| && (to == from + 1 || (round && to == from + 2 && ids[to - 1] == ids[to - 2]))
  }

  /** From this head an iteration yields the tokens, of which these are emitted, and leaves these states. */
  ghost predicate Iterates(model: Model, plan: Plan, h: Head, ids: seq<int>, tokens: seq<int>, ids': seq<int>,
                           outcome: StepOutcome, states: seq<LayerState>) {
    && IsIteration(MachineOf(model), h.states, h.current, h.len, plan.Drafts(h.len, h.out), tokens, states)
    && Emits(ids, tokens, plan.stops, plan.keepGoing, ids', outcome)
  }

  /**
    At a recorded loop head the cache length is one behind the prompt plus the tokens out, the last of which is current.
    The iteration before it was a plain step or a round of one draft, and has emitted what lies between.
   */
  ghost predicate HeadAt(model: Model, plan: Plan, heads: seq<Head>, ids: seq<int>, i: nat)
    requires i < |heads|
  {
    var h := heads[i];
    && h.len == plan.promptLen + h.out - 1 && 0 < h.out <= plan.maxNew && h.out <= |ids| && h.current == ids[h.out - 1]
    && if i == 0 then h.out == 1
       else
         var p := heads[i - 1];
         && plan.Drafts(p.len, p.out) <= 1 && Gained(p.out, h.out, ids, plan.Drafts(p.len, p.out) == 1)
         && Iterates(model, plan, p, ids[..p.out], ids[p.out..h.out], ids[..h.out], Continue(h.current), h.states)
  }

  /** Every loop head is recorded: the first is the prefill's, and from each to the next an iteration's tokens came out. */
  ghost predicate Recorded(model: Model, plan: Plan, heads: seq<Head>, ids: seq<int>) {
    && heads != [] && heads[|heads| - 1].out <= |ids|
    && forall i: nat :: i < |heads| ==> HeadAt(model, plan, heads, ids, i)
  }

  /**
    A run that was stopped in the iteration after the last head emitted what that iteration had yielded by then, two tokens
    at most; one that ended at the head, or threw, emitted no more.
   */
  ghost predicate EndsAfter(model: Model, plan: Plan, heads: seq<Head>, r: Result) {
    && heads != []
    && var h := heads[|heads| - 1];
       && h.out <= |r.ids| <= h.out + 2
       && if r.Failure? || r.exit == MaxTokens then |r.ids| == h.out
          else exists tokens, states :: Iterates(model, plan, h, r.ids[..h.out], tokens, r.ids, Finish(r.exit), states)
  }

  lemma RecordStays(model: Model, plan: Plan, heads: seq<Head>, ids: seq<int>, ids': seq<int>)
    requires Recorded(model, plan, heads, ids) && ids <= ids'
    ensures Recorded(model, plan, heads, ids')
  {
    forall i: nat | i < |heads|
      ensures HeadAt(model, plan, heads, ids', i)
    {
      assert HeadAt(model, plan, heads, ids, i);
      assert ids'[..heads[i].out] == ids[..heads[i].out];
      if i > 0 {
        assert HeadAt(model, plan, heads, ids, i - 1);
        assert ids'[..heads[i - 1].out] == ids[..heads[i - 1].out];
        assert ids'[heads[i - 1].out..heads[i].out] == ids[heads[i - 1].out..heads[i].out];
      }
    }
  }

  lemma RecordGrows(model: Model, plan: Plan, heads: seq<Head>, h: Head, ids: seq<int>, tokens: seq<int>, ids': seq<int>,
                    h': Head)
    requires Recorded(model, plan, heads, ids) && heads[|heads| - 1] == h && h.out == |ids| && ids' == ids + tokens
    requires plan.Drafts(h.len, h.out) <= 1 && Gained(|ids|, |ids'|, ids', plan.Drafts(h.len, h.out) == 1)
    requires Iterates(model, plan, h, ids, tokens, ids', Continue(h'.current), h'.states)
    requires h'.len == plan.promptLen + h'.out - 1 && h'.out == |ids'| <= plan.maxNew && h'.current == ids'[|ids'| - 1]
    ensures Recorded(model, plan, heads + [h'], ids')
  {
    RecordStays(model, plan, heads, ids, ids');
    assert ids'[..|ids|] == ids && ids'[|ids|..|ids'|] == tokens && ids'[..|ids'|] == ids';
    forall i: nat | i < |heads| + 1
      ensures HeadAt(model, plan, heads + [h'], ids', i)
    {
      if i < |heads| { assert HeadAt(model, plan, heads, ids', i); }
    }
  }

  function LastOr(tokens: seq<int>, otherwise: int): int {
    if tokens == [] then otherwise else tokens[|tokens| - 1]
  }

  class Engine {
    const model: Model
    const cache: KVCache
    const config: EngineConfig
    const arena: DeviceArena
    var isLoaded: bool

    /** The arena's persistent buffer, once it exists, has room for one row of logits: prefill asked for it first. */
    ghost predicate Valid()
      reads this, cache, arena
    {
      && Fits(model, cache) && HeadCoversVocab(model)
      && (arena.persistent == None || arena.persistent == Some(RowBytes(model)))
    }

    constructor (model: Model, cache: KVCache, arena: DeviceArena, config: EngineConfig)
      requires Fits(model, cache) && HeadCoversVocab(model) && arena.persistent == None
      ensures Valid() && this.model == model && this.cache == cache && this.arena == arena && this.config == config
      ensures isLoaded
    {
      this.model, this.cache, this.arena, this.config := model, cache, arena, config;
      isLoaded := true;
    }

    /** The size of the verification pass's logits buffer. */
    function VerifyBytes(drafts: nat): nat { drafts * model.vocabSize * 4 }

    lemma OneDraftFits(drafts: nat)
      requires model.vocabSize > 0
      ensures VerifyBytes(drafts) <= RowBytes(model) <==> drafts <= 1
    {
      if drafts >= 2 { assert drafts * model.vocabSize == 2 * model.vocabSize + (drafts - 2) * model.vocabSize; }
    }

    /** Emits one token, unless it is a stop token. */
    method EmitToken(token: int, ids: seq<int>, stops: Stops, keepGoing: seq<int> -> bool)
        returns (ids': seq<int>, outcome: StepOutcome)
      requires NoStops(stops, ids)
      ensures Emits(ids, [token], stops, keepGoing, ids', outcome)
    {
      if IsStop(stops, token) { return ids, Finish(StopToken); }
      ids' := ids + [token];
      outcome := if keepGoing(ids') then Continue(token) else Finish(CallbackStop);
      assert ids'[..|ids'|] == ids';
    }

    lemma EmitsMore(ids: seq<int>, a: seq<int>, mid: seq<int>, b: seq<int>, stops: Stops, keepGoing: seq<int> -> bool,
                    ids': seq<int>, outcome: StepOutcome)
      requires mid == ids + a && (a == [] || Emits(ids, a, stops, keepGoing, mid, Continue(a[|a| - 1])))
      requires Emits(mid, b, stops, keepGoing, ids', outcome)
      ensures Emits(ids, a + b, stops, keepGoing, ids', outcome)
    {
      assert ids + (a + b) == mid + b;
      forall k | |ids| < k <= |ids'|
        ensures Passes(keepGoing, ids', k, outcome)
      {
        if k <= |mid| {
          assert Passes(keepGoing, mid, k, Continue(a[|a| - 1])) && ids'[..k] == mid[..k];
        } else {
          assert Passes(keepGoing, ids', k, outcome);
        }
      }
    }

    lemma EmitsFewer(ids: seq<int>, a: seq<int>, b: seq<int>, stops: Stops, keepGoing: seq<int> -> bool, ids': seq<int>,
                     outcome: StepOutcome)
      requires outcome.Finish? && Emits(ids, a, stops, keepGoing, ids', outcome)
      ensures Emits(ids, a + b, stops, keepGoing, ids', outcome)
    {
      assert ids + (a + b) == ids + a + b;
    }

    /** Emits tokens until one is a stop token or the callback ends the run. */
    method EmitTokens(tokens: seq<int>, ids: seq<int>, stops: Stops, keepGoing: seq<int> -> bool)
        returns (ids': seq<int>, stopped: Option<Exit>)
      requires NoStops(stops, ids)
      ensures NoStops(stops, ids')
      ensures stopped == None ==> ids' == ids + tokens
      ensures stopped == None ==> tokens == [] || Emits(ids, tokens, stops, keepGoing, ids', Continue(tokens[|tokens| - 1]))
      ensures stopped.Some? ==> Emits(ids, tokens, stops, keepGoing, ids', Finish(stopped.value))
    {
      ids' := ids;
      for i := 0 to |tokens|
        invariant NoStops(stops, ids') && ids' == ids + tokens[..i]
        invariant i == 0 || Emits(ids, tokens[..i], stops, keepGoing, ids', Continue(tokens[i - 1]))
      {
        ghost var before := ids';
        var outcome;
        ids', outcome := EmitToken(tokens[i], ids', stops, keepGoing);
        EmitsMore(ids, tokens[..i], before, [tokens[i]], stops, keepGoing, ids', outcome);
        assert tokens[..i + 1] == tokens[..i] + [tokens[i]];
        if outcome.Finish? {
          EmitsFewer(ids, tokens[..i + 1], tokens[i + 1..], stops, keepGoing, ids', outcome);
          assert tokens[..i + 1] + tokens[i + 1..] == tokens;
          return ids', Some(outcome.exit);
        }
      }
      assert tokens[..|tokens|] == tokens;
      return ids', None;
    }

    /**
      One speculative round. It throws if and only if the drafts' logits do not fit the buffer, and then has emitted
      nothing. Otherwise it emits, until a stop, the drafts before the first that its verification row disagrees with, and
      then that row's argmax, or the last row's if they all agree; the last token is current if the loop goes on. The
      recurrent state is as before the round if a draft was rejected. At least one token was emitted, at most `maxNew` are
      out in all, and the cache is again one behind them. A round that accepts all its drafts emits the last of them twice.
     */
    method SpeculativeStep(ids: seq<int>, current: int, drafted: nat, maxNew: nat, stops: Stops,
                           keepGoing: seq<int> -> bool, ghost promptLen: nat)
        returns (ids': seq<int>, outcome: StepOutcome, ghost round: Round<seq<LayerState>>)
      requires Valid() && arena.persistent.Some? && NoStops(stops, ids) && InVocab(model, current)
      requires cache.len + 1 == promptLen + |ids| && 0 < drafted < maxNew - |ids|
      requires promptLen + maxNew <= cache.maxLen
      modifies arena, cache
      ensures Valid() && arena.persistent == old(arena.persistent)
      ensures NoStops(stops, ids') && ids <= ids' && |ids'| <= |ids| + drafted + 1
      ensures outcome.Threw? <==> VerifyBytes(drafted) > arena.persistent.value
      ensures outcome.Threw? ==> ids' == ids
      ensures !outcome.Threw? ==>
        IsRound(MachineOf(model), old(States(model, cache)), current, old(cache.len), drafted, round)
      ensures !outcome.Threw? ==>
        var n := if round.kept < drafted then round.kept else drafted - 1;
        Emits(ids, round.drafts[..round.kept] + [round.picks[n]], stops, keepGoing, ids', outcome)
      ensures !outcome.Threw? ==> States(model, cache) == End(MachineOf(model), old(States(model, cache)), round)
      ensures outcome.Continue? ==>
        |ids'| > |ids| && cache.len + 1 == promptLen + |ids'| && InVocab(model, outcome.current)
      ensures outcome.Continue? ==>
        if |ids'| == |ids| + drafted + 1 then ids'[|ids'| - 1] == ids'[|ids'| - 2]
        else cache.recurrent == old(cache.recurrent)
    {
      ghost var recurrent, kv, sts, len := cache.recurrent, cache.kv, States(model, cache), cache.len;
      var drafts, logits;
      ghost var chain;
      drafts, logits, chain := DraftAndVerify(current, drafted);
      round := Round(chain, drafts, [], States(model, cache), 0);
      if logits.None? { return ids, Threw, round; }
      var accept;
      accept, round := Judge(drafts, logits.value, sts, current, len, chain, States(model, cache));
      if accept.LogicError? { return ids, Threw, round; }
      var r := accept.result;
      RollsBack(model.layers, kv, recurrent, cache.kv, cache.recurrent);
      ids', outcome := FinishRound(ids, r, current, drafted, maxNew, stops, keepGoing, promptLen, recurrent);
      EmittedTwice(ids, round, drafted, stops, keepGoing, ids', outcome);
    }

    /** Accept or reject the drafts, which completes the round. */
    method Judge(drafts: seq<int>, logits: seq<seq<real>>, ghost sts: seq<LayerState>, ghost current: int, ghost len: nat,
                 ghost chain: seq<seq<LayerState>>, ghost verified: seq<LayerState>)
        returns (accept: AcceptOutcome, ghost round: Round<seq<LayerState>>)
      requires |drafts| == |logits| > 0 && IsDraft(StepOf(model), chain, current, len, drafts) && chain[0] == sts
      requires MachineOf(model).verify(chain[|drafts|], drafts, len, Picks(logits), verified)
      requires model.vocabSize > 0 && forall i :: 0 <= i < |logits| ==> |logits[i]| == model.vocabSize
      ensures IsRound(MachineOf(model), sts, current, len, |drafts|, round)
      ensures round.drafts == drafts && round.verified == verified
      ensures accept.Accepted? &&
        var r := accept.result;
        && round.kept == |r.accepted| && r.hasRejected == (|r.accepted| < |drafts|) && InVocab(model, r.bonusOrResampled)
        && round.Tokens() == r.accepted + [r.bonusOrResampled]
    {
      accept := SpeculativeAcceptReject(Greedy, drafts, logits, model.vocabSize);
      ArgmaxOfRows(drafts, logits, accept.result);
      round := MakesRound(sts, current, len, chain, drafts, logits, verified, accept.result);
    }

    /** What drafting, verifying and judging give is a round; and what is to be emitted is what it yields. */
    lemma MakesRound(sts: seq<LayerState>, current: int, len: nat, chain: seq<seq<LayerState>>, drafts: seq<int>,
                     logits: seq<seq<real>>, verified: seq<LayerState>, r: Acceptance)
        returns (round: Round<seq<LayerState>>)
      requires |drafts| == |logits| > 0 && IsDraft(StepOf(model), chain, current, len, drafts) && chain[0] == sts
      requires MachineOf(model).verify(chain[|drafts|], drafts, len, Picks(logits), verified)
      requires var n := AcceptedPrefix(Greedy, drafts, logits, 0);
        && r.accepted == drafts[..n] && r.hasRejected == (n < |drafts|)
        && r.bonusOrResampled == Argmax(logits[if n < |drafts| then n else |drafts| - 1])
      ensures IsRound(MachineOf(model), sts, current, len, |drafts|, round)
      ensures round.drafts == drafts && round.verified == verified && round.kept == |r.accepted|
      ensures round.Tokens() == r.accepted + [r.bonusOrResampled]
    {
      var n := AcceptedPrefix(Greedy, drafts, logits, 0);
      round := Round(chain, drafts, Picks(logits), verified, n);
      forall i | 0 <= i < n
        ensures drafts[i] == Picks(logits)[i]
      {
        assert Accepts(Greedy, drafts, logits, i);
      }
    }

    /** A round that goes on with all its drafts kept has emitted the last of them twice. */
    lemma EmittedTwice(ids: seq<int>, round: Round<seq<LayerState>>, drafted: nat, stops: Stops, keepGoing: seq<int> -> bool,
                       ids': seq<int>, outcome: StepOutcome)
      requires |round.drafts| == |round.picks| == drafted > 0 && round.kept <= drafted
      requires forall i :: 0 <= i < round.kept ==> round.drafts[i] == round.picks[i]
      requires Emits(ids, round.Tokens(), stops, keepGoing, ids', outcome)
      ensures ids <= ids' && |ids'| <= |ids| + drafted + 1
      ensures outcome.Continue? ==> |ids'| == |ids| + round.kept + 1
      ensures outcome.Continue? && round.kept == drafted ==> ids'[|ids'| - 1] == ids'[|ids'| - 2]
    {
    }

    /** The argmax of each row. */
    ghost function Picks(logits: seq<seq<real>>): (r: seq<int>)
      ensures |r| == |logits| && forall i :: 0 <= i < |r| ==> r[i] == Argmax(logits[i])
    {
      seq(|logits|, i requires 0 <= i < |logits| => Argmax(logits[i]))
    }

    /** Checkpoint, draft, and verify the drafts from where the cache was; None stands for the arena's exception. */
    method DraftAndVerify(current: int, drafted: nat)
        returns (drafts: seq<int>, logits: Option<seq<seq<real>>>, ghost chain: seq<seq<LayerState>>)
      requires Valid() && arena.persistent.Some? && InVocab(model, current)
      requires 0 < drafted && cache.len + drafted <= cache.maxLen
      modifies arena, cache
      ensures Valid() && arena.persistent == old(arena.persistent)
      ensures logits.None? <==> VerifyBytes(drafted) > arena.persistent.value
      ensures logits.Some? ==>
        && |drafts| == |logits.value| == drafted && cache.len == old(cache.len) + drafted
        && forall i :: 0 <= i < drafted ==> |logits.value[i]| == model.vocabSize
      ensures logits.Some? ==>
        && IsDraft(StepOf(model), chain, current, old(cache.len), drafts) && chain[0] == old(States(model, cache))
        && MachineOf(model).verify(chain[drafted], drafts, old(cache.len), Picks(logits.value), States(model, cache))
      ensures if cache.hasCheckpoint then cache.checkpoint == Some(old(cache.recurrent))
              else cache.recurrent == old(cache.recurrent)
    {
      var prefixLen := cache.len;
      cache.CheckpointRecurrentState();
      // The source falls through to a plain step when drafting fails; here it cannot fail.
      var tokens;
      tokens, chain := DraftDecodeLoop(model, cache, current, drafted);
      drafts := tokens.value;
      var ok := arena.PersistentBuffer(VerifyBytes(drafted));
      if !ok { return drafts, None, chain; }
      var rows := VerifyDrafts(drafts, prefixLen);
      logits := Some(rows);
    }

    method VerifyDrafts(drafts: seq<int>, pos: nat) returns (logits: seq<seq<real>>)
      requires Valid() && |drafts| > 0 && pos + |drafts| <= cache.maxLen
      requires forall i :: 0 <= i < |drafts| ==> InVocab(model, drafts[i])
      modifies cache`kv, cache`recurrent
      ensures Valid() && |logits| == |drafts| && forall i :: 0 <= i < |logits| ==> |logits[i]| == model.vocabSize
      ensures MachineOf(model).verify(old(States(model, cache)), drafts, pos, Picks(logits), States(model, cache))
    {
      var verified := ForwardVerify(model, cache, drafts, pos);
      logits := verified.logits;
    }

    lemma ArgmaxOfRows(drafts: seq<int>, logits: seq<seq<real>>, r: Acceptance)
      requires |logits| == |drafts| > 0 && model.vocabSize > 0
      requires forall i :: 0 <= i < |logits| ==> |logits[i]| == model.vocabSize
      requires exists i :: 0 <= i < |logits| && r.bonusOrResampled == Argmax(logits[i])
      ensures InVocab(model, r.bonusOrResampled)
    {
      var i :| 0 <= i < |logits| && r.bonusOrResampled == Argmax(logits[i]);
      ArgmaxIsMaximal(logits[i]);
    }

    /** Roll back to the accepted prefix, emit it, then emit the resampled or bonus token. */
    method FinishRound(ids: seq<int>, r: Acceptance, current: int, drafted: nat, maxNew: nat, stops: Stops,
                       keepGoing: seq<int> -> bool, ghost promptLen: nat, ghost recurrent: Recurrent)
        returns (ids': seq<int>, outcome: StepOutcome)
      requires Valid() && NoStops(stops, ids) && 1 <= promptLen + |ids|
      requires cache.len + 1 == promptLen + |ids| + drafted && 0 < drafted < maxNew - |ids|
      requires promptLen + maxNew <= cache.maxLen
      requires |r.accepted| <= drafted && r.hasRejected == (|r.accepted| < drafted)
      requires InVocab(model, r.bonusOrResampled)
      requires if cache.hasCheckpoint then cache.checkpoint == Some(recurrent) else cache.recurrent == recurrent
      modifies cache`len, cache`recurrent, cache`hasCheckpoint
      ensures Valid() && Emits(ids, r.accepted + [r.bonusOrResampled], stops, keepGoing, ids', outcome)
      ensures cache.recurrent == if r.hasRejected then recurrent else old(cache.recurrent)
      ensures outcome.Continue? ==> cache.len + 1 == promptLen + |ids'|
    {
      if r.hasRejected {
        var rolledBack := cache.Rollback(drafted - |r.accepted|);
        if !rolledBack { return ids, Threw; }
      }
      var next := r.bonusOrResampled;
      var stopped;
      ids', stopped := EmitTokens(r.accepted, ids, stops, keepGoing);
      if stopped.Some? {
        EmitsFewer(ids, r.accepted, [next], stops, keepGoing, ids', Finish(stopped.value));
        return ids', Finish(stopped.value);
      }
      if next >= 0 && (r.hasRejected || |ids'| < maxNew) {
        ghost var before := ids';
        ids', outcome := EmitToken(next, ids', stops, keepGoing);
        EmitsMore(ids, r.accepted, before, [next], stops, keepGoing, ids', outcome);
        if outcome.Finish? { return ids', outcome; }
        var advanced := cache.Advance(1);
        if !advanced { return ids', Finish(AdvanceClamped); }
        return ids', outcome;
      }
      // Never taken: a round drafts fewer tokens than are left to emit, so there is room for the bonus token.
      outcome := Continue(if r.hasRejected then current else LastOr(r.accepted, current));
    }

    /**
      One ordinary step: the decode step's token is emitted. `history` is what the cache holds before it; on a cache that
      tracks `history` the next token is the stateless reference's for `history + [current]`.
     */
    method SingleStep(ids: seq<int>, current: int, stops: Stops, keepGoing: seq<int> -> bool, ghost history: seq<int>)
        returns (ids': seq<int>, outcome: StepOutcome, ghost token: int)
      requires Valid() && NoStops(stops, ids) && InVocab(model, current)
      requires cache.len == |history| < cache.maxLen
      modifies cache`kv, cache`recurrent, cache`len
      ensures Valid() && Emits(ids, [token], stops, keepGoing, ids', outcome)
      ensures StepOf(model)(old(States(model, cache)), current, old(cache.len), token, States(model, cache))
      ensures cache.len == old(cache.len) + 1 && InVocab(model, token)
      ensures old(Tracks(model, States(model, cache), history)) ==>
        Tracks(model, States(model, cache), history + [current]) && token == NextToken(model, history + [current])
    {
      var next := DecodeOne(current, history);
      token := next;
      if next < 0 { return ids, Finish(StepFailed), token; }
      ids', outcome := EmitToken(next, ids, stops, keepGoing);
    }

    method DecodeOne(current: int, ghost history: seq<int>) returns (next: int)
      requires Valid() && InVocab(model, current) && cache.len == |history| < cache.maxLen
      modifies cache`kv, cache`recurrent, cache`len
      ensures Valid() && cache.len == old(cache.len) + 1 && InVocab(model, next)
      ensures StepOf(model)(old(States(model, cache)), current, old(cache.len), next, States(model, cache))
      ensures old(Tracks(model, States(model, cache), history)) ==>
        Tracks(model, States(model, cache), history + [current]) && next == NextToken(model, history + [current])
    {
      ghost var sts := States(model, cache);
      RoomInCache(model, cache, cache.maxLen);
      next := DecodeToken(model, cache, current);
      if Tracks(model, sts, history) {
        StepTracks(model, sts, history, current, next, States(model, cache), cache.maxLen);
      }
    }

    // -------------------------------------------------------------- the decode loop

    /** What holds whenever the loop condition is evaluated. */
    ghost predicate AtLoopHead(prompt: seq<int>, ids: seq<int>, current: int, maxNew: nat, stops: Stops, speculative: bool)
      reads this, cache, arena
    {
      && Valid() && prompt != [] && 0 < |ids| <= maxNew && |prompt| + maxNew <= cache.maxLen
      && cache.len == |prompt| + |ids| - 1
      && NoStops(stops, ids) && InVocab(model, current) && current == ids[|ids| - 1]
      && (!speculative ==>
            IsGreedy(model, prompt, ids) && Tracks(model, States(model, cache), prompt + ids[..|ids| - 1]))
    }

    method PlainIteration(prompt: seq<int>, ids: seq<int>, current: int, maxNew: nat, stops: Stops, speculative: bool,
                          keepGoing: seq<int> -> bool)
        returns (ids': seq<int>, outcome: StepOutcome, ghost token: int)
      requires AtLoopHead(prompt, ids, current, maxNew, stops, speculative) && |ids| < maxNew
      modifies cache`kv, cache`recurrent, cache`len
      ensures Valid() && Emits(ids, [token], stops, keepGoing, ids', outcome)
      ensures StepOf(model)(old(States(model, cache)), current, old(cache.len), token, States(model, cache))
      ensures outcome.Continue? ==> AtLoopHead(prompt, ids', outcome.current, maxNew, stops, speculative)
      ensures outcome.Finish? ==> GoodRun(prompt, Success(ids', outcome.exit), maxNew, stops, speculative)
    {
      ghost var history := prompt + ids[..|ids| - 1];
      if !speculative {
        assert history + [current] == prompt + ids;
      } else {
        history := seq(cache.len, _ => 0);
      }
      ids', outcome, token := SingleStep(ids, current, stops, keepGoing, history);
      if !speculative {
        GreedyExtends(prompt, ids, ids');
        assert outcome.Continue? ==> ids'[..|ids'| - 1] == ids;
      }
    }

    lemma GreedyExtends(prompt: seq<int>, ids: seq<int>, ids': seq<int>)
      requires IsGreedy(model, prompt, ids)
      requires ids' == ids || ids' == ids + [NextToken(model, prompt + ids)]
      ensures IsGreedy(model, prompt, ids')
    {
      forall i | 0 <= i < |ids'|
        ensures ids'[i] == NextToken(model, prompt + ids'[..i])
      {
        assert i < |ids| ==> ids'[..i] == ids[..i];
        assert i == |ids| ==> ids'[..i] == ids;
      }
    }

    /** What is promised of a run that reached the decode loop. */
    ghost predicate GoodRun(prompt: seq<int>, r: Result, maxNew: nat, stops: Stops, speculative: bool) {
      && NoStops(stops, r.ids) && |r.ids| <= maxNew && prompt != []
      && (r.Success? ==> r.exit == MaxTokens || r.exit == StopToken || r.exit == CallbackStop)
      && (r.Success? && r.exit == MaxTokens ==> |r.ids| == maxNew)
      && (!speculative ==> IsGreedy(model, prompt, r.ids))
      && (!speculative && r.Success? && r.exit == StopToken ==> IsStop(stops, NextToken(model, prompt + r.ids)))
    }

    lemma HeadIsGood(prompt: seq<int>, ids: seq<int>, current: int, maxNew: nat, stops: Stops, speculative: bool)
      requires AtLoopHead(prompt, ids, current, maxNew, stops, speculative)
      ensures GoodRun(prompt, Failure(ids, Exception), maxNew, stops, speculative)
      ensures |ids| == maxNew ==> GoodRun(prompt, Success(ids, MaxTokens), maxNew, stops, speculative)
      ensures |ids| < maxNew ==> cache.len < cache.maxLen
    {
    }

    method SpeculativeIteration(prompt: seq<int>, ids: seq<int>, current: int, maxNew: nat, stops: Stops, count: nat,
                                keepGoing: seq<int> -> bool)
        returns (ids': seq<int>, outcome: StepOutcome, ghost tokens: seq<int>)
      requires AtLoopHead(prompt, ids, current, maxNew, stops, true) && 0 < count < maxNew - |ids|
      requires arena.persistent.Some?
      modifies arena, cache
      ensures Valid() && arena.persistent == old(arena.persistent)
      ensures outcome.Threw? <==> count >= 2
      ensures outcome.Threw? ==> ids' == ids
      ensures !outcome.Threw? ==>
        && Yields(MachineOf(model), old(States(model, cache)), current, old(cache.len), count, tokens, States(model, cache))
        && Emits(ids, tokens, stops, keepGoing, ids', outcome)
      ensures outcome.Continue? ==> AtLoopHead(prompt, ids', outcome.current, maxNew, stops, true)
      ensures outcome.Continue? ==> Gained(|ids|, |ids'|, ids', true)
      ensures outcome.Finish? ==> GoodRun(prompt, Success(ids', outcome.exit), maxNew, stops, true)
      ensures ids <= ids' && |ids'| <= |ids| + 2
    {
      OneDraftFits(count);
      ghost var round;
      ids', outcome, round := SpeculativeStep(ids, current, count, maxNew, stops, keepGoing, |prompt|);
      tokens := if outcome.Threw? then [] else round.Tokens();
    }

    ghost predicate IsFor(plan: Plan, prompt: seq<int>) {
      plan.promptLen == |prompt| && plan.maxLen == cache.maxLen && plan.draftN > 0
    }

    /** What is recorded of the present. */
    ghost function Here(out: nat, current: int): Head
      requires Valid()
      reads this, cache, arena
    {
      Head(cache.len, out, current, States(model, cache))
    }

    /** One iteration past the capacity guard: a speculative round where there is room for one, else a plain step. */
    method Iterate(prompt: seq<int>, ids: seq<int>, current: int, plan: Plan)
        returns (ids': seq<int>, outcome: StepOutcome, ghost tokens: seq<int>)
      requires IsFor(plan, prompt) && |ids| < plan.maxNew && arena.persistent.Some?
      requires AtLoopHead(prompt, ids, current, plan.maxNew, plan.stops, plan.speculative)
      modifies arena, cache
      ensures Valid() && arena.persistent == old(arena.persistent)
      ensures outcome.Threw? <==> plan.Drafts(old(cache.len), |ids|) >= 2
      ensures outcome.Threw? ==> ids' == ids
      ensures !outcome.Threw? ==>
        Iterates(model, plan, old(Here(|ids|, current)), ids, tokens, ids', outcome, States(model, cache))
      ensures outcome.Continue? ==> AtLoopHead(prompt, ids', outcome.current, plan.maxNew, plan.stops, plan.speculative)
      ensures outcome.Continue? ==> Gained(|ids|, |ids'|, ids', plan.Drafts(old(cache.len), |ids|) == 1)
      ensures outcome.Finish? ==> GoodRun(prompt, Success(ids', outcome.exit), plan.maxNew, plan.stops, plan.speculative)
      ensures outcome.Finish? ==> outcome.exit != MaxTokens
      ensures ids <= ids' && |ids'| <= |ids| + 2
    {
      var remaining := plan.maxNew - |ids|;
      if plan.speculative && remaining > 1 && cache.len + plan.draftN <= cache.maxLen {
        var count := if plan.draftN < remaining - 1 then plan.draftN else remaining - 1;
        ids', outcome, tokens := SpeculativeIteration(prompt, ids, current, plan.maxNew, plan.stops, count, plan.keepGoing);
      } else {
        ghost var token;
        ids', outcome, token := PlainIteration(prompt, ids, current, plan.maxNew, plan.stops, plan.speculative, plan.keepGoing);
        tokens := [token];
      }
    }

    /** One turn of the loop: a result if the run ends here, or else the tokens and the current one for the next turn. */
    method LoopTurn(prompt: seq<int>, ids: seq<int>, current: int, plan: Plan, fault: bool, ghost heads: seq<Head>)
        returns (r: Option<Result>, ids': seq<int>, current': int, ghost heads': seq<Head>)
      requires IsFor(plan, prompt) && |ids| < plan.maxNew && arena.persistent.Some?
      requires AtLoopHead(prompt, ids, current, plan.maxNew, plan.stops, plan.speculative)
      requires Recorded(model, plan, heads, ids) && heads[|heads| - 1] == Here(|ids|, current)
      requires plan.DraftsTooMany() ==> |ids| == 1
      modifies arena, cache
      ensures Valid() && arena.persistent == old(arena.persistent)
      ensures r.Some? ==> GoodRun(prompt, r.value, plan.maxNew, plan.stops, plan.speculative)
      ensures r.Some? ==> Recorded(model, plan, heads', r.value.ids) && EndsAfter(model, plan, heads', r.value)
      ensures r.Some? && r.value.Failure? <==> fault || plan.DraftsTooMany()
      ensures r.Some? && r.value.Failure? ==> r.value == Failure(ids, Exception)
      ensures r.None? ==> AtLoopHead(prompt, ids', current', plan.maxNew, plan.stops, plan.speculative)
      ensures r.None? ==> ids <= ids' && |ids| < |ids'|
      ensures r.None? ==> Recorded(model, plan, heads', ids') && heads'[|heads'| - 1] == Here(|ids'|, current')
      ensures heads <= heads'
    {
      ids', current', heads' := ids, current, heads;
      HeadIsGood(prompt, ids, current, plan.maxNew, plan.stops, plan.speculative);
      if fault { return Some(Failure(ids, Exception)), ids, current, heads; }
      if cache.len >= cache.maxLen { return Some(Success(ids, CacheFull)), ids, current, heads; }
      ghost var here := Here(|ids|, current);
      plan.LaterDraftsLess(cache.len, |ids|);
      var outcome;
      ghost var tokens;
      ids', outcome, tokens := Iterate(prompt, ids, current, plan);
      RecordStays(model, plan, heads, ids, ids');
      match outcome
      case Threw => r := Some(Failure(ids', Exception));
      case Finish(exit) =>
        r := Some(Success(ids', exit));
        assert ids'[..|ids|] == ids;
      case Continue(next) =>
        r, current' := None, next;
        RecordGrows(model, plan, heads, here, ids, tokens, ids', Here(|ids'|, next));
        heads' := heads + [Here(|ids'|, next)];
    }

    /**
      The loop. `faults(n)` says that a device call in iteration `n`, from 1 on, throws; whichever call it is, nothing has
      been emitted in that iteration by then. `heads` records, for the caller's reasoning, every evaluation of the loop
      condition.
     */
    method DecodeLoop(prompt: seq<int>, first: int, plan: Plan, faults: nat -> bool) returns (r: Result, ghost heads: seq<Head>)
      requires IsFor(plan, prompt) && arena.persistent.Some?
      requires AtLoopHead(prompt, [first], first, plan.maxNew, plan.stops, plan.speculative)
      modifies arena, cache
      ensures Valid() && GoodRun(prompt, r, plan.maxNew, plan.stops, plan.speculative)
      ensures Recorded(model, plan, heads, r.ids) && EndsAfter(model, plan, heads, r) && heads[0] == old(Here(1, first))
      ensures plan.DraftsTooMany() ==> r == Failure([first], Exception)
      ensures !plan.DraftsTooMany() && (forall n :: !faults(n)) ==> r.Success?
      ensures r.Failure? ==> r.error == Exception
    {
      var ids, current := [first], first;
      var iteration := 1;
      heads := [Here(1, first)];
      ghost var start := heads;
      while |ids| < plan.maxNew
        invariant AtLoopHead(prompt, ids, current, plan.maxNew, plan.stops, plan.speculative) && arena.persistent.Some?
        invariant Recorded(model, plan, heads, ids) && heads[|heads| - 1] == Here(|ids|, current) && start <= heads
        invariant plan.DraftsTooMany() ==> ids == [first]
        decreases plan.maxNew - |ids|
      {
        var result;
        result, ids, current, heads := LoopTurn(prompt, ids, current, plan, faults(iteration), heads);
        iteration := iteration + 1;
        if result.Some? { return result.value, heads; }
      }
      HeadIsGood(prompt, ids, current, plan.maxNew, plan.stops, plan.speculative);
      return Success(ids, MaxTokens), heads;
    }

    /** The requests that reach the decode loop. */
    ghost predicate EntersLoop(prompt: seq<int>, gen: GenerationConfig, keepGoing: seq<int> -> bool)
      reads this
    {
      && Admissible(prompt, gen) && StopsOf(gen).eos >= 0
      && Prefillable(model, prompt, cache.maxLen)
      && !IsStop(StopsOf(gen), NextToken(model, prompt)) && keepGoing([NextToken(model, prompt)])
    }

    /** Speculation is on, a round drafts two tokens or more, and there is room for that in the request and in the cache. */
    predicate FirstRoundFails(prompt: seq<int>, gen: GenerationConfig)
      reads this, cache
    {
      var drafts := if gen.draftTokensNum > 0 then gen.draftTokensNum
                    else if config.draftTokensNum > 0 then config.draftTokensNum else 4;
      && (config.enableSpeculative || gen.draftTokensNum > 0) && config.draftReady
      && drafts >= 2 && gen.maxNewTokens >= 4 && |prompt| + drafts <= cache.maxLen
    }

    lemma FirstRoundIff(prompt: seq<int>, gen: GenerationConfig, keepGoing: seq<int> -> bool)
      requires gen.maxNewTokens >= 0
      ensures FirstRoundFails(prompt, gen) <==> PlanOf(prompt, gen, keepGoing).DraftsTooMany()
    {
    }

    /** Neither the request's stop tokens, nor, where it names none, the engine's. */
    ghost predicate HoldsNoStop(gen: GenerationConfig, ids: seq<int>)
      reads this
    {
      var eos := if gen.eosTokenId >= 0 then gen.eosTokenId else config.eosTokenId;
      var imEnd := if gen.imEndTokenId >= 0 then gen.imEndTokenId else config.imEndTokenId;
      forall i :: 0 <= i < |ids| ==> ids[i] != eos && (imEnd < 0 || ids[i] != imEnd)
    }

    /** Each request that is not admitted gets the error of the first check that it fails. */
    ghost predicate RefusedRightly(prompt: seq<int>, gen: GenerationConfig, r: Result)
      reads this, cache
    {
      var inRange := gen.maxNewTokens > 0 && gen.temperature >= 0.0;
      var greedy := gen.temperature == 0.0 && gen.topP == 1.0;
      && (!isLoaded ==> r == Failure([], NotLoaded))
      && (isLoaded && !inRange ==> r == Failure([], InvalidParameter))
      && (isLoaded && inRange && !greedy ==> r == Failure([], UnsupportedParameter))
      && (isLoaded && inRange && greedy && prompt == [] ==> r == Failure([], EmptyPrompt))
      && (isLoaded && inRange && greedy && prompt != [] && |prompt| + gen.maxNewTokens > cache.maxLen ==>
            r == Failure([], ContextLength))
    }

    /** What the decode loop goes by in this request. */
    function PlanOf(prompt: seq<int>, gen: GenerationConfig, keepGoing: seq<int> -> bool): Plan
      requires gen.maxNewTokens >= 0
    {
      Plan(|prompt|, gen.maxNewTokens, UsesSpeculation(gen), DraftCount(gen), cache.maxLen, StopsOf(gen), keepGoing)
    }

    /**
      `generate`, from the prompt's tokens on. Over every model, prompt, callback and pattern of faults:
      at each loop head the cache is one behind the tokens out; no stop token is ever emitted; never more than
      `maxNewTokens` are; a run that succeeds ended by a stop, or with exactly `maxNewTokens`, never because the cache
      filled up, a step failed or an advance was clamped; without speculation the ids are the greedy continuation that
      re-running the whole sequence for every token would give. Device faults aside, a run that enters the loop fails if and
      only if its first iteration is a speculative round of two or more drafts. An exception leaves the cache cleared.
     */
    method Generate(prompt: seq<int>, gen: GenerationConfig, keepGoing: seq<int> -> bool, faults: nat -> bool)
        returns (r: Result, ghost heads: seq<Head>)
      requires Valid()
      modifies arena, cache
      ensures Valid()
      ensures NoStops(StopsOf(gen), r.ids) && HoldsNoStop(gen, r.ids) && (gen.maxNewTokens >= 0 ==> |r.ids| <= gen.maxNewTokens)
      ensures r.Success? ==> Admissible(prompt, gen)
      ensures RefusedRightly(prompt, gen, r)
      ensures Admissible(prompt, gen) && !Prefillable(model, prompt, cache.maxLen) ==> r == Failure([], PrefillFailed)
      ensures Admissible(prompt, gen) && Prefillable(model, prompt, cache.maxLen) && faults(0) ==> r == Failure([], Exception)
      ensures r.Success? ==> r.exit == MaxTokens || r.exit == StopToken || r.exit == CallbackStop
      ensures r.Success? && Reason(r.exit) == Length ==> |r.ids| == gen.maxNewTokens
      ensures heads != [] <==> EntersLoop(prompt, gen, keepGoing) && !faults(0)
      ensures heads != [] ==>
        && Recorded(model, PlanOf(prompt, gen, keepGoing), heads, r.ids)
        && EndsAfter(model, PlanOf(prompt, gen, keepGoing), heads, r)
        && heads[0].states == Prefilled(model, Cleared(model, old(States(model, cache))), prompt)
        && heads[0].current == NextToken(model, prompt)
      ensures heads == [] && Admissible(prompt, gen) && Prefillable(model, prompt, cache.maxLen) && !faults(0) ==>
        var first := NextToken(model, prompt);
        r == if StopsOf(gen).eos < 0 then Failure([], MissingEos)
             else if IsStop(StopsOf(gen), first) then Success([], StopToken)
             else Success([first], CallbackStop)
      ensures r.Success? && !UsesSpeculation(gen) ==> IsGreedy(model, prompt, r.ids)
      ensures r.Success? && !UsesSpeculation(gen) && r.exit == StopToken ==>
        IsStop(StopsOf(gen), NextToken(model, prompt + r.ids))
      ensures r.Failure? && r.error == Exception ==>
        && (faults(0) || EntersLoop(prompt, gen, keepGoing))
        && cache.len == 0 && !cache.hasCheckpoint
        && States(model, cache) == Cleared(model, States(model, cache))
      ensures EntersLoop(prompt, gen, keepGoing) && FirstRoundFails(prompt, gen) && !faults(0) ==>
        r == Failure([NextToken(model, prompt)], Exception)
      ensures (forall n :: !faults(n)) ==>
        (r.Success? <==>
          && Admissible(prompt, gen) && Prefillable(model, prompt, cache.maxLen) && StopsOf(gen).eos >= 0
          && !(EntersLoop(prompt, gen, keepGoing) && FirstRoundFails(prompt, gen)))
    {
      heads := [];
      var refused := Admit(prompt, gen);
      if refused.Some? { return Failure([], refused.value), heads; }
      var first, error := Begin(prompt, faults(0));
      if error.Some? {
        if error.value == Exception { Reset(); }
        return Failure([], error.value), heads;
      }
      var stops := StopsOf(gen);
      if stops.eos < 0 { return Failure([], MissingEos), heads; }
      EmptyIsGreedy(prompt, first);
      if IsStop(stops, first) { return Success([], StopToken), heads; }
      if !keepGoing([first]) { return Success([first], CallbackStop), heads; }
      FirstRoundIff(prompt, gen, keepGoing);
      r, heads := DecodeLoop(prompt, first, PlanOf(prompt, gen, keepGoing), faults);
      if r.Failure? { Reset(); }
    }

    /** `reset`, which every exception handler calls. */
    method Reset()
      requires Valid()
      modifies cache
      ensures Valid() && cache.len == 0 && !cache.hasCheckpoint
      ensures States(model, cache) == Cleared(model, old(States(model, cache)))
      ensures States(model, cache) == Cleared(model, States(model, cache))
    {
      ClearCache(model, cache);
    }

    predicate Admissible(prompt: seq<int>, gen: GenerationConfig)
      reads this
    {
      && isLoaded && prompt != [] && gen.temperature == 0.0 && gen.topP == 1.0
      && ValidateTokens(|prompt|, gen.maxNewTokens, cache.maxLen)
    }

    /** The checks that come before any device work. */
    method Admit(prompt: seq<int>, gen: GenerationConfig) returns (refused: Option<Error>)
      ensures refused == None <==> Admissible(prompt, gen)
      ensures refused.Some? ==> refused.value != Exception && RefusedRightly(prompt, gen, Failure([], refused.value))
      ensures refused == None ==> forall r :: RefusedRightly(prompt, gen, r)
    {
      if !isLoaded { return Some(NotLoaded); }
      if gen.maxNewTokens <= 0 { return Some(InvalidParameter); }
      if gen.temperature < 0.0 { return Some(InvalidParameter); }
      if gen.temperature != 0.0 || gen.topP != 1.0 { return Some(UnsupportedParameter); }
      if prompt == [] { return Some(EmptyPrompt); }
      if !ValidateTokens(|prompt|, gen.maxNewTokens, cache.maxLen) { return Some(ContextLength); }
      return None;
    }

    /**
      The prefill, in which a device call may fail, and the first token. The buffer cannot be refused: prefill is the first
      to ask for it, or asks for as much again.
     */
    method Begin(prompt: seq<int>, fault: bool) returns (first: int, error: Option<Error>)
      requires Valid() && 0 < |prompt| <= cache.maxLen
      modifies arena, cache
      ensures Valid()
      ensures error == if !Prefillable(model, prompt, cache.maxLen) then Some(PrefillFailed)
                       else if fault then Some(Exception) else None
      ensures error == None ==>
        && first == NextToken(model, prompt) && InVocab(model, first)
        && cache.len == |prompt| && Tracks(model, States(model, cache), prompt)
        && States(model, cache) == Prefilled(model, Cleared(model, old(States(model, cache))), prompt)
        && arena.persistent == Some(RowBytes(model))
    {
      ghost var good := Prefillable(model, prompt, cache.maxLen);
      if good { NextInVocab(prompt); }
      assert good ==> arena.Grants(RowBytes(model));
      var outcome := PrefillPrompt(model, cache, arena, prompt, config.prefillChunkSize);
      if outcome.BufferRefused? { return -1, Some(Exception); }
      if outcome.ContextLengthExceeded? { return -1, Some(ContextLength); }
      if outcome.id < 0 { return -1, Some(PrefillFailed); }
      if fault { return -1, Some(Exception); }
      return outcome.id, None;
    }

    lemma NextInVocab(prompt: seq<int>)
      requires HeadCoversVocab(model) && prompt != [] && InVocab(model, prompt[0])
      ensures InVocab(model, NextToken(model, prompt))
    {
      ArgmaxInVocab(model, RunLayersRows(model.layers, Blank(model, |prompt|), Embedded(model, prompt), 0)[|prompt| - 1]);
    }

    lemma EmptyIsGreedy(prompt: seq<int>, first: int)
      requires prompt != [] && first == NextToken(model, prompt)
      ensures IsGreedy(model, prompt, []) && IsGreedy(model, prompt, [first])
      ensures prompt + [] == prompt && prompt + [first][..0] == prompt
    {
      assert prompt + [] == prompt;
      assert [first][..0] == [];
    }

    function StopsOf(gen: GenerationConfig): Stops {
      Stops(if gen.eosTokenId >= 0 then gen.eosTokenId else config.eosTokenId,
            if gen.imEndTokenId >= 0 then gen.imEndTokenId else config.imEndTokenId)
    }

    predicate UsesSpeculation(gen: GenerationConfig) {
      (config.enableSpeculative || gen.draftTokensNum > 0) && config.draftReady
    }

    /** The number of tokens that a round drafts where there is room. */
    function DraftCount(gen: GenerationConfig): (n: nat)
      ensures n > 0
    {
      if gen.draftTokensNum > 0 then gen.draftTokensNum
      else if config.draftTokensNum == 0 then 4
      else config.draftTokensNum
    }
  }

  /** A model of two words and no layers that always says the second. */
  function Echo(): Model {
    Model(_ => [], [], _ => [0.0, 1.0], 2, [], [])
  }

  lemma EchoSaysOne(prompt: seq<int>)
    requires prompt != []
    ensures NextToken(Echo(), prompt) == 1
  {
    var logits := LastLogits(Echo(), Blank(Echo(), |prompt|), prompt);
    assert logits == [0.0, 1.0];
    ArgmaxIsMaximal(logits);
    assert logits[1] <= logits[Argmax(logits)];
  }

  /** An instance: with speculation on and its default of four drafts, a request for eight tokens fails after the first. */
  method DefaultsFail() returns (r: Result)
    ensures r == Failure([1], Exception)
  {
    var cache := new KVCache(16, 0, 0, [], []);
    var arena := new DeviceArena();
    var engine := new Engine(Echo(), cache, arena, EngineConfig(512, true, 4, true, 0, -1));
    EchoSaysOne([0]);
    ghost var heads;
    r, heads :=
      engine.Generate([0], GenerationConfig(8, 0.0, 1.0, 0, -1, -1), _ => true, _ => false);
  }
}
