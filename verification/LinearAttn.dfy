/**
  The stateful kernels of a linear-attention layer (src/targets/qwen3_8/linear_attn.cpp): the four-tap causal
  convolution with its three-deep window, and the gated delta recurrence on one column of the state matrix.
 */
module LinearAttn {
  import opened Bytes
  import opened Vectors

  // ---------------------------------------------------------------- causal convolution

  /**
    What the convolution means: slide a four-tap window over the carried history followed by the input. `taps` is the
    weighted sum and SiLU of one output row (or of one channel of it) as a function of the four rows it sees.
   */
  function ConvOutputs<R>(taps: (R, R, R, R) -> R, window: seq<R>, input: seq<R>): (out: seq<R>)
    requires |window| == 3
    ensures |out| == |input|
  {
    var h := window + input;
    seq(|input|, t requires 0 <= t < |input| => taps(h[t], h[t + 1], h[t + 2], h[t + 3]))
  }

  function LastThree<R>(history: seq<R>): (r: seq<R>)
    requires |history| >= 3
    ensures |r| == 3
  {
    history[|history| - 3..]
  }

  /** The value tap `k` of output `t` reads: the input if the source step is in it, else the carried window. */
  function TapSource<R>(window: seq<R>, input: seq<R>, t: nat, k: nat): R
    requires |window| == 3 && t < |input| && k < 4
  {
    var src := t - (3 - k);
    if src >= 0 then input[src] else window[3 + src]
  }

  /** `causal_conv1d_silu_impl`: one step, or a batch followed by the window update for length 2 or at least 3. */
  method CausalConv1d<R>(taps: (R, R, R, R) -> R, input: seq<R>, state: array<R>) returns (out: seq<R>)
    requires state.Length == 3
    modifies state
    ensures out == ConvOutputs(taps, old(state[..]), input)
    ensures state[..] == LastThree(old(state[..]) + input)
  {
    if |input| == 0 { return []; }
    if |input| == 1 {
      var s0, s1, s2 := state[0], state[1], state[2];
      out := [taps(s0, s1, s2, input[0])];
      state[0] := s1;
      state[1] := s2;
      state[2] := input[0];
      return;
    }
    out := [];
    for t := 0 to |input|
      invariant out == ConvOutputs(taps, state[..], input)[..t]
    {
      var w := state[..];
      out := out + [taps(TapSource(w, input, t, 0), TapSource(w, input, t, 1), TapSource(w, input, t, 2),
                         TapSource(w, input, t, 3))];
    }
    if |input| >= 3 {
      state[0] := input[|input| - 3];
      state[1] := input[|input| - 2];
      state[2] := input[|input| - 1];
    } else if |input| == 2 {
      state[0] := state[2];
      state[1] := input[0];
      state[2] := input[1];
    }
  }

  /** `h` is the window followed by the input, and `convs` what the taps make of each four neighbours in it. */
  ghost predicate AreConvs<R>(taps: (R, R, R, R) -> R, window: seq<R>, input: seq<R>, h: seq<R>, convs: seq<R>) {
    && |window| == 3 && |h| == |input| + 3 && h[0] == window[0] && h[1] == window[1] && h[2] == window[2]
    && (forall j :: 0 <= j < |input| ==> h[j + 3] == input[j])
    && |convs| == |input| && forall t: nat :: t < |input| ==> convs[t] == taps(h[t], h[t + 1], h[t + 2], h[t + 3])
  }

  lemma IsWindowThenInput<R>(window: seq<R>, input: seq<R>, h: seq<R>)
    requires |window| == 3 && |h| == |input| + 3 && h[0] == window[0] && h[1] == window[1] && h[2] == window[2]
    requires forall j :: 0 <= j < |input| ==> h[j + 3] == input[j]
    ensures h == window + input
  {
    forall i | 0 <= i < |h|
      ensures h[i] == (window + input)[i]
    {
      if i >= 3 { assert h[(i - 3) + 3] == input[i - 3]; }
    }
  }

  lemma OutputsAre<R>(taps: (R, R, R, R) -> R, window: seq<R>, input: seq<R>, h: seq<R>, convs: seq<R>)
    requires |window| == 3 && h == window + input && |convs| == |input|
    requires forall t: nat :: t < |input| ==> convs[t] == taps(h[t], h[t + 1], h[t + 2], h[t + 3])
    ensures convs == ConvOutputs(taps, window, input)
  {
  }

  lemma LastThreeAre<R>(h: seq<R>)
    requires |h| >= 3
    ensures LastThree(h) == [h[|h| - 3], h[|h| - 2], h[|h| - 1]]
  {
  }

  /** The convolution, output by output. */
  lemma ConvAt<R>(taps: (R, R, R, R) -> R, window: seq<R>, input: seq<R>, h: seq<R>, convs: seq<R>)
    requires AreConvs(taps, window, input, h, convs)
    ensures convs == ConvOutputs(taps, window, input)
    ensures LastThree(window + input) == [h[|input|], h[|input| + 1], h[|input| + 2]]
  {
    IsWindowThenInput(window, input, h);
    OutputsAre(taps, window, input, h, convs);
    LastThreeAre(h);
  }

  /** One pass over `a + b` is a pass over `a` followed, from the window it leaves, by a pass over `b`. */
  lemma ConvSplits<R>(taps: (R, R, R, R) -> R, window: seq<R>, a: seq<R>, b: seq<R>)
    requires |window| == 3
    ensures ConvOutputs(taps, window, a + b)
         == ConvOutputs(taps, window, a) + ConvOutputs(taps, LastThree(window + a), b)
    ensures LastThree(LastThree(window + a) + b) == LastThree(window + (a + b))
  {
    var h, h1, h2 := window + (a + b), window + a, LastThree(window + a) + b;
    forall t | 0 <= t < |a| + 3
      ensures h[t] == h1[t]
    {
    }
    forall t | 0 <= t < |h2|
      ensures h2[t] == h[|a| + t]
    {
    }
  }

  /** The outputs of feeding the chunks one after another. */
  function StreamOutputs<R>(taps: (R, R, R, R) -> R, window: seq<R>, chunks: seq<seq<R>>): seq<R>
    requires |window| == 3
    decreases |chunks|
  {
    if chunks == [] then []
    else ConvOutputs(taps, window, chunks[0]) + StreamOutputs(taps, LastThree(window + chunks[0]), chunks[1..])
  }

  function StreamWindow<R>(window: seq<R>, chunks: seq<seq<R>>): (r: seq<R>)
    requires |window| == 3
    ensures |r| == 3
    decreases |chunks|
  {
    if chunks == [] then window else StreamWindow(LastThree(window + chunks[0]), chunks[1..])
  }

  /** Streaming in any chunks, of any lengths, gives the outputs and the final window of a single pass. */
  lemma {:induction false} StreamingConv<R>(taps: (R, R, R, R) -> R, window: seq<R>, chunks: seq<seq<R>>)
    requires |window| == 3
    ensures StreamOutputs(taps, window, chunks) == ConvOutputs(taps, window, Concat(chunks))
    ensures StreamWindow(window, chunks) == LastThree(window + Concat(chunks))
    decreases |chunks|
  {
    if chunks == [] {
      assert window + Concat(chunks) == window;
    } else {
      StreamingConv(taps, LastThree(window + chunks[0]), chunks[1..]);
      ConvSplits(taps, window, chunks[0], Concat(chunks[1..]));
    }
  }

  // ---------------------------------------------------------------- gated delta recurrence, one column

  /** One step's inputs to a column: the normalised query and key, the value, the write strength and the decay. */
  datatype DeltaInput = DeltaInput(q: seq<real>, k: seq<real>, v: real, beta: real, decay: real)

  ghost predicate Shaped(steps: seq<DeltaInput>, n: nat) {
    forall t :: 0 <= t < |steps| ==> |steps[t].q| == |steps[t].k| == n
  }

  function Decayed(s: seq<real>, decay: real): (r: seq<real>)
    ensures |r| == |s|
  {
    seq(|s|, i requires 0 <= i < |s| => s[i] * decay)
  }

  function Moved(s: seq<real>, k: seq<real>, delta: real): (r: seq<real>)
    requires |k| == |s|
    ensures |r| == |s|
  {
    seq(|s|, i requires 0 <= i < |s| => s[i] + k[i] * delta)
  }

  function Correction(v: real, recalled: real, beta: real): real {
    (v - recalled) * beta
  }

  /** The delta rule: decay, then move what the key recalls towards `v`, along the key. */
  function DeltaStep(s: seq<real>, x: DeltaInput): (r: seq<real>)
    requires |x.k| == |s|
    ensures |r| == |s|
  {
    var decayed := Decayed(s, x.decay);
    Moved(decayed, x.k, Correction(x.v, Dot(decayed, x.k, |s|), x.beta))
  }

  function Readout(s: seq<real>, x: DeltaInput): real
    requires |x.q| == |s|
  {
    Dot(s, x.q, |s|)
  }

  lemma MovedAt(s: real, k: real, decay: real, delta: real)
    ensures s * decay + k * delta == decay * s + delta * k
  {
  }

  lemma MovedCombines(s: seq<real>, k: seq<real>, decay: real, delta: real)
    requires |k| == |s|
    ensures Combines(s, k, decay, delta, Moved(Decayed(s, decay), k, delta))
  {
    forall i: nat | i < |s|
      ensures Moved(Decayed(s, decay), k, delta)[i] == decay * s[i] + delta * k[i]
    {
      MovedAt(s[i], k[i], decay, delta);
    }
  }

  lemma Corrects(v: real, recalled: real, beta: real, delta: real)
    requires delta == beta * (v - recalled)
    ensures Correction(v, recalled, beta) == delta
  {
  }

  lemma StepIsMove(s: seq<real>, x: DeltaInput, recalled: real, correction: real)
    requires |x.k| == |s|
    requires recalled == Dot(Decayed(s, x.decay), x.k, |s|) && correction == Correction(x.v, recalled, x.beta)
    ensures DeltaStep(s, x) == Moved(Decayed(s, x.decay), x.k, correction)
  {
  }

  lemma StepMoves(s: seq<real>, x: DeltaInput, recalled: real, correction: real)
    requires |x.k| == |s| && recalled == x.decay * Dot(s, x.k, |s|) && correction == x.beta * (x.v - recalled)
    ensures DeltaStep(s, x) == Moved(Decayed(s, x.decay), x.k, correction)
  {
    DotScaled(s, Decayed(s, x.decay), x.decay, x.k, |s|);
    Corrects(x.v, recalled, x.beta, correction);
    StepIsMove(s, x, recalled, correction);
  }

  /**
    What the delta rule does, seen along any direction `u`: the old content decays, and the key's share of the direction is
    corrected by `beta` times what the decayed column fails to recall of `v`.
   */
  lemma DeltaLaw(s: seq<real>, x: DeltaInput, u: seq<real>, recalled: real, correction: real)
    requires |x.k| == |s| == |u|
    requires recalled == x.decay * Dot(s, x.k, |s|) && correction == x.beta * (x.v - recalled)
    ensures Dot(DeltaStep(s, x), u, |s|) == x.decay * Dot(s, u, |s|) + correction * Dot(x.k, u, |s|)
  {
    StepMoves(s, x, recalled, correction);
    MovedCombines(s, x.k, x.decay, correction);
    DotLinear(s, x.k, DeltaStep(s, x), x.decay, correction, u, |s|);
  }

  lemma Mixture(after: real, recalled: real, v: real, beta: real, correction: real, unit: real)
    requires correction == beta * (v - recalled) && unit == 1.0 && after == recalled + correction * unit
    ensures after == (1.0 - beta) * recalled + beta * v
  {
  }

  /** With a key of length one, the column then recalls by the key a mixture of what it did and of `v`. */
  lemma RecallAfter(s: seq<real>, x: DeltaInput, recalled: real, after: real)
    requires |x.k| == |s| && Dot(x.k, x.k, |s|) == 1.0 && recalled == x.decay * Dot(s, x.k, |s|)
    requires after == Dot(DeltaStep(s, x), x.k, |s|)
    ensures after == (1.0 - x.beta) * recalled + x.beta * x.v
  {
    var correction := x.beta * (x.v - recalled);
    DeltaLaw(s, x, x.k, recalled, correction);
    Mixture(after, recalled, x.v, x.beta, correction, Dot(x.k, x.k, |s|));
  }

  /** First pass: decay the column in place and read what it recalls. */
  method DecayPass(S: array<real>, x: DeltaInput) returns (mem: real)
    requires |x.k| == S.Length
    modifies S
    ensures S[..] == Decayed(old(S[..]), x.decay)
    ensures mem == Dot(S[..], x.k, S.Length)
  {
    ghost var s := S[..];
    ghost var after := Decayed(s, x.decay);
    mem := 0.0;
    for i := 0 to S.Length
      invariant forall j :: 0 <= j < S.Length ==> S[j] == if j < i then after[j] else s[j]
      invariant mem == Dot(after, x.k, i)
    {
      var decayed := S[i] * x.decay;
      S[i] := decayed;
      mem := mem + decayed * x.k[i];
    }
    assert S[..] == after;
  }

  /** Second pass: add the delta along the key and read the query against the updated column. */
  method UpdatePass(S: array<real>, x: DeltaInput, delta: real) returns (attn: real)
    requires |x.k| == |x.q| == S.Length
    modifies S
    ensures S[..] == Moved(old(S[..]), x.k, delta)
    ensures attn == Readout(S[..], x)
  {
    ghost var s := S[..];
    ghost var after := Moved(s, x.k, delta);
    attn := 0.0;
    for i := 0 to S.Length
      invariant forall j :: 0 <= j < S.Length ==> S[j] == if j < i then after[j] else s[j]
      invariant attn == Dot(after, x.q, i)
    {
      var updated := S[i] + x.k[i] * delta;
      S[i] := updated;
      attn := attn + updated * x.q[i];
    }
    assert S[..] == after;
  }

  /** The two fused in-place passes over a column are one application of the delta rule. */
  method DeltaColumn(S: array<real>, x: DeltaInput) returns (attn: real)
    requires |x.q| == |x.k| == S.Length
    modifies S
    ensures S[..] == DeltaStep(old(S[..]), x)
    ensures attn == Readout(S[..], x)
  {
    ghost var s := S[..];
    ghost var decayed := Decayed(s, x.decay);
    var mem := DecayPass(S, x);
    assert S[..] == decayed;
    var delta := Correction(x.v, mem, x.beta);
    attn := UpdatePass(S, x, delta);
    assert S[..] == Moved(decayed, x.k, delta);
    assert mem == Dot(decayed, x.k, |s|);
  }

  /** The column and the readouts after all the steps. */
  function RunColumn(s: seq<real>, steps: seq<DeltaInput>): (r: (seq<real>, seq<real>))
    requires Shaped(steps, |s|)
    ensures |r.0| == |s| && |r.1| == |steps|
    decreases |steps|
  {
    if steps == [] then (s, [])
    else
      var s1 := DeltaStep(s, steps[0]);
      var rest := RunColumn(s1, steps[1..]);
      (rest.0, [Readout(s1, steps[0])] + rest.1)
  }

  /** One token: the column after it, and the query's product with that. */
  lemma OneStep(s: seq<real>, x: DeltaInput, recalled: real, correction: real)
    requires |x.k| == |x.q| == |s|
    requires recalled == x.decay * Dot(s, x.k, |s|) && correction == x.beta * (x.v - recalled)
    ensures RunColumn(s, [x]).0 == DeltaStep(s, x)
    ensures RunColumn(s, [x]).1 == [x.decay * Dot(s, x.q, |s|) + correction * Dot(x.k, x.q, |s|)]
  {
    DeltaLaw(s, x, x.q, recalled, correction);
    RunUncons(s, [x], DeltaStep(s, x), Readout(DeltaStep(s, x), x));
  }

  function ZeroColumn(n: nat): (r: seq<real>)
    ensures |r| == n && forall i :: 0 <= i < n ==> r[i] == 0.0
  {
    seq(n, _ => 0.0)
  }

  method ClearColumn(S: array<real>)
    modifies S
    ensures S[..] == ZeroColumn(S.Length)
  {
    for i := 0 to S.Length
      invariant forall j :: 0 <= j < i ==> S[j] == 0.0
    {
      S[i] := 0.0;
    }
  }

  lemma RunUncons(s: seq<real>, steps: seq<DeltaInput>, after: seq<real>, out: real)
    requires steps != [] && Shaped(steps, |s|) && after == DeltaStep(s, steps[0]) && out == Readout(after, steps[0])
    ensures RunColumn(s, steps).0 == RunColumn(after, steps[1..]).0
    ensures RunColumn(s, steps).1 == [out] + RunColumn(after, steps[1..]).1
  {
  }

  /** The time loop of `recurrent_gated_delta_net_impl` on one column, with its optional zeroing. */
  method RecurrentColumn(S: array<real>, steps: seq<DeltaInput>, zeroState: bool) returns (outs: seq<real>)
    requires Shaped(steps, S.Length)
    modifies S
    ensures var s0 := if zeroState then ZeroColumn(S.Length) else old(S[..]);
            S[..] == RunColumn(s0, steps).0 && outs == RunColumn(s0, steps).1
  {
    if zeroState {
      ClearColumn(S);
    }
    ghost var s0 := S[..];
    ghost var end, rest := RunColumn(s0, steps).0, RunColumn(s0, steps).1;
    ghost var all := rest;
    outs := [];
    assert steps[0..] == steps;
    for t := 0 to |steps|
      invariant end == RunColumn(S[..], steps[t..]).0 && rest == RunColumn(S[..], steps[t..]).1 && all == outs + rest
    {
      ghost var before := S[..];
      var attn := DeltaColumn(S, steps[t]);
      assert steps[t..][1..] == steps[t + 1..];
      RunUncons(before, steps[t..], S[..], attn);
      rest := RunColumn(S[..], steps[t + 1..]).1;
      assert outs + ([attn] + rest) == outs + [attn] + rest;
      outs := outs + [attn];
    }
    assert rest == [] && outs + [] == outs;
  }

  /** The recurrence does not see where a chunk ends. */
  lemma {:induction false} RecurrenceSplits(s: seq<real>, a: seq<DeltaInput>, b: seq<DeltaInput>)
    requires Shaped(a, |s|) && Shaped(b, |s|)
    ensures Shaped(a + b, |s|)
    ensures RunColumn(s, a + b).0 == RunColumn(RunColumn(s, a).0, b).0
    ensures RunColumn(s, a + b).1 == RunColumn(s, a).1 + RunColumn(RunColumn(s, a).0, b).1
    decreases |a|
  {
    if a == [] {
      assert a + b == b;
    } else {
      assert (a + b)[1..] == a[1..] + b && (a + b)[0] == a[0];
      RecurrenceSplits(DeltaStep(s, a[0]), a[1..], b);
      var rest := RunColumn(DeltaStep(s, a[0]), a[1..]);
      assert RunColumn(s, a).0 == rest.0;
    }
  }
}
