# Verification of XInfer's host logic and kernels

XInfer is a single-GPU inference engine. This project models, in Dafny 4.11, the parts of it that are logic rather than
device plumbing, and proves what the program relies on them for. `dafny verify dfyconfig.toml` checks everything.

Floating-point numbers are reals, the exponential function is a parameter of which only `exp(a + b) == exp(a) * exp(b)` and
`exp > 0` are used, a file is a byte string, and a kernel is its loops over index ranges; where the source leaves the order of
sub-groups or lanes open, the order is a parameter and the result holds for all of them.

The modules, by cluster:

- **Prefill and decode**: `LinearAttn` (streaming convolution, delta-rule recurrence), `Transformer` (layers that carry state,
  as values), `KvCache`, `Arena`, `Forward` (chunk loop, decode step, draft loop, verification), `Drafting`, `Sampling` (argmax,
  accept/reject). `Transformer` leaves a layer's attention and recurrence open; `AttentionLayer` and `DeltaLayer` fill them in
  with the kernels.
- **Generation**: `Engine` (the whole of `generate`, with speculation, rollback, faults and stop tokens), `Rounds` (one round
  of speculation over any machine that can decode, verify and roll back).
- **Kernels against references**: `Int4`, `Gemv`, `FusedGemv` (INT4 products), `Softmax`, `Attention`, `CachedAttention`,
  `Int8Cache`, `CacheLayout`, with `Vectors` and `Arithmetic` below them.
- **Tokenizer**: `Utf8`, `Scanner`, `ByteSymbols`, `Bpe`, `Tokenizer`, `RoundTrip`, `Encoding` (which ids a text gets, without
  the functions that compute them).
- **Artifacts**: `Crc64`, `Polynomials` (the checksum as a remainder), `Container`, `JsonString`, `Metadata`, `MetadataIO`,
  `MetadataJson`, `MetadataReads`, `Artifact`, `ArtifactTheorems`, `FileLayout`, `ArtifactIO`.
- **Server**: `Server` (accept thread, workers and `stop` as an interleaved step system), `Json`, `JsonReader`,
  `JsonGrammar` (the texts that the parsers accept), `Protocol`, `ServerEvents`.

Things the proofs turned up about the code as it is:

- Device faults aside, a run that enters the decode loop fails if and only if its first iteration is a speculative round of two
  or more drafts: speculation on, at least two drafts a round, at least four tokens asked for, and room for the drafts behind
  the prompt. Prefill sizes the arena's persistent buffer for one row of logits (src/targets/qwen3_8/forward.cpp:486), and
  verification asks for one row per draft (src/runtime/engine.cpp:436-437, src/core/arena.cpp:129).
  `Engine.SpeculativeStep` has the equivalence for one round, `Engine.Generate` for every run in every state that an engine
  reaches, and `Engine.DefaultsFail` is an instance with the default of four drafts.
- When all drafts of a round are accepted, the bonus token is read from the row that has just accepted the last draft, so that
  the run emits that draft twice: an iteration that emits two tokens emits equal ones (`Engine.SpeculativeStep`,
  `Engine.Generate`).
- A round that rejects a draft ends with the recurrent state it began with, although the cache has grown by the accepted tokens
  and the resampled one (`Engine.SpeculativeStep`).
- Of equal maxima argmax returns the one in the lowest group of 256 whose bit-reversed place in the group is least
  (`Sampling.ArgmaxIsFirst`). That is the lowest index if and only if no maximal index of the same group has a smaller reversal
  (`Sampling.ArgmaxIsLowestIff`; `Sampling.TieBreak` is an instance where it is not).
- The scanner and its regular expression differ exactly where a punctuation run meets a code point of unknown category
  (`Scanner.ScannerIsRegex` is an equivalence, `Scanner.UnknownCategoryDiffers` an instance).
- The writer accepts section names that contain a zero byte; the reader knows a section by its name up to the first zero, and
  the last section known by a name is the one it reads. A section comes back by its name if and only if the name has no zero
  byte and that last section holds the same bytes (`ArtifactTheorems.SectionComesBackIff`). After "a" and "a\0b" the name "a"
  reads the second section, with a valid checksum (`ArtifactTheorems.ShadowedSection`).
- The INT8 cache's float scales are 4-byte aligned in every layer exactly when a layer has an even number of elements
  (`CacheLayout.ScalesAreAligned`).

## Model

| member | source | states |
|---|---|---|
| LinearAttn.CausalConv1d | src/targets/qwen3_8/linear_attn.cpp:38-122 | the in-place kernel, with its cases for lengths 1, 2 and more, returns the outputs of a four-tap convolution over window and input, and leaves the last three inputs as the window |
| LinearAttn.ConvSplits | src/targets/qwen3_8/linear_attn.cpp:38-122 | a pass over two pieces is the two passes one after the other, outputs and window |
| LinearAttn.ConvAt | src/targets/qwen3_8/linear_attn.cpp:38-122 | output t is the taps over places t to t + 3 of window and input, and the window left is their last three |
| LinearAttn.StreamingConv | src/targets/qwen3_8/linear_attn.cpp:38-122 | for every way of cutting the input into chunks, of any lengths, concatenated outputs and final window are those of one pass |
| LinearAttn.DeltaColumn | src/targets/qwen3_8/linear_attn.cpp:145-343 | the two fused in-place passes over a state column are one application of the delta rule, and return the query's readout of the new column |
| LinearAttn.RecurrentColumn | src/targets/qwen3_8/linear_attn.cpp:145-343 | the time loop with its optional zeroing leaves the column and readouts of the recurrence |
| LinearAttn.RecurrenceSplits | src/targets/qwen3_8/linear_attn.cpp:145-343 | the recurrence does not see where a chunk ends |
| LinearAttn.DeltaLaw | src/targets/qwen3_8/linear_attn.cpp:294-309 | what any key recalls after a step: what it recalled before, decayed, and the correction times its product with the step's key |
| LinearAttn.RecallAfter | src/targets/qwen3_8/linear_attn.cpp:294-309 | so a unit key then recalls a mix of what it recalled and the new value, with weights 1 - beta and beta |
| LinearAttn.OneStep | src/targets/qwen3_8/linear_attn.cpp:294-309 | a step leaves the updated column and reads out decayed recall and correction along the query |
| Transformer.ChunksCompose | src/targets/qwen3_8/forward.cpp:310-400 | running all layers over two chunks in turn gives the states and rows of running them over both at once: induction over layers and chunks |
| Transformer.ChunkingIsInvisible | src/targets/qwen3_8/forward.cpp:402-554 | the same for any sequence of chunks, for any mix of layers |
| Transformer.OneLayer | src/targets/qwen3_8/forward.cpp:391-394 | with no layers the rows stay; with one they and the states are that layer's run |
| Transformer.LayersInTurn | src/targets/qwen3_8/forward.cpp:391-394 | running layers a and then b is running b on what a makes of the rows, with each group's own states |
| Transformer.RunIsPass | src/targets/qwen3_8/forward.cpp:391-394 | layer by layer over all tokens is the same, rows and states, as token by token through all layers |
| Transformer.LayersIgnoreStale | src/targets/qwen3_8/forward.cpp:96-308 | cache entries at or after the current position have no influence on any state below or any output |
| Transformer.FullLayerIsCausal | src/targets/qwen3_8/forward.cpp:96-308 | each row of a full-attention layer is attention over the keys and values of the rows up to it, and no others |
| Transformer.FullRow | src/targets/qwen3_8/forward.cpp:111-239 | row i is finished from attention of its own query over the cached entries before the chunk and the projected entries of rows 0 to i, in order |
| Transformer.FullEntries | src/targets/qwen3_8/forward.cpp:150-200 | the new entries are at their rows' positions, and all others are as they were |
| Transformer.LinearLayerIsConvThenRecur | src/targets/qwen3_8/forward.cpp:96-308 | a linear layer is the convolution of its projected rows followed by the recurrence |
| Transformer.LinearRows | src/targets/qwen3_8/forward.cpp:240-280 | there is one state before and after each row, and each row and next state are those of one recurrence step on the convolved projections |
| AttentionLayer.KernelSees | src/ops/attention.cpp:151-250 | over flat buffers that hold the cache's entries, the cached kernel gives every query head of every row of a chunk what a layer's attention gives it |
| AttentionLayer.AttentionChunk | src/targets/qwen3_8/forward.cpp:150-239 | a chunk through the write and attention kernels on flat buffers: rows and new cache entries are those of the full-attention layer's run |
| DeltaLayer.ColumnRunsAlone | src/targets/qwen3_8/linear_attn.cpp:145-343 | a layer that steps all state columns token by token leaves each column as if it alone had been run over all tokens |
| DeltaLayer.RowsReadColumns | src/targets/qwen3_8/linear_attn.cpp:145-343 | and mixes each token's row from the readouts of the columns run alone |
| DeltaLayer.DeltaKernel | src/targets/qwen3_8/linear_attn.cpp:145-343 | the kernel's order, column by column over all tokens with optional zeroing, leaves the state and rows of the token-by-token recurrence |
| DeltaLayer.DeltaChunk | src/targets/qwen3_8/forward.cpp:240-280 | a chunk through the convolution and recurrence kernels: window, state and rows are those of the linear layer's run |
| KvCache.KVCache.Clear | src/core/kv_cache.cpp:217-226 | empties the cache, zeroes recurrent state and drops the checkpoint |
| KvCache.KVCache.SetSeqLen | src/core/kv_cache.h:90-90 | the length is clamped to the capacity, and nothing else changes |
| KvCache.KVCache.Advance | src/core/kv_cache.h:91-98 | succeeds exactly when the tokens fit; otherwise the length is clamped to the capacity |
| KvCache.KVCache.CheckpointRecurrentState | src/core/kv_cache.cpp:476-484 | saves the recurrent state, unless there is none |
| KvCache.KVCache.Rollback | src/core/kv_cache.cpp:464-474 | fails for more steps than tokens; otherwise shortens the cache and restores the checkpoint once |
| KvCache.SpeculateAndRollBack | src/core/kv_cache.cpp:464-490 | checkpoint, any changes to the recurrent state, rollback: recurrent state and length are as before, also with an older checkpoint and with no recurrent layers |
| Forward.FullAttentionChunk | src/targets/qwen3_8/forward.cpp:96-308 | the in-place layer writes the rows' keys and values at their positions and returns the rows of the layer's run |
| Forward.LinearAttentionChunk | src/targets/qwen3_8/forward.cpp:96-308 | the in-place layer leaves the convolution window and recurrent state of the layer's run, and returns its rows |
| Forward.ForwardLayer | src/targets/qwen3_8/forward.cpp:96-308 | a layer, dispatched on its kind to its own slot of the cache, changes that slot only |
| Forward.ForwardChunk | src/targets/qwen3_8/forward.cpp:310-400 | a chunk that fits runs all layers over its embedded tokens; one that does not changes nothing |
| Forward.PrefillPrompt | src/targets/qwen3_8/forward.cpp:402-554 | whatever the chunk size, the chunk loop leaves the layer states of one pass over the whole prompt and returns the token of its last logits; bad prompts change nothing, and only a refused logits buffer leaves a cleared cache |
| Forward.PrefillIsFresh | src/targets/qwen3_8/forward.cpp:402-554 | after clearing, what an earlier use left in the KV cache does not influence states or logits |
| Forward.NextTokenIs | src/targets/qwen3_8/forward.cpp:402-554 | the token of a prompt is argmax of the head on the last row of the token-by-token pass over the embedded tokens |
| Forward.DecodeStep | src/targets/qwen3_8/forward.cpp:556-598 | one token runs through all layers at the current length; a full cache or an unknown token returns -1 and changes nothing |
| Forward.DecodeTracks | src/targets/qwen3_8/forward.cpp:556-598 | from a cache that tracks a prompt, decoding a token gives a cache that tracks the longer prompt, and the logits of prefilling it |
| Forward.DraftDecodeLoop | src/targets/qwen3_8/forward.cpp:600-650 | succeeds exactly when the drafts fit and the token is known; the drafts and the states left are those of that many decode steps, each fed the token before it; on failure length and states are as before |
| Forward.DraftsAreGreedy | src/targets/qwen3_8/forward.cpp:600-650 | on a cache that tracks a prompt, every draft is the greedy next token of the prompt, the current token and the drafts before it, and the cache tracks what was fed |
| Drafting.DraftsFollow | src/targets/qwen3_8/forward.cpp:626-648 | the induction behind that, for any decode step that extends a history by the token it is fed |
| Forward.ForwardVerify | src/targets/qwen3_8/forward.cpp:652-734 | succeeds exactly when the drafts fit and are known; one row of logits per draft and the states left, from a run of all the drafts at the given position |
| Forward.ForwardNextToken | src/targets/qwen3_8/forward.cpp:736-744 | the stateless reference for the next token, with its cases for no tokens, unknown tokens and a refused buffer |
| Sampling.ArgmaxKernel | src/ops/sampling.cpp:12-92 | whatever order the lanes of each barrier phase run in, the two stages compute one function of the logits |
| Sampling.ArgmaxIsMaximal | src/ops/sampling.cpp:12-92 | that function returns an index in range of a largest logit |
| Sampling.ArgmaxIsFirst | src/ops/sampling.cpp:12-92 | of all maximal indices the one returned comes first by group of 256 and then by reversed bits: induction over the phases of the reduction tree |
| Sampling.KeyIsReversal | src/ops/sampling.cpp:58-64 | the order in a group is that of the eight bits of the place, reversed |
| Sampling.ArgmaxIsLowestIff | src/ops/sampling.cpp:58-64 | the lowest maximal index is returned if and only if no maximal index of its group has a smaller bit reversal |
| Sampling.TieBreak | src/ops/sampling.cpp:58-64 | an instance in which it is not |
| Sampling.SpeculativeAcceptReject | src/ops/sampling.cpp:94-199 | the accepted tokens are the longest draft prefix that passes row by row, the counts balance, and the balance exceptions are unreachable |
| Arena.DeviceArena.PersistentBuffer | src/core/arena.cpp:121-136 | the first request fixes the capacity; a larger one throws |
| Engine.Engine.SpeculativeStep | src/runtime/engine.cpp:420-525 | a round throws if and only if the drafts' logits exceed the buffer; otherwise the drafts are those of the chain of decode steps, the picks are the argmaxes of the verification rows at the old length, and the tokens emitted are the drafts before the first that differs from its pick, then that pick (the last one, if none differs), cut only where a stop token or the callback cuts them; the current token is the last one emitted; the states left are those of the drafts and verification, with the recurrent part restored after a rejection |
| Engine.Engine.DecodeLoop | src/runtime/engine.cpp:405-559 | over every interleaving of single and speculative steps: every loop head is recorded with its length, current token and states, and each leads to the next by a plain step or a round whose tokens are the ids between; so is how the last one ended; no clamped advance, no cache-full exit; without faults the loop throws if and only if its first iteration drafts too many; termination |
| Engine.Engine.Generate | src/runtime/engine.cpp:258-638 | whole runs: the first head is the prefilled prompt with its next token, and all ids follow from it iteration by iteration; a request that is not admitted gets the error of the first check it fails; no stop token among the ids, never more than asked, exactly as many when the reason is "length", greedy continuation without speculation; without faults, success if and only if the request is admissible and its first round does not draft too many; an exception leaves the cache cleared |
| Engine.DefaultsFail | src/runtime/engine.cpp:420-440 | an instance: with the default of four drafts, a request for eight tokens fails after the first |
| Int4.FieldsAreWeights | src/ops/linear.cpp:99-110 | shifting a 32-bit word left and arithmetically right extracts, for each of the eight nibbles, the sign-extended weight that the reference reads from the bytes |
| Int4.SubGroupSum | src/ops/linear.cpp:81-132 | the sixteen lanes of a sub-group together add up exactly the positions of their groups |
| Int4.RunSubGroup | src/ops/linear.cpp:219-289 | the lane loops and the reduction return, for one or two rows, the difference of reference prefix sums |
| Gemv.NaiveElement | src/ops/linear.cpp:681-728 | the byte-by-byte loop computes the reference sum with bias |
| Gemv.SplitPair | src/ops/linear.cpp:33-163 | split-K over any number of sub-groups, also with uneven or empty shares, computes the same sum |
| Gemv.ChooseSplit | src/ops/linear.cpp:195-208 | the split is 1, 2, 4 or 8, never more than there are groups, and more than 1 only at low occupancy |
| Gemv.SplitExactly | src/ops/linear.cpp:195-208 | exactly when each of the four splits is chosen |
| Gemv.PairIsOwned | src/ops/linear.cpp:224-234 | a sub-group's cells are the pair of its row and columns, one alone if the column count is odd, and no others |
| Gemv.LinearInt4 | src/ops/linear.cpp:165-293 | on every dispatch path and in every order of sub-groups, all cells hold the reference values, each was written exactly once, and nothing else changed |
| Gemv.LinearInt4Naive | src/ops/linear.cpp:681-730 | the reference kernel fills the same matrix |
| Gemv.CellIsProduct | src/ops/linear.cpp:681-728 | a cell is the dot product of its activation row and its weight row, each weight the sign-extended nibble of byte t / 2, low one first, times the scale of group t / 128, plus the bias |
| Gemv.GateUpSwiglu | src/ops/linear.cpp:500-602 | the fused gate and up kernel writes, exactly once per cell, the gated product of the two reference projections |
| Gemv.GatedCell | src/ops/linear.cpp:597-598 | that product is g / (1 + exp(-g)) * u |
| FusedGemv.Select | src/ops/linear.cpp:392-395 | the projection found from the offsets is the one whose stretch the sub-group lies in, also when stretches are empty |
| FusedGemv.SameSubGroup | src/ops/linear.cpp:389-399 | numbering sub-groups across projections is one to one |
| FusedGemv.LinearInt4Fused | src/ops/linear.cpp:350-477 | with one to four projections every buffer is completed as by the reference, each cell once; otherwise nothing is written |
| Softmax.AnyShift | src/ops/attention.cpp:47-75 | the two-pass softmax average does not depend on what is subtracted from the scores |
| Softmax.WeightsAreExponentials | src/ops/attention.cpp:47-75 | the average's weights are positive, and in the ratio of the exponential of the difference of their scores |
| Softmax.AverageOfConstant | src/ops/attention.cpp:47-75 | they add up to one |
| Softmax.AverageLinear | src/ops/attention.cpp:47-75 | and the average is linear in the values |
| Softmax.Step | src/ops/attention.cpp:228-240 | one key of the running maximum and sum keeps them equal to the shifted sum over the keys so far |
| Attention.CachedHead | src/ops/attention.cpp:182-249 | the sixteen-lane kernel computes, in every dimension, the softmax-weighted average of the values |
| Attention.NaiveHead | src/ops/attention.cpp:38-80 | so does the reference kernel |
| Attention.OutIsAverage | src/ops/attention.cpp:38-80 | dimension d of a head's output is the average of the d-th values at the positions it sees, with their scaled products of query and key as scores |
| CachedAttention.WriteKvCache | src/ops/attention.cpp:84-118 | a write lays its rows over the cache at their positions, clamped at the end, refused outside, and changes nothing else |
| CachedAttention.SpliceAt | src/ops/attention.cpp:84-118 | after a write each element is that of the rows where the rows are, and what it was elsewhere |
| CachedAttention.StoredAre | src/ops/attention.cpp:84-118 | token k is stored if and only if the write starts in the cache and position start + k is in it |
| CachedAttention.ChunkHead | src/ops/attention.cpp:151-250 | a query of a chunk, through the grouped-head mapping, gets over the cache what it gets over the whole sequence |
| CachedAttention.HeadSees | src/ops/attention.cpp:164-195 | a query head reads positions 0 up to its own, its own query vector, and key-value head k if and only if k * (hq / hkv) <= h < (k + 1) * (hq / hkv) |
| CachedAttention.AttendInChunks | src/ops/attention.cpp:80-251 | writing and attending chunk by chunk, for any sizes, yields the outputs of the whole sequence |
| CachedAttention.ChunkedIsNaive | src/ops/attention.cpp:20-251 | that buffer and the reference kernel's are equal |
| Int8Cache.ErrorBound | src/ops/attention.cpp:401-422 | an element comes back within (max - min) / 510 |
| Int8Cache.EndsAreExact | src/ops/attention.cpp:401-422 | the smallest and the largest element come back exactly, with codes -128 and 127 |
| Int8Cache.CodesAreMonotone | src/ops/attention.cpp:412-422 | larger elements never get smaller codes |
| Int8Cache.FlatComesBack | src/ops/attention.cpp:401-422 | a vector of equal elements comes back exactly |
| Int8Cache.CodeExactly | src/ops/attention.cpp:412-422 | a code is c exactly when the element is within half a step of place c + 128, ties away from zero |
| Int8Cache.StoredScale | src/ops/attention.cpp:401-422 | the zero point is the smallest element, the scale the range over 255, or 1 for equal elements, and each code is that of its element |
| Int8Cache.WriteThenRead | src/ops/attention.cpp:353-537 | written positions, read back, are close element by element |
| Int8Cache.WriteInt8 | src/ops/attention.cpp:353-423 | a write stores the quantized head vectors at their positions and leaves the others alone |
| CacheLayout.Allocate | src/core/kv_cache.cpp:115-211 | the pointer walks give every buffer its start, and the storage sizes are the sums of the buffers, in FP16, INT8 and recurrent storage |
| CacheLayout.AttentionStarts | src/core/kv_cache.cpp:115-182 | the byte at which each key, value, scale and zero-point buffer of a layer starts, for FP16 and INT8 |
| CacheLayout.RecurrentStarts | src/core/kv_cache.cpp:184-211 | the same for recurrent states and convolution windows |
| CacheLayout.Tiles | src/core/kv_cache.cpp:144-211 | the regions follow one another from the first byte to the last |
| CacheLayout.ElementsAreDisjoint | src/core/kv_cache.cpp:115-182 | every layer, cache, position, head and dimension has bytes of its own |
| CacheLayout.CellsAreDisjoint | src/core/kv_cache.cpp:115-211 | the same for the elements of any buffers, scales and zero points included |
| CacheLayout.ScalesAreAligned | src/core/kv_cache.cpp:144-158 | the scales of all layers are aligned if and only if a layer has an even number of elements |
| Utf8.Utf8ToCodepoints | src/targets/qwen3_8/tokenizer.cpp:15-46 | the loop computes the decoder's function, with bad leads skipped and a truncated tail dropped |
| Utf8.WellFormedIffRoundTrips | src/targets/qwen3_8/tokenizer.cpp:15-67 | decoding and encoding returns the text, by scalar values, if and only if it is well formed by section 4 of RFC 3629 |
| Utf8.DecodeEncodeAll | src/targets/qwen3_8/tokenizer.cpp:15-67 | decoding what was encoded, followed by anything, gives the code points back |
| Utf8.EncodedBytes | src/targets/qwen3_8/tokenizer.cpp:49-67 | length and bytes of each encoding, in base 64 |
| Utf8.DecodesTo | src/targets/qwen3_8/tokenizer.cpp:15-46 | what the decoder makes of any one to four bytes, continuation bytes or not |
| Utf8.TruncatedIsDropped | src/targets/qwen3_8/tokenizer.cpp:15-46 | an unfinished sequence at the end yields nothing |
| Scanner.SplitQwen35 | src/targets/qwen3_8/tokenizer.cpp:220-338 | the cursor loops return the ranges of the scanner's function, and end |
| Scanner.SplitPartitions | src/targets/qwen3_8/tokenizer.cpp:220-338 | the ranges are consecutive, not empty, and cover the text |
| Scanner.ContractionToken | src/targets/qwen3_8/tokenizer.cpp:245-263 | an apostrophe and s, t, m, d, re, ve or ll, in either case, is a token |
| Scanner.WordToken | src/targets/qwen3_8/tokenizer.cpp:265-275 | so is a run of letters and marks, with one character before it that is no line end, letter or number |
| Scanner.NumberToken | src/targets/qwen3_8/tokenizer.cpp:277-282 | so is each number character |
| Scanner.SignToken | src/targets/qwen3_8/tokenizer.cpp:284-302 | so is a run of signs, with at most one space before it and any line ends after it |
| Scanner.BlankToken | src/targets/qwen3_8/tokenizer.cpp:304-332 | a run of blanks ends after its last line end, or else before its last blank, if something follows and it has another |
| Scanner.OtherToken | src/targets/qwen3_8/tokenizer.cpp:334-335 | a character that nothing else takes is a token |
| Scanner.RegexMatches | src/targets/qwen3_8/tokenizer.cpp:218-219 | what the seven-alternative expression matches at each position, by backtracking, in closed form |
| Scanner.ScannerIsRegex | src/targets/qwen3_8/tokenizer.cpp:218-338 | at a position, scanner and leftmost-first match agree if and only if no punctuation run meets a code point of unknown category |
| Scanner.SplitIsRegex | src/targets/qwen3_8/tokenizer.cpp:218-338 | on text without unknown categories every range is the leftmost-first match |
| Scanner.UnknownCategoryDiffers | src/targets/qwen3_8/tokenizer.cpp:287-291 | a text on which the two differ |
| ByteSymbols.InitByteEncoder | src/targets/qwen3_8/tokenizer.cpp:348-358 | the two tables are inverse, and give printable bytes themselves and the others the code points from 256 up |
| Encoding.SymbolTable | src/targets/qwen3_8/tokenizer.cpp:348-358 | the code point of each byte, by ranges |
| ByteSymbols.SymbolsInjective | src/targets/qwen3_8/tokenizer.cpp:348-358 | different byte strings have different symbols |
| ByteSymbols.DecodesToItselfIff | src/targets/qwen3_8/tokenizer.cpp:842-855 | a token text decodes to itself if and only if none of its code points stands for another byte |
| Bpe.MergeToFixpoint | src/targets/qwen3_8/tokenizer.cpp:711-745 | the merge loop ends, with the word that merging by rank yields |
| Bpe.MergedIsByRank | src/targets/qwen3_8/tokenizer.cpp:711-745 | there is a chain of words from the start to the result in which each joins, at all its occurrences from left to right, the pair of least rank among the adjacent pairs of the word before, and the last has none |
| Bpe.ChainEndsInMerged | src/targets/qwen3_8/tokenizer.cpp:711-745 | and every such chain ends there |
| Bpe.MergedKeepsText | src/targets/qwen3_8/tokenizer.cpp:711-745 | the pieces still spell the input |
| Bpe.BestIsLowest | src/targets/qwen3_8/tokenizer.cpp:712-728 | the pair chosen has the lowest rank of all adjacent pairs, and one is chosen whenever there is one |
| Bpe.MergedIsStuck | src/targets/qwen3_8/tokenizer.cpp:711-745 | in the result no adjacent pair can be merged |
| Tokenizer.QwenTokenizer.Load | src/targets/qwen3_8/tokenizer.cpp:360-370 | new tables drop the memoised results |
| Tokenizer.QwenTokenizer.BpeMerge | src/targets/qwen3_8/tokenizer.cpp:688-749 | the memoised result equals the uncached one, in every reachable state |
| Tokenizer.NearestIsFirst | src/targets/qwen3_8/tokenizer.cpp:805-815 | the hit is the earliest occurrence of any special token |
| Tokenizer.NearestIsListedFirst | src/targets/qwen3_8/tokenizer.cpp:805-815 | of several there, it is the one listed first |
| Tokenizer.QwenTokenizer.Encode | src/targets/qwen3_8/tokenizer.cpp:751-831 | the ids are those of the text cut at special tokens, split by the scanner, merged and looked up |
| Encoding.CutIsNearest | src/targets/qwen3_8/tokenizer.cpp:802-828 | the text is cut at places that follow one another to its end: plain text without a special token in it, then the nearest one, listed first |
| Encoding.SegmentIds | src/targets/qwen3_8/tokenizer.cpp:756-798 | the ids of plain text are those of the scanner's ranges of its code points, in order |
| Encoding.ChunkIds | src/targets/qwen3_8/tokenizer.cpp:766-797 | the ids of a range are those of the pieces at the end of a merge chain by rank from its bytes' symbols; a piece that is not in the vocabulary gets those of its bytes |
| Encoding.TextIds | src/targets/qwen3_8/tokenizer.cpp:751-831 | put together: cut, ids of the plain text and of the special token, in order |
| Encoding.NoVocabularyNoIds | src/targets/qwen3_8/tokenizer.cpp:752-752 | without a vocabulary no text has ids |
| Tokenizer.QwenTokenizer.DecodeAll | src/targets/qwen3_8/tokenizer.cpp:833-863 | the text is that of the ids one after the other |
| Encoding.TokenBytes | src/targets/qwen3_8/tokenizer.cpp:833-855 | a token's bytes: none for an unknown id or one of the three markers, else each code point's byte or its own encoding |
| RoundTrip.PiecesAccount | src/targets/qwen3_8/tokenizer.cpp:780-797 | with a vocabulary closed under byte symbols and merges, the byte fallback is never reached |
| RoundTrip.CutIsGood | src/targets/qwen3_8/tokenizer.cpp:802-828 | cutting at special tokens loses nothing and never cuts inside a character |
| RoundTrip.EncodingAccounts | src/targets/qwen3_8/tokenizer.cpp:751-831 | every id stands for a non-empty stretch of the text, and the stretches are the text |
| RoundTrip.RoundTripIff | src/targets/qwen3_8/tokenizer.cpp:751-863 | decoding the encoded text gives it back if and only if no emitted token is one of the suppressed three |
| RoundTrip.MarkerFreeTextRoundTrips | src/targets/qwen3_8/tokenizer.cpp:751-863 | well-formed text without the three markers survives the round trip |
| RoundTrip.RoundTripIffMarkerFree | src/targets/qwen3_8/tokenizer.cpp:751-863 | if the markers are special tokens that overlap no others, these are exactly the texts that do |
| RoundTrip.EncodeThenDecode | src/targets/qwen3_8/tokenizer.cpp:751-863 | the object does so, whatever its memo table holds |
| Crc64.TableStep | src/artifact/checksum.cpp:39-45 | a table step equals eight steps of bit-by-bit division |
| Polynomials.DivideLeavesRemainder | src/artifact/checksum.cpp:10-27 | over the field of two elements, feeding bits to a register leaves the remainder of the register and message polynomial |
| Polynomials.PolynomialIsEcma182 | src/artifact/checksum.cpp:8-8 | the constant is the polynomial of ECMA-182, by the degrees of its terms |
| Polynomials.ChecksumIsRemainder | src/artifact/checksum.cpp:8-55 | a number is the checksum if and only if its complement is the remainder of the message, low bits first, with its first 64 bits turned over |
| Crc64.GenerateTable | src/artifact/checksum.cpp:10-27 | the nested loops fill the table |
| Crc64.Crc64.Update | src/artifact/checksum.cpp:39-45 | the register is divided by the bytes, for every register and byte string |
| Crc64.Calculate | src/artifact/checksum.cpp:51-55 | the one-shot digest is the checksum by definition |
| Crc64.AnyChunking | src/artifact/checksum.cpp:39-49 | feeding the data in any chunks leaves the one-shot register |
| Crc64.BurstDetected | src/artifact/checksum.cpp:10-49 | strings that differ only within 64 consecutive bits, aligned or not, have different checksums |
| Crc64.ByteWindowDetected | src/artifact/checksum.cpp:10-49 | so do strings that differ only within eight consecutive bytes |
| Crc64.AcrossBoundary | src/artifact/checksum.cpp:10-49 | two messages with their checksums appended that agree outside eight consecutive bytes across the boundary are the same |
| JsonString.EscapeJsonString | src/artifact/metadata.cpp:9-32 | appends the string as a JSON literal |
| JsonString.EscapesAre | src/artifact/metadata.cpp:9-32 | the escape of every byte: the seven short ones, two lower-case hexadecimal digits for other controls, else the byte itself |
| JsonString.StringRoundTrip | src/artifact/metadata.cpp:107-186 | both readers return a printed string unchanged, whatever bytes it holds and whatever follows |
| JsonString.QuotedHasNoControls | src/serve/protocol.cpp:10-33 | a printed string contains no control character |
| JsonString.ParseStringAt | src/serve/protocol.cpp:187-279 | the cursor loop computes the string parser's function, escapes and surrogate pairs included |
| JsonGrammar.StringIff | src/serve/protocol.cpp:187-279 | reading a string gives x if and only if the text is a way of writing x: bytes, listed escapes, code points outside the surrogates or pairs of surrogates |
| Metadata.MetadataRoundTrip | src/artifact/metadata.cpp:268-301 | parsing printed metadata returns it, for all bytes and any order of the properties |
| MetadataJson.MetadataIsJson | src/artifact/metadata.cpp:268-292 | printed metadata is JSON by the grammar, strict or lenient: an object of the four named members, the properties in the order printed |
| MetadataReads.SkipsValue | src/artifact/metadata.cpp:221-263 | counting one kind of bracket and skipping strings passes over exactly one JSON value of any kind and nesting |
| MetadataReads.AnyObjectReads | src/artifact/metadata.cpp:38-301 | any strict JSON text of an object whose known members hold strings, and an object of strings, is read: the last of each name counts, other members are passed over |
| MetadataIO.ToJson | src/artifact/metadata.cpp:268-292 | the printer's appends produce that text |
| MetadataIO.JsonParser.ReadMetadata | src/artifact/metadata.cpp:38-78 | the cursor parser computes the parser's function, unknown members skipped |
| MetadataIO.ReadJson | src/artifact/metadata.cpp:294-301 | so does the entry point |
| Container.HeaderRoundTrip | src/artifact/container.h:32-45 | the packed header is read back field by field |
| Container.EntryRoundTrip | src/artifact/container.h:47-56 | so is a section table entry |
| Container.HeaderLayout | src/artifact/container.h:32-45 | a header is read from bytes if and only if each field is there, little-endian, at its offset in the structure |
| Container.EntryLayout | src/artifact/container.h:47-56 | the same for a section table entry |
| Container.FooterLayout | src/artifact/container.h:58-62 | and for the footer |
| ArtifactTheorems.LayoutIsOrdered | src/artifact/writer.cpp:72-133 | header, metadata, sections, table and footer follow one another without overlap, sections and table aligned to 64 |
| FileLayout.FileHolds | src/artifact/writer.cpp:62-191 | every byte of a written file: magics, each header field, metadata, each section at the next multiple of 64, zeros between, each entry field, and the checksum of all before it |
| ArtifactTheorems.WrittenFileOpens | src/artifact/reader.cpp:59-186 | a written file passes every check of `open`, which yields its metadata text and section table |
| FileLayout.OpensIff | src/artifact/reader.cpp:59-186 | any file opens if and only if magics, version and sizes are right, metadata and table are within it, and each section's end, added in 64 bits, is |
| FileLayout.OpenedIs | src/artifact/reader.cpp:59-186 | and then header, footer, metadata text and entries are those whose fields are in its bytes |
| ArtifactTheorems.WrittenFileValidates | src/artifact/reader.cpp:266-308 | and its checksum validates |
| ArtifactTheorems.ReadsNamed | src/artifact/reader.cpp:173-264 | by any name, the reader of a written file gets the bytes of the last section known by it, or nothing |
| FileLayout.ReadsIff | src/artifact/reader.cpp:211-264 | from any opened file a name reads some bytes if and only if they are those of the last entry with that name, all there, and of its checksum if there are any |
| ArtifactTheorems.SectionComesBackIff | src/artifact/reader.cpp:173-264 | a section comes back by its name if and only if the name has no zero byte and the last section known by it holds the same bytes |
| ArtifactTheorems.SectionRoundTrip | src/artifact/reader.cpp:211-264 | so every section does, if no name holds a zero byte |
| ArtifactTheorems.ShadowedSection | src/artifact/reader.cpp:173-184 | an instance of two sections of which the first does not |
| ArtifactTheorems.NameIsFoundIff | src/artifact/reader.cpp:173-184 | an accepted name is known to the reader if and only if it holds no zero byte |
| ArtifactTheorems.WrittenFileIsAccepted | src/artifact/writer.cpp:62-191 | every written file opens and validates, so what is said of damage holds of it |
| ArtifactTheorems.BodyDamageIsFound | src/artifact/reader.cpp:266-308 | damage to at most eight neighbouring bytes before the footer of any acceptable file makes `open` or validation fail |
| ArtifactTheorems.FooterDamageIsFound | src/artifact/reader.cpp:112-125 | so does any damage, however long, to the footer alone |
| ArtifactTheorems.WindowDamageIsFound | src/artifact/reader.cpp:59-308 | damage to at most eight neighbouring bytes anywhere in an acceptable file, the boundary before the footer included, makes `open` or validation fail |
| ArtifactIO.ArtifactWriter.SetMetadata | src/artifact/writer.cpp:12-14 | keeps the printed metadata and leaves the sections alone |
| ArtifactIO.ArtifactWriter.AddSection | src/artifact/writer.cpp:20-41 | refuses empty, overlong and repeated names, and otherwise appends |
| ArtifactIO.ArtifactWriter.WriteToFile | src/artifact/writer.cpp:62-191 | the bytes written are those of the file layout |
| ArtifactIO.ArtifactReader.OpenFile | src/artifact/reader.cpp:59-186 | succeeds exactly on the files that pass every check, with the fields filled from them |
| ArtifactIO.ArtifactReader.ReadNamed | src/artifact/reader.cpp:211-264 | returns the bytes of the named section if they match its checksum; nothing from a reader that is not open |
| ArtifactIO.ArtifactReader.ValidateChecksum | src/artifact/reader.cpp:266-308 | whatever the buffer size, compares the checksum of everything before the footer |
| ArtifactIO.WriteAndReadBack | src/artifact/writer.cpp:12-191 | write, open, validate, read by any name: the metadata comes back exactly, and the bytes of the last section known by the name |
| Json.JsonRoundTrip | src/serve/protocol.cpp:69-338 | parsing a compactly printed value returns it, at any nesting |
| JsonGrammar.NumberIff | src/serve/protocol.cpp:281-306 | the number taken is the longest at the head of the text, by a grammar of sign, digits, fraction and exponent |
| JsonGrammar.ParsesIff | src/serve/protocol.cpp:69-338 | a text parses to a value if and only if it spells it by the grammar, with blanks anywhere between tokens |
| JsonReader.ReadJson | src/serve/protocol.cpp:69-338 | the mutually recursive cursor methods compute the parser's function |
| Protocol.ResponseToJson | src/serve/protocol.cpp:351-390 | the printed response is the compact print of its value, and parses to it |
| Protocol.ResponseFields | src/serve/protocol.cpp:351-390 | the response's id, object, created, model, choices and usage, by their names |
| Protocol.ChoiceFields | src/serve/protocol.cpp:351-390 | a choice's index, message and finish reason |
| Protocol.MessageFields | src/serve/protocol.cpp:351-390 | a message's role and content, and its reasoning unless it is empty |
| Protocol.MessageStrings | src/serve/protocol.cpp:35-47 | a reader gets all three, an omitted reasoning as the empty default |
| Protocol.UsageFields | src/serve/protocol.cpp:351-390 | the three token counts |
| Protocol.ChunkFields | src/serve/protocol.cpp:392-438 | a chunk's id, object, created, model and choices |
| Protocol.ChunkChoiceFields | src/serve/protocol.cpp:392-438 | a streamed choice's index, delta and finish reason, null if there is none yet |
| Protocol.DeltaFields | src/serve/protocol.cpp:392-438 | a delta has just the role, content and reasoning that there are |
| Protocol.MembersText | src/serve/protocol.cpp:351-438 | objects are printed as their quoted names and values with colons and commas, and no blanks |
| Protocol.ItemsText | src/serve/protocol.cpp:351-438 | and arrays as their items with commas |
| Protocol.NoLeadingZero | src/serve/protocol.cpp:359-387 | the text of a number other than 0 starts with no zero |
| Protocol.IntRoundTrip | src/serve/protocol.cpp:359-387 | the text of a number gives the number back |
| ServerEvents.ToSseEvent | src/serve/protocol.cpp:392-438 | the event is the data prefix, the compact print of the chunk, and a blank line |
| ServerEvents.PayloadHasNoControls | src/serve/protocol.cpp:392-438 | a payload contains no line end |
| ServerEvents.StreamSplits | src/serve/protocol.cpp:392-438 | cutting the stream at blank lines gives exactly the events sent, in order |
| ServerEvents.EventParses | src/serve/protocol.cpp:392-438 | each of them parses to its chunk's value |
| Server.StepConserves | src/serve/server.cpp:219-298 | every step of every thread moves sockets between places; only `accept` brings one |
| Server.ServerSafety | src/serve/server.cpp:154-298 | over all interleavings: each accepted socket is in exactly one place, the queue is bounded, no wakeup is lost, no worker is blocked after the notify, and when `stop` has returned every accepted socket is closed once |
| Server.ServerOrder | src/serve/server.cpp:219-298 | over all interleavings: a socket is refused if and only if the queue was full at the acceptor's step, all others are queued in order of acceptance, and workers and drain take them in that order |
| Server.ClosedOnce | src/serve/server.cpp:173-298 | each closed socket was exactly one of served by a worker, refused and drained; after `stop` so is each accepted one, and what a worker took it served |
| Server.StepWorks | src/serve/server.cpp:173-298 | after the flag is cleared every step leaves less to do |
| Server.CanStep | src/serve/server.cpp:173-298 | until `stop` has returned some thread can go on without a new connection |
| Server.StopReturns | src/serve/server.cpp:173-207 | a run after the call that cannot go on, or has used up its bound, has returned from `stop` with every socket closed |

## Left out

- Floating-point rounding, FP16 conversion, NaN and infinities: all arithmetic is over the reals, with a "no key seen yet" case in place of minus infinity.
- SYCL queues, events, command graphs and device memory management; the captured decode graph is identified with the decode step it replays.
- The vision path: image tokens in prefill, the vision transformer, image parsing.
- What verification logits say about the drafts: they are those of the run that the code makes, and no equality with plain greedy output is claimed.
- The stochastic acceptance test of `speculative_accept_reject`: acceptance of a draft is an arbitrary predicate per row; the greedy case is stated separately.
- The text side of `generate` (streamed text, thinking sections, the post-filter on think markers): only token ids are modelled.
- A callback that throws: it answers yes or no.
- Which device call of an iteration fails: all of them come before the iteration's first token, and the handler clears the cache.
- The request for the logits buffer in the eager `decode_step`: it is for one row, which the arena has granted before.
- The rest of a transformer layer (norms, projections, rotary embedding, MLP): functions of one row, as parameters.
- In the delta kernel the grouping of key heads, the normalisation of queries and keys, and the gates' formulas: what a column's step takes as input.
- SDPA over the INT8 cache and the dynamic-position variants of the cache kernels: the same loops with dequantized elements or a position read from memory.
- Int8Cache.WriteInt8: a head vector is one element of the cache; the flat index of its dimensions is covered by CacheLayout.ElementsAreDisjoint.
- The default attention scale for a scale that is not positive: the scale is a parameter.
- Int4 kernels for a group size other than 128: sixteen lanes of eight weights do not cover such a group.
- tokenizer.json, chat templates and the contents of the Unicode table: the loaded tables and the category function are parameters.
- Tokenizer.QwenTokenizer.Encode: special token contents must be non-empty, since with an empty one the source's loop need not end.
- Concurrent use of the tokenizer's memo table: one encode call at a time.
- ArtifactIO.ArtifactReader.OpenFile: I/O errors are left out; a read outside the file fails, also where a wrapped 64-bit bound let it through and the source would fail to allocate.
- Artifact.NameOf: the name field is read up to its end if it has no terminator, where the source reads on.
- Json.ParseScalar: a number is its text; conversion to double, and its range errors, are left out.
- Sockets, timeouts, HTTP parsing and request handling: serving a client is one step that closes its socket, and `accept` returns after the listener is closed.
- Base64, multipart and request parsing, the CLI programs, profilers and benchmarks.
