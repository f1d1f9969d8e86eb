# A verified model of the serving engine

This project models the state machines and algorithms of the mistral.rs serving engine that surround its tensors, and proves
what they are there for. Tensors are flat sequences, layers are uninterpreted functions, probabilities are reals, and hash maps
are iterated in an arbitrary order. Each module stands for one part of the engine.

- `CausalMasker`, `PrefixCacher` and `PrefixReuse`: the causal mask, the prefix cache and its eviction, and their point: for
  any number of layers that see only what the mask leaves visible, and over any sequence of requests, no request ever notices
  that its prompt was partly served from the cache of another one, as long as the reused cache is a copy of the stored one.
- `PromptStep`: on which caches a prompt is run. At the modelled commit the engine empties the caches before it runs a prompt, and
  for that reason keeps the prefix cache switched off; `PrefixReuse` loads the match instead, as completions are loaded.
- `KvStorage`: the storage behind a cache, which is written in place and which a clone shares; what becomes of stored caches
  that are not copied, and exactly when later requests still find what they should.
- `Utf8`, `Streaming`, `BlockTable` and `SequenceState`: the state of one sequence. UTF-8 follows sections 3 and 4 of RFC 3629;
  its lossy decoding replaces each maximal invalid part by one U+FFFD.
- `Generation`, `Runs` and `StopText`: what one sampled token does to a sequence, whole runs under either scheduler, where they
  end and what bounds their length, and the text answered for a stop string.
- `Admission`: how a request becomes a sequence with what the prefix cache has for it, runs, and becomes a stored cache.
- `Speculative`: what a step of speculative decoding leaves of the caches.
- `EngineReboot`: threads, two reader-writer locks and engines that may finish at any moment, as an interleaved transition
  system.
- `Penalties`, `Sampler`, `GreedyPick` and `TopLogprobs`: penalties on logits, filtering along a ranking, the speculative pick on
  logits, and the reported log probabilities.
- `Imatrix`: the `.cimatrix` format.
- `NonZero`, `Bincount`, `Sharding` and `DeviceMap`: index arithmetic over tensors, shards and layers.

What the program does step by step is a method here, proved against functions or predicates on values; the laws are lemmas
about those. `None` from a `BlockTable` function and `Panic` in `DeviceMap` stand for a failing assertion or an index out of
bounds.

## Where the code and its words disagree

The model follows the code.

- `mistralrs-core/src/layers_masker.rs:135` says that a 1 in the mask means use and a 0 means mask out. The code fills minus
  infinity where the entry is 1.
- `mistralrs-core/src/prefix_cacher_v2.rs:96-97` says that eviction leaves the maximum allowed on the device and returns the
  number evicted. The loop tests for equality, so from below the limit every cache moves; and the value returned is the number
  of stored sequences less the limit, which `PrefixCacher.ReportedIsEvicted` compares with the number moved.
- `mistralrs-core/src/engine/mod.rs:84-91` switches the prefix cache off, whatever the settings, since reuse does not work with
  the caches reset before a prompt (`mistralrs-core/src/engine/mod.rs:252-256`), and leaving them as they are breaks other cases.
  `PromptStep` proves that loading the match is right for every model, and so is leaving the caches if they happen to be those of
  the matched part; and for a model that yields all it sees nothing else is: emptied caches are right exactly without a match, and
  those left by another text never are. `PrefixReuse` takes the match as loaded.
- Prefix reuse is meant to be invisible. A stored cache that is already on the device of the model is handed out as a clone
  (`mistralrs-core/src/prefix_cacher_v2.rs:188-189`), and a clone shares its state unless it has been reset
  (`mistralrs-core/src/pipeline/cache_manager.rs:53-56`). Loaded for a sequence that runs alone
  (`mistralrs-core/src/pipeline/cache_manager.rs:309-313`), it would be written over behind its match, append by append up to the
  first one for which its storage has no room; growing later does not undo that. `KvStorage.SharingBreaks` says exactly which
  later matches are spoilt, and `KvStorage.LaterRequestIsMisled` gives one. Caches that were evicted are copied, and so are those
  of several sequences that are run together. That moving a tensor to the device where it already is makes no copy is a fact about
  the tensor library, which is not part of this model; `sameDevice` in `KvStorage.Reuse` stands for it.
- `mistralrs-core/src/sequence.rs:636` says that the token has been added when the limits are tested. The pipeline adds it
  afterwards (`mistralrs-core/src/pipeline/sampling.rs:23-36`), so one token more than the limit is generated. The tests are for
  equality: a sequence that starts beyond both limits is never stopped by its length.
- The limits are meant to bound generation. A streaming sequence is finished only where a delta is returned
  (`mistralrs-core/src/pipeline/sampling.rs:47-103`); a reason at any other token is dropped, and the limit has been jumped over.
  `Runs.StreamingLimitBindsExactly` says exactly when it binds, and `Runs.StreamingJumpsLimit` gives runs of any length.
- The default scheduler sets every sequence running again after its prompt step (`mistralrs-core/src/engine/mod.rs:284-292`), also
  one that its first token has just finished. A run without streaming ends at the first reason that is not at that token
  (`Runs.EndsAtFirstReason`), and a limit of no tokens is lost (`Runs.PromptReasonIsLost`). The scheduler of paged attention frees
  finished sequences before (`mistralrs-core/src/paged_attention/scheduler.rs:196-222`).
- `mistralrs-core/src/pipeline/sampling.rs:181-182` cuts the decoded text at a position among the raw bytes. `StopText.CutIsExact`
  says exactly when that is where the stop string stands, which within valid UTF-8 it always is.
- Without a temperature the speculative pick is made from logits (`mistralrs-core/src/sampler.rs:652-659`), to which the filters for
  probabilities do not apply. `GreedyPick.GreedyPickExactly` says exactly when it is still of maximal logit.
- `mistralrs-core/src/sequence.rs:687` takes a decoding that ends in U+FFFD for an incomplete code point. A U+FFFD that belongs
  to the text is held back in the same way.
- `mistralrs-core/src/sequence.rs:558` removes temporary tokens, from the last block only, and
  `mistralrs-core/src/paged_attention/block_engine.rs:40-44` also gives up a place of that block's room for each. The conditions
  under which adding and removing is a round trip are exact in `BlockTable.TmpTokensRoundTrip`.
- The two filters of the sampler are meant alike, but only sampling skips a bound outside of its range.
  `Sampler.FiltersAgree` and `Sampler.FiltersDiffer` give the exact condition on top-k, top-p and min-p.
- `mistralrs-core/src/ops.rs:665-674` keeps a sequential histogram in a comment. For no values and no minimal length the code
  returns no entries, the comment one.
- `mistralrs-core/src/device_map.rs:158` clamps the number of layers, but only for the sum; several entries that ask for more
  than the model has fail the assertion, and so does a model without layers fail at the index behind it.
- `mistralrs-core/src/sampler.rs:259-306` pairs tokens with log probabilities from two orders. They belong together only for a
  ranking by probability; the argmax path (`mistralrs-core/src/sampler.rs:313`) passes unsorted indices.

## Model

| member | source | states |
|---|---|---|
| CausalMasker.MakeMask | mistralrs-core/src/layers_masker.rs:71-77 | the mask has a row for each new position and a column for each position, old and new |
| CausalMasker.VisibleIsCausal | mistralrs-core/src/layers_masker.rs:114-145 | a new position sees a position exactly if that one is not behind it; also when the mask is left out for a single new position |
| CausalMasker.MaskRowOfFullMask | mistralrs-core/src/layers_masker.rs:71-77 | row i of the mask after p old positions is row p + i of the mask of all positions at once |
| PrefixCacher.SharedPrefix | mistralrs-core/src/prefix_cacher_v2.rs:14-24 | the two sequences agree up to this length and differ right behind it |
| PrefixCacher.FindMaxIndexIsSharedPrefix | mistralrs-core/src/prefix_cacher_v2.rs:14-24 | the index found is the length of the longest common prefix less one, and there is none exactly if nothing is common |
| PrefixCacher.MatchLeavesWork | mistralrs-core/src/prefix_cacher_v2.rs:187-197 | a match covers at least one token, leaves at least one to run, and both together are the request |
| PrefixCacher.OffsetIsDetermined | mistralrs-core/src/prefix_cacher_v2.rs:178-197 | offset and remaining tokens do not depend on the order in which the map is iterated |
| PrefixCacher.RelocationIsInvisible | mistralrs-core/src/prefix_cacher_v2.rs:66-94 | moving stored caches between devices changes no possible answer of any search |
| PrefixCacher.EvictionSummary | mistralrs-core/src/prefix_cacher_v2.rs:118-138 | moving some resident caches to the CPU keeps keys, data and lengths, takes exactly those off the device, and has all their keys and values on the CPU |
| PrefixCacher.PrefixCacheManager.AddSequence | mistralrs-core/src/prefix_cacher_v2.rs:58-64 | stores the cache under the tokens, or nothing when the cache is switched off |
| PrefixCacher.OnDeviceMeans | mistralrs-core/src/prefix_cacher_v2.rs:104-116 | a stored sequence counts as on a device exactly if the keys of its first cached layer are off the CPU |
| PrefixCacher.MovedIsTransferred | mistralrs-core/src/prefix_cacher_v2.rs:66-94 | every layer that keeps a cache has keys as well as values on the device, with the same entries, and the lengths kept or set |
| PrefixCacher.PrefixCacheManager.CacheTo | mistralrs-core/src/prefix_cacher_v2.rs:66-94 | every layer that keeps a cache has its keys and its values on the device, with entries and lengths as before; the others are left out |
| PrefixCacher.PrefixCacheManager.CountDeviceCaches | mistralrs-core/src/prefix_cacher_v2.rs:102-117 | the number of stored sequences whose first cached layer is not on the CPU |
| PrefixCacher.PrefixCacheManager.MoveDownToLimit | mistralrs-core/src/prefix_cacher_v2.rs:118-138 | moves only resident caches, as many as are above the limit; all of them from below it |
| PrefixCacher.ReportedIsEvicted | mistralrs-core/src/prefix_cacher_v2.rs:96-140 | exactly when the number reported is the number moved |
| PrefixCacher.ReportedIsNotEvicted | mistralrs-core/src/prefix_cacher_v2.rs:96-140 | with two stored, one of them on a device and a limit of one, it is not |
| PrefixCacher.PrefixCacheManager.EvictToCpu | mistralrs-core/src/prefix_cacher_v2.rs:98-140 | leaves exactly the limit on the device if there were as many, and none otherwise; at the limit it changes nothing; contents stay; what went off the device is on the CPU, keys and values, and nothing else changed; how many move and which number is returned |
| PrefixCacher.PrefixCacheManager.EvictAllToCpu | mistralrs-core/src/prefix_cacher_v2.rs:143-164 | leaves nothing on the device, has all keys and values that were resident on the CPU, keeps all contents, returns the number stored |
| PrefixCacher.PrefixCacheManager.SearchForMatchingCache | mistralrs-core/src/prefix_cacher_v2.rs:167-201 | a cache of maximal common prefix, cut one short of it, with all keys and values on the manager's device; none exactly if no key shares two leading tokens or the search is disabled; the stored entries stay |
| PrefixReuse.AppendSingle | mistralrs-core/src/pipeline/cache_manager.rs:108-140 | appending behind the current length overwrites stale entries and extends the current ones |
| PrefixReuse.MaskMakesLayerCausal | mistralrs-core/src/layers_masker.rs:114-145 | under the mask a layer's output at a position depends on the entries up to that position only |
| PrefixReuse.ScratchIsReference | mistralrs-core/src/layers_masker.rs:114-145 | a run from scratch is what the layers compute, one on top of the other, each position from the keys and values of itself and of those before |
| PrefixReuse.CausalRunSplits | mistralrs-core/src/layers_masker.rs:71-77 | for any number of layers, a run on caches that hold a first part completes the run over both parts, outputs and entries |
| PrefixReuse.ReuseEqualsScratch | mistralrs-core/src/prefix_cacher_v2.rs:187-197 | running the rest of a text on a cache of its beginning gives the outputs and entries of running all of it from scratch |
| PrefixReuse.ShortenedAgrees | mistralrs-core/src/pipeline/cache_manager.rs:104-106 | a cache with its length set back is the cache of the shorter text |
| PrefixReuse.MatchAgrees | mistralrs-core/src/prefix_cacher_v2.rs:187-197 | a stored cache cut one short of the common prefix is that of the request's beginning, even if it lacks its key's last token |
| PrefixReuse.SearchResultAgrees | mistralrs-core/src/prefix_cacher_v2.rs:167-201 | whatever a search hands out is the cache of the request up to the offset |
| PrefixReuse.RelocationKeepsFaithful | mistralrs-core/src/prefix_cacher_v2.rs:98-140 | eviction keeps every stored cache that of its key |
| PrefixReuse.Prefill | mistralrs-core/src/engine/mod.rs:677-683 | search, loading the match and prefill of the rest yield the cache and the last row of a prefill from scratch |
| PrefixReuse.Decode | mistralrs-core/src/layers_masker.rs:121-125 | one token on top of a cache, without a mask, yields the next row of a run from scratch |
| PrefixReuse.StoreAndEvict | mistralrs-core/src/pipeline/sampling.rs:208-211 | storing what belongs to a key, with or without its last token, and evicting keep the prefix cache faithful |
| PrefixReuse.ServeRequest | mistralrs-core/src/engine/mod.rs:677-683 | the rows a request samples from are those computed without a cache, and the prefix cache stays faithful |
| PrefixReuse.ServeAll | mistralrs-core/src/prefix_cacher_v2.rs:167-201 | over any sequence of requests, none notices the prefix cache |
| PromptStep.LoadingIsRight | mistralrs-core/src/pipeline/cache_manager.rs:268-347 | with the sequence's own caches loaded the prompt's last row is that of a run from scratch, whatever the model and whatever was left |
| PromptStep.LeavingIsRight | mistralrs-core/src/engine/mod.rs:84-85 | with the caches left by the step before the row is right for every model if they are those of the matched part |
| PromptStep.RowNeedsEntries | mistralrs-core/src/layers_masker.rs:121-129 | for a model that yields all entries it sees, caches of any length and content give the right row exactly if they are those of the matched part |
| PromptStep.ResetForgetsMatch | mistralrs-core/src/engine/mod.rs:252-256 | with emptied caches that model is right exactly if no match was taken |
| PromptStep.NothingNeedsSameText | mistralrs-core/src/engine/mod.rs:84-85 | with the caches left by a step that ran some text, it is right exactly if that text is the matched part; another text of the same length is not enough |
| PromptStep.SwitchedOffIsRight | mistralrs-core/src/engine/mod.rs:91 | with the prefix cache switched off there is no match, and emptied caches are right for every model |
| KvStorage.GrownCapacity | mistralrs-core/src/pipeline/cache_manager.rs:119-122 | it stays if there is room, and otherwise exceeds what is needed by less than a step |
| KvStorage.GrownByWholeSteps | mistralrs-core/src/pipeline/cache_manager.rs:119-122 | the capacity grows by a multiple of 512 |
| KvStorage.Storage.Reallocate | mistralrs-core/src/pipeline/cache_manager.rs:130-135 | new storage of the current capacity, with the old contents |
| KvStorage.Storage.SliceSet | mistralrs-core/src/pipeline/cache_manager.rs:137-138 | writes the values in place behind the current length and nothing else |
| KvStorage.Storage.MakeRoom | mistralrs-core/src/pipeline/cache_manager.rs:112-136 | allocates or grows exactly when it must, keeps the contents, and fails exactly if the grown capacity is above the maximum |
| KvStorage.Storage.Append | mistralrs-core/src/pipeline/cache_manager.rs:108-140 | the contents are extended, or unchanged by an error; exactly when that is written in place, what it overwrites there, and that it touches no old storage otherwise |
| KvStorage.Storage.ToDevice | mistralrs-core/src/prefix_cacher_v2.rs:66-94 | the contents stay; the storage is kept on the same device and fresh on another |
| KvStorage.NothingInPlace | mistralrs-core/src/pipeline/cache_manager.rs:119-140 | nothing is written in place exactly if the first append that is not empty does not fit, or there is none |
| KvStorage.OverlaidUnchanged | mistralrs-core/src/pipeline/cache_manager.rs:137-138 | values that are written over leave the contents as they are exactly if they equal what stands there |
| KvStorage.GrownTwice | mistralrs-core/src/pipeline/cache_manager.rs:119-122 | growing in several steps comes to the same as growing once |
| KvStorage.Storage.AsValue | mistralrs-core/src/pipeline/cache_manager.rs:51-62 | the storage as the value that `PrefixReuse` reasons about has the same contents |
| KvStorage.Storage.AppendAll | mistralrs-core/src/pipeline/cache_manager.rs:108-140 | over any run of appends: what the contents become, exactly when the run succeeds, and that the old storage is overlaid with exactly the appends before the first one it has no room for |
| KvStorage.Reuse | mistralrs-core/src/prefix_cacher_v2.rs:187-197 | the reused cache is the match and what is appended to it in any portions; the stored one is overlaid by the appends before the first one that does not fit, or by nothing if it was copied, and stays as it is exactly if what is written equals what stood there |
| KvStorage.ReuseLeavesShared | mistralrs-core/src/prefix_cacher_v2.rs:187-197 | what a reuse leaves of the stored cache of each layer, whatever the portions, is what `SharingSurvives`, `SharingBreaks` and `LaterRequestIsMisled` speak of |
| KvStorage.SharingSurvives | mistralrs-core/src/prefix_cacher_v2.rs:187-197 | whatever the model, a later match on overlaid entries is right if its part and the text up to the last entry written in place continue one another |
| KvStorage.SharingBreaks | mistralrs-core/src/prefix_cacher_v2.rs:187-197 | and for some model it is right exactly then |
| KvStorage.LaterRequestIsMisled | mistralrs-core/src/prefix_cacher_v2.rs:187-197 | a request that shares two tokens with a stored text spoils it for a request that shares all of it |
| Utf8.EncodeDecodes | mistralrs-core/src/sequence.rs:686 | decoding undoes encoding, whatever bytes follow |
| Utf8.DecodeEncodes | mistralrs-core/src/sequence.rs:686 | a decoded scalar value was stored as its one encoding, so overlong forms and surrogates do not decode |
| Utf8.PartialIsInvalid | mistralrs-core/src/sequence.rs:687-690 | a proper part of an encoding is replaced as a whole |
| Utf8.EncodingTable | mistralrs-core/src/sequence.rs:686 | length, byte ranges and bits of every encoding, as the table in section 3 of RFC 3629 has them |
| Utf8.InvalidPartIsLongest | mistralrs-core/src/sequence.rs:686 | what is replaced is the longest beginning that is a proper part of some encoding, or one byte, and no encoding stands there |
| Utf8.InvalidByteIsReplaced | mistralrs-core/src/sequence.rs:686-688 | a byte that no encoding has becomes U+FFFD |
| Utf8.LossyConcat | mistralrs-core/src/sequence.rs:684-699 | bytes whose decoding does not end in U+FFFD decode apart from whatever follows |
| Utf8.LossyInvertsEncode | mistralrs-core/src/sequence.rs:686 | the lossy decoding loses nothing of a valid text |
| Utf8.PrefixDecoding | mistralrs-core/src/sequence.rs:686-690 | the first bytes of a valid text decode to a beginning of it, followed by U+FFFD exactly if they end inside a code point |
| Streaming.StreamedGrows | mistralrs-core/src/sequence.rs:580 | more completion bytes change nothing about what was emitted |
| Streaming.TrimStartTrims | mistralrs-core/src/sequence.rs:692-697 | trimming cuts off leading whitespace, all of it, and nothing else |
| Streaming.TrimmedIsUnique | mistralrs-core/src/sequence.rs:692-697 | there is only one text that is so trimmed |
| Streaming.WhitespaceCharacters | mistralrs-core/src/sequence.rs:692-697 | the 25 characters that count as whitespace |
| Streaming.FirstSpaceIsTrimmed | mistralrs-core/src/sequence.rs:692-697 | a space before the first letter is not returned |
| Streaming.DeltaKeepsStreamed | mistralrs-core/src/sequence.rs:673-699 | a delta moves the cursor to the end and keeps the emitted text the decoding of the bytes before the cursor |
| Streaming.EmittedIsDecoding | mistralrs-core/src/sequence.rs:673-699 | for all bytes whatsoever the deltas add up to the decoding before the cursor, apart from the leading whitespace of what was taken at index 0 |
| Streaming.StreamsText | mistralrs-core/src/sequence.rs:673-699 | within a valid text the cursor stands on code point boundaries and the emitted text is the text up to there |
| Streaming.DeltaExactly | mistralrs-core/src/sequence.rs:684-699 | within a valid text without U+FFFD a delta is returned exactly if the buffer ends on a code point boundary; the exact condition with U+FFFD as well |
| Streaming.ReplacementIsHeldBack | mistralrs-core/src/sequence.rs:687-690 | a complete U+FFFD of the text is not returned |
| BlockTable.AppendKeepsTable | mistralrs-core/src/sequence.rs:93-118 | appending never fails on a canonical table and keeps it canonical: the tokens in order, all blocks but the last full, the last one not |
| BlockTable.AppendAllKeepsTable | mistralrs-core/src/sequence.rs:133-137 | the same for any number of tokens |
| BlockTable.TableShape | mistralrs-core/src/sequence.rs:93-118 | no block for no tokens, otherwise the number of tokens divided by the block size, plus one |
| BlockTable.BlocksToAddIsExact | mistralrs-core/src/sequence.rs:80-90 | one block is asked for exactly if there are tokens and they fill whole blocks |
| BlockTable.AppendWithinBlock | mistralrs-core/src/paged_attention/block_engine.rs:34-38 | appending tokens that do not complete the last block changes nothing else, and fails once popped room is used up |
| BlockTable.RemoveFromLast | mistralrs-core/src/sequence.rs:120-143 | removing works on the last block alone and fails exactly beyond its tokens |
| BlockTable.ShortBlockTakes | mistralrs-core/src/paged_attention/block_engine.rs:34-44 | a block that lost some of its room takes exactly what is left of it, and is never completed |
| BlockTable.TmpTokensRoundTrip | mistralrs-core/src/sequence.rs:551-564 | adding and removing temporary tokens succeeds exactly if they do not complete the last block; it restores the contents but for a block opened for them; and afterwards any further tokens succeed exactly if they leave that many places of the block free |
| SequenceState.Find | mistralrs-core/src/sequence.rs:643 | the first occurrence of a stop string, or none |
| SequenceState.StopReasonIsUnique | mistralrs-core/src/sequence.rs:614-654 | the reason to stop is determined: order of the tests, first stop string listed, first occurrence |
| SequenceState.ReasonExactly | mistralrs-core/src/sequence.rs:614-654 | each reason by itself, and none: exactly if it holds and those looked at before it do not |
| SequenceState.StoppedByTokenMeans | mistralrs-core/src/sequence.rs:572-575 | exactly an end-of-sequence token or a stop token leaves no bytes |
| SequenceState.Sequence.NewWaiting | mistralrs-core/src/sequence.rs:289-356 | a new sequence has a canonical block table of its prompt and nothing streamed |
| SequenceState.Sequence.AppendTokensToBlocks | mistralrs-core/src/sequence.rs:133-137 | the table after appending all tokens |
| SequenceState.Sequence.RemoveTokensFromBlocks | mistralrs-core/src/sequence.rs:139-143 | the table after removing n tokens |
| SequenceState.Sequence.PrefillV2 | mistralrs-core/src/sequence.rs:389-400 | a sequence whose beginning is cached takes the matched cache, the remaining tokens and the offset |
| Admission.Admit | mistralrs-core/src/engine/mod.rs:895-943 | a new sequence runs exactly the tokens that the best match leaves, its offset is one short of the longest beginning shared with a stored key, and its caches are those of the tokens it does not run |
| Admission.RunPrompt | mistralrs-core/src/engine/mod.rs:215-261 | the prompt of an admitted sequence, run on its match: its last row is that of a run from scratch, and the caches kept are those of all its tokens |
| Admission.RunLast | mistralrs-core/src/engine/mod.rs:136-190 | the same for the token added last, on the caches of all others |
| Admission.ServeStep | mistralrs-core/src/pipeline/sampling.rs:208-216 | one step keeps the sequence's caches those of its tokens less the last, and the prefix cache faithful, and stores the sequence exactly if the step finishes it |
| Admission.Retire | mistralrs-core/src/pipeline/sampling.rs:208-211 | a finished sequence is stored under all of its tokens, and the prefix cache stays faithful |
| Admission.Serve | mistralrs-core/src/engine/mod.rs:677-943 | a request from admission for as long as its sequence is running: every row it samples from is that of a run from scratch, the prefix cache stays faithful, and a finished sequence is stored in it |
| Speculative.AcceptSamples | mistralrs-core/src/pipeline/speculative.rs:542-549 | accepts the samples that equal the draft, and the first that does not |
| Speculative.NarrowCaches | mistralrs-core/src/pipeline/speculative.rs:551-591 | every cache loses exactly its last entries |
| Speculative.CutCacheAgrees | mistralrs-core/src/pipeline/speculative.rs:551-591 | the caches cut back by what is not accepted, of either model, are those of the sequence with the accepted tokens, less its last |
| Speculative.TargetStep | mistralrs-core/src/pipeline/speculative.rs:469-591 | one pass over the draft yields the rows of a run from scratch at its positions, and leaves the caches right for the next step |
| SequenceState.Sequence.SetToks | mistralrs-core/src/sequence.rs:483-498 | tokens and prompt are replaced and the table is canonical for them, whatever it was |
| SequenceState.Sequence.AddTmpTok | mistralrs-core/src/sequence.rs:551-556 | one more token, and a canonical table stays canonical |
| SequenceState.Sequence.RemoveTmpTok | mistralrs-core/src/sequence.rs:559-564 | the last n tokens are gone, from the tokens and from the table |
| SequenceState.Sequence.AddToken | mistralrs-core/src/sequence.rs:566-593 | the token is added; its bytes too unless a token was the reason to stop; table and stream stay valid |
| SequenceState.Sequence.GetDelta | mistralrs-core/src/sequence.rs:673-699 | there is no delta exactly if the pending bytes decode to text that ends in U+FFFD; at index 0 it is that text without its leading whitespace, later the text itself; the cursor moves exactly with a delta |
| SequenceState.Sequence.IsDone | mistralrs-core/src/sequence.rs:614-654 | the reason to stop, or none, as the rules determine it |
| Generation.Step | mistralrs-core/src/pipeline/sampling.rs:23-36 | the reason is judged before the token is added; table and stream stay valid |
| Generation.FinishOrAddToks | mistralrs-core/src/pipeline/sampling.rs:15-136 | the outcome of one token: the reason, the delta if one is taken, and the state, which is done exactly if there is a reason and, with streaming, a delta |
| Generation.EngineStep | mistralrs-core/src/engine/mod.rs:284-292 | what the scheduler finds afterwards: done exactly if the token finished the sequence and the default scheduler has not set it running again after its prompt step |
| Generation.TraceStep | mistralrs-core/src/scheduler/default_scheduler.rs:210-218 | a trace of outcomes grows by one exactly as determined, while the run has not ended |
| Generation.Generate | mistralrs-core/src/scheduler/default_scheduler.rs:210-218 | a run until the scheduler finds the sequence no longer running: every outcome is the determined one, none but the last ends the run, and tokens, bytes, cursor and emitted text follow from the outcomes |
| Runs.StreamedAlong | mistralrs-core/src/sequence.rs:673-699 | along every run the deltas add up to the decoding of the completion before the cursor |
| Runs.DeltaMeansBoundary | mistralrs-core/src/pipeline/sampling.rs:47-48 | in every run, within a valid text without U+FFFD, a delta that is taken is there exactly if the completion at that moment ends on a code point boundary |
| Runs.StreamingEndsExactly | mistralrs-core/src/pipeline/sampling.rs:37-103 | within a valid text without U+FFFD, a streaming run ends at a token exactly if there is a reason, a delta may be taken, the completion then ends on a code point boundary, and it is not the token of a prompt step under the default scheduler |
| Runs.EndsAtFirstReason | mistralrs-core/src/pipeline/sampling.rs:129-136 | without streaming a run ends at a token exactly if there is a reason that counts |
| Runs.LimitBindsExactly | mistralrs-core/src/sequence.rs:633-639 | at a limit there always is a reason, and the limit bounds the run exactly if that reason finishes it there |
| Runs.StreamingLimitBindsExactly | mistralrs-core/src/pipeline/sampling.rs:47-103 | with streaming, within a valid text, it does exactly if the completion then ends on a code point boundary and a delta may be taken |
| Runs.LimitBoundsWithoutStreaming | mistralrs-core/src/sequence.rs:633-639 | without streaming no run jumps over the least limit ahead of the first token that counts, whatever tokens, bytes and stop strings occur: at most one token more is generated |
| Runs.ReasonOnlyAtLimit | mistralrs-core/src/sequence.rs:614-654 | nothing else bounds a run: for tokens that are no reason to stop there is a reason exactly at the limits |
| Runs.PassedLimitsNeverEnd | mistralrs-core/src/sequence.rs:633-639 | so once both limits are passed a run of them goes on forever |
| Runs.PromptReasonIsLost | mistralrs-core/src/engine/mod.rs:284-292 | with a limit of no tokens such a run goes on to the limit of the model |
| Runs.StreamingJumpsLimit | mistralrs-core/src/pipeline/sampling.rs:47-103 | with both limits at one token, a streaming run whose second token ends inside a code point goes on for any number of tokens |
| StopText.LossyBeforeLead | mistralrs-core/src/pipeline/sampling.rs:181 | whatever stands before a stop string decodes apart from it |
| StopText.DecodedLength | mistralrs-core/src/pipeline/sampling.rs:181 | the decoding is never shorter than the bytes, and as long exactly if every invalid part has three bytes |
| StopText.CutIsExact | mistralrs-core/src/pipeline/sampling.rs:177-183 | the text is cut right before the stop string exactly if every invalid part before it has three bytes; otherwise too early, or the program fails |
| StopText.CutOfText | mistralrs-core/src/pipeline/sampling.rs:177-183 | within a valid text it always is the text before the stop string |
| StopText.AnswerOfText | mistralrs-core/src/pipeline/sampling.rs:177-183 | and the answer is that text without its leading whitespace |
| StopText.InvalidByteFails | mistralrs-core/src/pipeline/sampling.rs:177-183 | behind a single invalid byte the cut falls inside a code point, and the program fails |
| EngineReboot.StepKeepsInv | mistralrs-core/src/lib.rs:440-500 | every step of every thread and engine keeps the invariant |
| EngineReboot.AtMostOneEngine | mistralrs-core/src/lib.rs:454-479 | at most one engine is unfinished |
| EngineReboot.SenderMatchesHandler | mistralrs-core/src/lib.rs:473-474 | outside the swap, and for everybody who holds a read lock, the stored sender is the channel of the engine in the stored handler |
| EngineReboot.RunsAreSafe | mistralrs-core/src/lib.rs:440-500 | both hold in every state of every interleaving |
| EngineReboot.CallerKnows | mistralrs-core/src/lib.rs:491-500 | what a caller may rely on at each point of its call about the engines that ran since it began |
| EngineReboot.ReturnedSenderWasAlive | mistralrs-core/src/lib.rs:491-500 | a returned sender belongs to an engine that ran at some moment during that call |
| EngineReboot.CallReturns | mistralrs-core/src/lib.rs:440-500 | in every interleaving a call returns with its thirteenth step at the latest |
| EngineReboot.DeadEngineIsReplaced | mistralrs-core/src/lib.rs:454-479 | a call that begins while no engine runs does not return before there is a new one, to which the returned sender belongs |
| EngineReboot.OneEnginePerChannel | mistralrs-core/src/lib.rs:441 | in every state of every interleaving a channel is that of one engine only |
| EngineReboot.WaitsForIsAcyclic | mistralrs-core/src/lib.rs:443-452 | no chain of threads waiting for the two locks comes back to its start, even if waiting writers hold readers up |
| EngineReboot.UnhinderedMayAdvance | mistralrs-core/src/lib.rs:440-500 | a thread that waits for nobody may go on, also under locks that hold readers up for waiting writers |
| EngineReboot.SomeCallAdvances | mistralrs-core/src/lib.rs:440-500 | while a call is under way, some call can go on, under either kind of lock |
| Penalties.MatchLengthIsLongest | mistralrs-core/src/sampler.rs:585-608 | the loop finds the longest common suffix, capped at 50 and not crossing a breaker: exactly the lengths up to it match |
| Penalties.LongestBeforeIsMaximum | mistralrs-core/src/sampler.rs:610-615 | the recorded length is the maximum over all occurrences that a token follows, and is attained |
| Penalties.LongestMatchMeansRepetition | mistralrs-core/src/sampler.rs:562-616 | a length is reached exactly if that much of the end of the context, followed by the token, already stands in the context without a breaker |
| Penalties.MatchIsCapped | mistralrs-core/src/sampler.rs:588 | in a context of one token over and over the match is all there is, up to fifty |
| Penalties.PowAdds | mistralrs-core/src/sampler.rs:626 | the power has as many factors as its exponent says |
| Penalties.PenaltyOfRepetition | mistralrs-core/src/sampler.rs:618-629 | below the allowed length there is no penalty, at it the multiplier, and beyond it the base for every token more |
| Penalties.LongerMatchCostsMore | mistralrs-core/src/sampler.rs:625-627 | one more matched token multiplies the penalty by the base, once the allowed length is reached |
| Penalties.NoMatchCostsNothing | mistralrs-core/src/sampler.rs:618-629 | a token that follows no match costs nothing |
| Penalties.CountPenaltyMeans | mistralrs-core/src/sampler.rs:536-560 | the frequency penalty for every occurrence and the presence penalty once if there is one, either of them nothing if it is not asked for |
| Penalties.FindMatchLength | mistralrs-core/src/sampler.rs:585-608 | the loop computes the match length, without an index going out of bounds |
| Penalties.FindMatchLengths | mistralrs-core/src/sampler.rs:568-616 | the map holds the longest match of exactly the tokens that have one |
| Penalties.ApplyMatchLengths | mistralrs-core/src/sampler.rs:618-629 | each logit loses its penalty once, in whatever order the map is iterated, and no exponent underflows |
| Penalties.ApplyDryPenalty | mistralrs-core/src/sampler.rs:562-632 | a logit loses multiplier * base^(longest match - allowed length) exactly if its longest match reaches the allowed length; the others stay |
| Penalties.CountTokens | mistralrs-core/src/sampler.rs:543-550 | the multiplicity of every token of the vocabulary |
| Penalties.ApplyFreqPrescPenalty | mistralrs-core/src/sampler.rs:536-560 | each logit loses the frequency penalty per occurrence, and the presence penalty if there is any |
| Penalties.ApplyPenalties | mistralrs-core/src/sampler.rs:521-534 | both penalties add up; an empty context is an error and changes nothing |
| Sampler.RankedDetermines | mistralrs-core/src/sampler.rs:468-476 | the weights in ranked order determine the weights of all tokens, as the ranking is a permutation |
| Sampler.SumSplits | mistralrs-core/src/sampler.rs:490-497 | the mass of two parts adds up |
| Sampler.NucleusWithinTopK | mistralrs-core/src/sampler.rs:470-497 | top-p behind top-k keeps the smallest prefix within the top k whose mass reaches top-p, or the whole top k |
| Sampler.SamplingKeepsPrefix | mistralrs-core/src/sampler.rs:457-519 | with both bounds inside (0, 1) a non-empty prefix of the ranking survives unchanged, and of the nucleus exactly what exceeds min-p times the head |
| Sampler.BoundsOutOfRange | mistralrs-core/src/sampler.rs:479-501 | with the bound of min-p out of its range top-p alone is left, with that of top-p top-k alone |
| Sampler.FiltersAgree | mistralrs-core/src/sampler.rs:340-392 | the speculative filter and the sampling filter are the same for every distribution if the bounds meet a condition |
| Sampler.FiltersDiffer | mistralrs-core/src/sampler.rs:479-501 | and for all other bounds some distribution tells them apart |
| Sampler.SpeculativePickIsTop | mistralrs-core/src/sampler.rs:340-392 | the speculative pick has maximal original probability, and sampling can draw it |
| Sampler.ClampTopK | mistralrs-core/src/sampler.rs:470-477 | ranks below k stay, the others are cleared; without a positive k nothing changes |
| Sampler.ClampTopP | mistralrs-core/src/sampler.rs:490-497 | the loop keeps the nucleus, although it sums up what it may clear |
| Sampler.ClampMinP | mistralrs-core/src/sampler.rs:503-515 | exactly what exceeds min-p times the head stays |
| Sampler.SampleTopKpMinP | mistralrs-core/src/sampler.rs:457-519 | the array in ranked order is the sampling filter of the original one; each weight is as it was or zero, and zero from rank k on |
| GreedyPick.GreedyPickExactly | mistralrs-core/src/sampler.rs:652-659 | on logits of any sign the speculative pick is of maximal logit exactly if all are equal, or the head is positive and survives, or the head is negative and nothing at all is zeroed |
| GreedyPick.GreedyTokenIsMaximal | mistralrs-core/src/sampler.rs:340-392 | then the token picked from the filtered array has maximal logit |
| GreedyPick.NegativeLogitsAreZeroed | mistralrs-core/src/sampler.rs:340-392 | for logits -1 and -2 and bounds in range everything is zeroed, and the lesser may be picked |
| Sampler.LargestIsTopPick | mistralrs-core/src/sampler.rs:340-392 | a token of largest filtered weight has maximal original probability, which is its weight in sampling too |
| Sampler.SampleSpeculativeTopKpMinP | mistralrs-core/src/sampler.rs:340-392 | the array is the speculative filter of the original one, the token has the largest weight, and for a distribution with bounds inside (0, 1) it has the largest original probability and sampling can draw it |
| TopLogprobs.SortKeepsFirst | mistralrs-core/src/sampler.rs:259-306 | a stable descending sort leaves the first n values in place exactly if none is less than a later one |
| TopLogprobs.StableSortSorts | mistralrs-core/src/sampler.rs:259-306 | the sort has the same tokens in descending order, and those of equal probability in the order they had |
| TopLogprobs.TopLogprobsPairing | mistralrs-core/src/sampler.rs:259-306 | every reported token carries its own probability exactly if none reported is less likely than one ranked behind it |
| TopLogprobs.FiltersStaySorted | mistralrs-core/src/sampler.rs:457-519 | both filters keep the probabilities non-increasing along the ranking, whatever the bounds |
| TopLogprobs.ReportedLogprobsAreOwn | mistralrs-core/src/sampler.rs:420-455 | so behind a filter every reported token carries its own log probability |
| Imatrix.LoadUndoesSave | mistralrs-quant/src/imatrix.rs:60-117 | loading a saved buffer gives back the map for every iteration order, consuming exactly the bytes written |
| Imatrix.TruncatedFails | mistralrs-quant/src/imatrix.rs:94-117 | every proper prefix of a saved buffer is an error, never a partial map |
| Imatrix.WriteLeAt | mistralrs-quant/src/imatrix.rs:73 | numbers are written with the lowest byte first |
| Imatrix.EntryLayout | mistralrs-quant/src/imatrix.rs:75-88 | the bytes of an entry by position: index, a flag that is 1 or 0, length, values |
| Imatrix.FileLayout | mistralrs-quant/src/imatrix.rs:72-88 | the number of entries, then the entries one behind the other |
| Imatrix.AnyFlagIsRead | mistralrs-quant/src/imatrix.rs:103 | every flag that is not 0 is read as a 1 |
| Imatrix.WriteEntry | mistralrs-quant/src/imatrix.rs:75-88 | the bytes of one entry |
| Imatrix.SaveImatrix | mistralrs-quant/src/imatrix.rs:60-92 | the bytes of all entries, each once, in some order; another extension is an error |
| Imatrix.LoadFloats | mistralrs-quant/src/imatrix.rs:104-107 | reads that many floats or fails at the first missing one |
| Imatrix.LoadImatrix | mistralrs-quant/src/imatrix.rs:94-117 | reads the file from its beginning or fails |
| Imatrix.SaveAndLoad | mistralrs-quant/src/imatrix.rs:60-117 | the two methods together are the identity |
| NonZero.RavelUnravel | mistralrs-core/src/ops.rs:378-382 | an unravelled index is within the bounds and ravels back to its flat position |
| NonZero.UnravelRavel | mistralrs-core/src/ops.rs:378-382 | every index within the bounds is that of its flat position |
| NonZero.UnravelMonotone | mistralrs-core/src/ops.rs:376-385 | unravelling maps the order of flat positions to the lexicographic one |
| NonZero.UnravelInto | mistralrs-core/src/ops.rs:377-382 | the loop from the last dimension to the first unravels the position |
| NonZero.FlattenAt | mistralrs-core/src/ops.rs:384 | in the flat list every multi-index stands in its place |
| NonZero.NonZeroIndices | mistralrs-core/src/ops.rs:372-388 | exactly the multi-indices of the non-zero elements, each once, in strictly increasing lexicographic order |
| Bincount.HistogramTotal | mistralrs-core/src/ops.rs:665-674 | the entries of a histogram that covers the values add up to their number |
| Bincount.FoldIsHistogram | mistralrs-core/src/ops.rs:665-674 | the sequential fold counts every value |
| Bincount.LocalHistogram | mistralrs-core/src/ops.rs:694-703 | the histogram of a chunk |
| Bincount.MergeHistograms | mistralrs-core/src/ops.rs:705-717 | entry by entry the sum of two histograms |
| Bincount.FoldAndReduce | mistralrs-core/src/ops.rs:692-717 | for every split into chunks and every merge tree, the histogram of all values |
| Bincount.BinCount | mistralrs-core/src/ops.rs:664-718 | equals the sequential histogram for every plan, but for no values with no minimal length; entries add up; the length covers the largest value and the minimal length and no more |
| Sharding.ShardsRebuildTensor | mistralrs-quant/src/safetensors.rs:382-443 | for dimension 0 or 1 and any number of ranks that divides it, the shards joined in rank order are the whole tensor |
| Sharding.SimpleIsOffset | mistralrs-quant/src/safetensors.rs:382-537 | a rank's shard is the slice at offset rank * block of length block |
| Sharding.OffsetShard | mistralrs-quant/src/safetensors.rs:472-520 | a shard at any offset is that part of the dimension, each element in its place, and an error exactly outside of it |
| Sharding.SingleRankShard | mistralrs-quant/src/safetensors.rs:346-379 | a single rank gets the tensor as it is if that has the shape asked for, and an error otherwise |
| Sharding.ExactlyOtherRanksFail | mistralrs-quant/src/safetensors.rs:382-443 | of several ranks, exactly those at or beyond their number get no shard, and none does if the dimension does not divide or is empty |
| Sharding.JoinOfSlices | mistralrs-quant/src/safetensors.rs:382-443 | equal slices of every stretch, joined stretch by stretch, are the data again |
| Sharding.Route | mistralrs-quant/src/safetensors.rs:172-226 | a name is routed to the last file that has it, and exactly the names of some file are routed |
| DeviceMap.SplitRange | mistralrs-core/src/device_map.rs:17-36 | contiguous chunks that cover the range, with sizes that do not increase and differ by at most one |
| DeviceMap.PipelineMapping | mistralrs-core/src/device_map.rs:107-122 | one rank for each layer, non-decreasing, namely the one whose chunk holds the layer |
| DeviceMap.IntoMapper | mistralrs-core/src/device_map.rs:159-211 | exactly when the placement comes about, is refused, or fails its assertion; placed, it has the entries' layers first and the host's last |
| DeviceMap.RequestedSplits | mistralrs-core/src/device_map.rs:159-164 | requests add up |
| DeviceMap.EntryLayersAreContiguous | mistralrs-core/src/device_map.rs:187-205 | each entry's layers stand together behind those of the entries before it, on the entry's ordinal, or on the CPU if the model is there |
| DeviceMap.HostCountPlaces | mistralrs-core/src/device_map.rs:170-176 | with a host count the placement comes about exactly if the counts make up the layers, or a single entry asks for more and the host gets none |
| DeviceMap.AutoFilledPlaces | mistralrs-core/src/device_map.rs:170-176 | without a host count the placement comes about exactly for a single entry or entries that ask for no more than the model has, and the host gets what is left |
| DeviceMap.TooManyLayers | mistralrs-core/src/device_map.rs:158-211 | several entries that ask for more pass the test of the sum and fail the assertion |

## Left out

- Tensors, kernels and rounding: layers are uninterpreted functions, probabilities and penalties are reals, `powf` is a power with a natural exponent.
- SearchForMatchingCache: a cache here is a value, so moving it is copying it, and its capacity is left out; `KvStorage` has shared storage, capacity and the error beyond the maximal length for one tensor.
- Sliding windows, chunked and batched prefills, and the mask's other uses; requests are served one after the other.
- Layers without a cache in `PrefixReuse`, which takes every layer to keep one; `PrefixCacher` has them. X-LoRA and non-normal caches.
- Requests with images, which never search the prefix cache (`SearchForMatchingCache` answers none), and their prefill.
- AppendSingle: a value with neither capacity nor an error beyond the maximum; `KvStorage.Storage.Append` has both, and `KvStorage.Storage.AsValue` says that the contents are the same.
- Prefill: takes the match as loaded and copied, which is what reuse needs; what the engine does instead is in `PromptStep`, and with the prefix cache switched off, as the engine has it, the two are the same.
- ServeRequest: the same holds for it, since caches are values; for storage that is shared `KvStorage` has the exact condition.
- Serve: takes the match as loaded, and a cache as a value, as `ServeRequest` does.
- ServeAll: states the outputs for matches that are loaded and copied when they are reused, as `ServeRequest` does.
- A tool call found in a delta, which ends the sequence as if by an end-of-sequence token after its bytes were added (`mistralrs-core/src/pipeline/sampling.rs:50-56`).
- Cancelling all sequences between two steps, deltas that cannot be sent, and sequences that a scheduler puts back to the waiting ones, preempts or swaps out. A run is that of one sequence that stays scheduled.
- Several tokens that speculative decoding adds in one step, of which those behind a reason are added too; `Speculative` is about the caches.
- Tokenizer, random number generator and the weighted draw: the facts are about the weights. Float logarithms are an arbitrary function.
- How breaker strings become token ids (`mistralrs-core/src/sampler.rs:113-147`): the breakers are a given set of tokens.
- `argsort` itself: the ranking is any permutation, sorted by probability where a lemma says so.
- Blocks of a sequence are values in its field, not shared mutable objects; X-LoRA and image fields, log probabilities, time stamps, groups and chunk buffers of a sequence.
- A block size of 0, for which the program's first append fails.
- The priority order, `len` and the other prefill calls of a sequence (`mistralrs-core/src/sequence.rs:358-423`, `541-548`).
- Poisoned locks, failing sends, panics while an engine starts and the contents of the channels. A finished engine is one whose thread has ended, however it ended.
- `next_request_id`: a lock around a counter.
- The file system around `.cimatrix` files; the extension is a parameter. A float is its 32-bit pattern. Counts and keys fit into 64 bits.
- The shape of the non-zero result of a tensor of rank 0 (`mistralrs-core/src/ops.rs:472-473` divides by the number of dimensions), and the `u32` range of indices.
- `repeat_interleave`, `split` and `get_unique_devices`.
- BinCount: the counts are unbounded and values stay below the largest 32-bit number, for which the program's length computation overflows.
- Dummy regexes, data types and devices of loaded tensors, and backends other than the sharded one. The bounds check of a slice belongs to the safetensors library, which is not part of this model; a slice is taken to fail if it starts at or beyond the size or stops beyond it.
- IntoMapper: leaves out the placement by a topology, the seeding of devices and their failures; those are lookups or foreign calls.
