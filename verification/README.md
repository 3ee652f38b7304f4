# Weight transfer, Fisher geometry, evidence selection and resharding, verified

This project models four parts of the repository and proves what they promise.

**Checkpoint-engine weight transfer.** Trainer rank 0 streams named tensors of any size to a
set of rollout ranks. The splitter cuts tensors into chunks of at most one bucket, a greedy
packer lays chunks into fixed-size buckets, two buffers per rank alternate as buckets move,
and the receiver glues chunks back into tensors.

* `Chunks`, `Packing`, `Delivery`: splitter, packer and merger as loops over arrays, each tied
  to a function, and what the three compute together: the tensors, in order, or an error whose
  exact condition is given.
* `NixlChain`, `NixlInvariant`, `NixlTheorems`, `NixlTermination`: the NIXL relay as a step
  relation over any number of ranks. A step is one program statement of one rank, one byte
  of a transfer, or the completion of a transfer with its notification; any interleaving of
  steps is a run. `NixlAgent` holds the message and notification queues and the wiring.
* `MooncakeBuckets`, `MooncakeChain`, `MooncakeInvariant`, `MooncakeTheorems`, `MooncakePolling`,
  `MooncakeViews`: the Mooncake relay, in which a rank learns that a half of its buffer is free by
  polling that same half for a four-byte pattern its successor writes there.
* `NcclBroadcast`: the NCCL engine, lockstep broadcasts with a buffer swap.
* `Failures`: where the two streaming engines raise. A rank that raised takes no further program
  step; transfers and broadcasts already in flight go on.

**FEC / Fisher geometry**, in exact reals. `TopK` is the sorted, de-duplicated support;
`Fisher` the moment algebra, the ridge projection and its residual; `FecStats` the two-pass
chunked accumulation over the whole vocabulary; `TruncatedStats` the same statistics on a
support; `TokenWeights` the weight they feed.

**Rollout evidence selection.** `RolloutOrder`, `Evidence` and `AvailableCount`: selection by
stable rollout id, shown not to depend on batch positions, and the closed-form count that
mirrors it.

**Sharding arithmetic.** `PipelineShards`, `Qkv`, `DataProto`, `DataProtoRows` and `DataProtoObject`: the
pipeline-shard search and its closed form, layer and file numbering, the grouped-QKV layout and
its tensor-parallel merge, and row-aligned batches through padding, chunking and reordering.

Shared modules: `Arithmetic`, `Flattening`, `Cuts` (torch.chunk and numpy.array_split), `Finite`,
`Sums`, `Vectors`, `BucketFacts`. Code that changes state in place is modelled by methods over arrays,
by classes, or, for the concurrent engines, by a step relation; each method's contract equates
its result or new state with a function, and the lemmas are about that function.

Where the code does not do what a reader might expect, the condition is stated and proved:

* A zero-byte tensor is never sent; the split/merge round trip is the identity exactly when no
  tensor is empty (`Chunks.SplitMergeRoundTrip`).
* A tensor that fits one bucket is viewed in place, so the receiver raises exactly when it
  lands at an offset that is not a multiple of its item size; mixed item sizes can cause this
  (`Delivery.ReceivedExactly`, `Delivery.MixedItemsRaise`).
* A NIXL or NCCL update ends with every rank finished if and only if no bucket repeats a tensor name
  and every tensor that travels whole can be viewed where it was packed; otherwise some rank
  has raised, yet no receiver has yielded anything but the tensors in order
  (`NixlTermination.EveryRunDelivers`, `NcclBroadcast.EveryRunDelivers`).
* `get_notification` rebinds the name it waits for; whose notification it pops is characterised
  exactly (`NixlAgent.PopsFromAwaited`), and in the chain it is always the right one.
* Mooncake polls are trustworthy, in all runs, if and only if no bucket whose half is used again
  begins with the acknowledgement pattern (`MooncakePolling.PollsAreTruthfulIff`); a yielded view
  of a middle rank can be overwritten (`MooncakePolling.AViewCanBeTorn`), which happens in no run if
  and only if there is no middle rank or the pattern leaves every listed tensor as it is
  (`MooncakeViews.ViewsAreExactIff`).
* A Mooncake bucket that lists a name twice silently delivers only the later tensor
  (`MooncakeBuckets.ServedStreamIff`).
* The pipeline search needs more than `layer_num >= pp_size`; the docstring and error text do not
  say so (`PipelineShards.GetDynamicPipelineShards`, `PipelineShards.FiveLayersOnFourRanks`).
* Merging contiguous halves of a stacked gate/up weight does not give gate and up back
  (`Qkv.ContiguousHalvesDoNotMerge`); merging shards stacked the way the loader stacks them does.
* A state dictionary without layers leaves a gap in the layer numbers
  (`PipelineShards.NumberingIsConsecutiveIff`).
* `check_consistency` guarantees aligned columns if and only if there is a tensor batch or at most
  one column (`DataProto.CheckSufficesIff`).
* The profile builder works on totals, which do not replace the rule that a correct rollout is
  format-valid; the totals for which it is right anyway are given exactly
  (`AvailableCount.CountAgreesIff`).

## Model

| member | source | states |
|---|---|---|
| `Chunks.SplitWeightChunks` | verl/verl/checkpoint_engine/base.py:529-543 | The splitter's loops emit exactly the specified chunk stream, and terminate for every positive bucket size. |
| `Chunks.ChunksTile` | verl/verl/checkpoint_engine/base.py:531-543 | The chunks of one tensor tile its bytes: each starts where the previous one ended, all but the last are full, and they end at its size. |
| `Chunks.MergeWeightChunks` | verl/verl/checkpoint_engine/base.py:558-585 | The receiver's loop over one merge buffer computes the specified merge, and reports an error exactly when an internal assertion or a view fails. |
| `Chunks.SplitMergeRoundTrip` | verl/verl/checkpoint_engine/base.py:529-585 | Merging what was split yields the non-empty tensors in order with no failed assertion; it is the identity if and only if no tensor is empty. |
| `Chunks.MergePlacedExactly` | verl/verl/checkpoint_engine/base.py:558-585 | Whatever bucket offsets the chunks carry, the merge is exact or raises, and raises if and only if a whole-bucket tensor sits at an offset its dtype cannot be viewed at. |
| `Packing.LayoutIsDisjoint` | verl/verl/checkpoint_engine/nixl_checkpoint_engine.py:399-426 | Two chunks of one bucket occupy disjoint ranges inside the bucket. |
| `Packing.PackKeepsStream` | verl/verl/checkpoint_engine/nixl_checkpoint_engine.py:395-426 | The buckets end to end are the chunk stream, and each is a gap-free layout within the bucket size. |
| `Packing.PackHasNoEmptyBucket` | verl/verl/checkpoint_engine/nixl_checkpoint_engine.py:395-436 | An empty bucket is sent if and only if there is nothing to send. |
| `Packing.PackNamesDistinct` | verl/verl/checkpoint_engine/nixl_checkpoint_engine.py:420-424 | For tensors of distinct names no bucket lists a name twice, so metadata keyed by name loses nothing. |
| `Packing.FewBuckets` | verl/verl/checkpoint_engine/nixl_checkpoint_engine.py:397-426 | Any two consecutive buckets together exceed the bucket size, so at most 2*total/size + 1 are sent. |
| `Packing.SendWeights` | verl/verl/checkpoint_engine/nixl_checkpoint_engine.py:390-436 | The loop over two swapped buffers raises if and only if a bucket would repeat a name; otherwise it announces exactly the packed buckets, each full in its buffer at that moment, only the last marked last, and the log is announcement 0, its wait, announcement 1, its wait, and so on to the end. |
| `Delivery.ReceivedExactly` | verl/verl/checkpoint_engine/base.py:558-585 | Split, pack and merge together give exactly the sender's non-empty tensors or raise, with the exact condition. |
| `Delivery.NeverWrong` | verl/verl/checkpoint_engine/base.py:558-585 | At any point of the stream, even before a later error, the receiver has yielded a prefix of the sender's tensors. |
| `Delivery.SenderNeverRaises` | verl/verl/checkpoint_engine/nixl_checkpoint_engine.py:420-421 | With distinct tensor names the sender's assertions hold. |
| `Delivery.UniformItemsArrive` | verl/verl/checkpoint_engine/base.py:564-568 | Tensors of one item size dividing the bucket size always arrive. |
| `Delivery.MixedItemsRaise` | verl/verl/checkpoint_engine/base.py:566-567 | A concrete pair of tensors with different item sizes for which the receiver raises. |
| `NixlAgent.Agent.ReadMessage` | verl/verl/checkpoint_engine/nixl_checkpoint_engine.py:128-132 | Hands out the oldest pending message of the named agent and loses or reorders nobody's; blocks only when that agent has nothing pending. |
| `NixlAgent.Agent.GetNotification` | verl/verl/checkpoint_engine/nixl_checkpoint_engine.py:134-140 | The polling loop, with its rebound loop variable, pops what the specification says and leaves what it says. |
| `NixlAgent.PopsFromAwaited` | verl/verl/checkpoint_engine/nixl_checkpoint_engine.py:134-140 | The popped notification is the awaited agent's if and only if one was stashed or that agent is listed last in the first poll that returns any. |
| `NixlAgent.PopsSomeoneElse` | verl/verl/checkpoint_engine/nixl_checkpoint_engine.py:134-140 | A concrete poll with two notifying peers in which waiting for one pops the other's notification. |
| `NixlAgent.PopsInOrder` | verl/verl/checkpoint_engine/nixl_checkpoint_engine.py:134-140 | When only the successor notifies, notifications come out in the order sent, none lost or repeated. |
| `NixlAgent.TopologyIsAChain` | verl/verl/checkpoint_engine/nixl_checkpoint_engine.py:289-305 | The argument lists have one entry per worker if and only if there are at least two rollout ranks, and then they wire one chain. |
| `NixlInvariant.StepKeeps` | verl/verl/checkpoint_engine/nixl_checkpoint_engine.py:390-526 | Every step of every rank keeps the relay's invariant. |
| `NixlTheorems.BuffersInUseAreStable` | verl/verl/checkpoint_engine/nixl_checkpoint_engine.py:399-418 | In every reachable state no step writes a buffer that is offered and unacknowledged or whose views are still being yielded. |
| `NixlTheorems.OneOutstandingOffer` | verl/verl/checkpoint_engine/nixl_checkpoint_engine.py:166-173 | Each link has at most one outstanding offer, queued, in transfer or acknowledged, and the acknowledgement carries the awaited key, so the notify-key assertion never fails. |
| `NixlTheorems.StepFailsIff` | verl/verl/checkpoint_engine/nixl_checkpoint_engine.py:166-173 | A step raises the failure flag exactly when a wait finds another key than its own, or a last wait has nothing to wait for. |
| `NixlTheorems.StreamIsPrefix` | verl/verl/checkpoint_engine/nixl_checkpoint_engine.py:458-526 | In every interleaving what a rank has yielded is a prefix of the sender's chunk stream, and all of it once the rank is finished. |
| `NixlTheorems.NoDeadlock` | verl/verl/checkpoint_engine/nixl_checkpoint_engine.py:397-436 | From every reachable state some rank can step, unless every rank is finished or some rank has raised. |
| `NixlTermination.RunsAreBounded` | verl/verl/checkpoint_engine/nixl_checkpoint_engine.py:397-526 | No run exceeds a bound computed from ranks, buckets and bytes. |
| `NixlTermination.EveryRunDelivers` | verl/verl/checkpoint_engine/nixl_checkpoint_engine.py:390-526 | A run that cannot go on has every rank finished if and only if no bucket repeats a name and every whole-bucket tensor can be viewed where it was packed; then every receiver's merged output is the sender's non-empty tensors, and otherwise some rank has raised. Either way every receiver's output is a prefix of the sender's tensors. |
| `NixlTermination.DeliveryHappens` | verl/verl/checkpoint_engine/nixl_checkpoint_engine.py:390-526 | From any buffer contents there is a run to the end, and when no bucket repeats a name and every whole-bucket tensor is viewable it leaves every receiver with the tensors. |
| `MooncakeBuckets.PackExactly` | verl/verl/checkpoint_engine/mooncake_checkpoint_engine.py:167-207 | Whole-tensor packing fails if and only if a tensor exceeds the bucket; otherwise the buckets are the tensors in order and each fits one half. |
| `MooncakeBuckets.PackIsGreedy` | verl/verl/checkpoint_engine/mooncake_checkpoint_engine.py:171-206 | A bucket is closed exactly where the next tensor would not fit behind it, and an empty bucket is sent if and only if there are no tensors. |
| `MooncakeBuckets.SlotsAreCurrent` | verl/verl/checkpoint_engine/mooncake_checkpoint_engine.py:199-204 | The metadata dictionary lists every name of a bucket once, in the order of first occurrences, each with the last tensor of that name. |
| `MooncakeBuckets.ServedStreamIff` | verl/verl/checkpoint_engine/mooncake_checkpoint_engine.py:199-265 | What the metadata dictionaries list, each keeping a repeated name's first place and last value, is what was packed if and only if no bucket repeats a name. |
| `MooncakeBuckets.ViewsAlign` | verl/verl/checkpoint_engine/mooncake_checkpoint_engine.py:171-264 | Tensors cast to one dtype sit, in either half of the buffer, at offsets that dtype can be viewed at whenever its item size divides the bucket size. |
| `MooncakeInvariant.StepKeeps` | verl/verl/checkpoint_engine/mooncake_checkpoint_engine.py:167-281 | Every step of every rank keeps the relay's invariant when no reused bucket begins with the pattern. |
| `MooncakeTheorems.ReadsAreIntact` | verl/verl/checkpoint_engine/mooncake_checkpoint_engine.py:238-254 | At every transfer read, for any number of ranks and buckets, the predecessor's half holds exactly the announced bucket. |
| `MooncakeTheorems.LastRankIsExact` | verl/verl/checkpoint_engine/mooncake_checkpoint_engine.py:259-265 | The last rank yields the tensors the sender's dictionaries list, in order, byte for byte, and all of them when it finishes. |
| `MooncakeTheorems.LastRankReceivesTheWeights` | verl/verl/checkpoint_engine/mooncake_checkpoint_engine.py:167-281 | From packing to the last rank: when a run has ended the last rank has yielded the given tensors if and only if no bucket repeats a name; with names apart what it has yielded is a prefix of them at any time. |
| `MooncakeTheorems.ViewsAreExactUntilAcknowledged` | verl/verl/checkpoint_engine/mooncake_checkpoint_engine.py:254-272 | A view a middle rank is about to yield is exact if and only if its successor has not acknowledged the bucket or the pattern leaves those bytes unchanged. |
| `MooncakeViews.ViewsAreExactIff` | verl/verl/checkpoint_engine/mooncake_checkpoint_engine.py:254-272 | Every view of every middle rank is exact in every run if and only if there is no middle rank or the pattern leaves every listed tensor's bytes unchanged. |
| `MooncakeTheorems.EveryRunFinishes` | verl/verl/checkpoint_engine/mooncake_checkpoint_engine.py:142-281 | Runs are bounded, only a finished chain cannot go on, and a finished chain has drained its queues, so the next update can start. |
| `MooncakePolling.PollsAreTruthfulIff` | verl/verl/checkpoint_engine/mooncake_checkpoint_engine.py:142-147 | No rank ever mistakes data for an acknowledgement, in any run, if and only if no bucket whose half is used again begins with the pattern. |
| `MooncakePolling.AViewCanBeTorn` | verl/verl/checkpoint_engine/mooncake_checkpoint_engine.py:254-272 | A concrete three-rank run in which a middle rank is about to yield the acknowledgement pattern as tensor bytes. |
| `NcclBroadcast.BroadcastsAreLockstep` | verl/verl/checkpoint_engine/nccl_checkpoint_engine.py:248-298 | Sender and receivers are never more than one broadcast apart, and a broadcast in flight never uses the buffer being filled or yielded. |
| `NcclBroadcast.StreamIsPrefix` | verl/verl/checkpoint_engine/nccl_checkpoint_engine.py:321-368 | A receiver's yields are a prefix of the sender's chunks and, when it finishes, every bucket's chunks once in order. |
| `NcclBroadcast.NoDeadlock` | verl/verl/checkpoint_engine/nccl_checkpoint_engine.py:248-368 | From every reachable state some rank can step, unless every rank is finished or some rank has raised. |
| `NcclBroadcast.EveryRunDelivers` | verl/verl/checkpoint_engine/nccl_checkpoint_engine.py:248-368 | Runs are bounded. One that cannot go on has every rank finished if and only if no bucket repeats a name and, when there is a receiver, every whole-bucket tensor can be viewed where it was packed; then every receiver's merged output is the sender's non-empty tensors, and otherwise some rank has raised. Every receiver's output is always a prefix. |
| `NcclBroadcast.DeliveryHappens` | verl/verl/checkpoint_engine/nccl_checkpoint_engine.py:248-368 | The same of the broadcasts: runs to the end exist from any buffer contents, and deliver. |
| `TopK.SupportIsExact` | risk_aware_opsd/verpo_topk.py:183-192 | The support has fixed width, strictly increasing valid ids, and they are exactly the sources' Top-K ids and the sampled id. |
| `TopK.OmittedIdsAreDominated` | risk_aware_opsd/verpo_topk.py:183-192 | An id left out is outranked in every source by k retained ids. |
| `TopK.TopKExists` | risk_aware_opsd/verpo_topk.py:183-192 | A selection of k best ids always exists, so the statements about supports are about every input. |
| `TopK.LargeTopKKeepsEverything` | risk_aware_opsd/verpo_topk.py:132-137 | With top_k at least the vocabulary size the support is the whole vocabulary. |
| `TopK.MaskedSumIsSetSum` | risk_aware_opsd/verpo_topk.py:251-255 | The masked sum is the sum over the set of coordinates, each counted once. |
| `Vectors.DotOfUnit` | risk_aware_opsd/verpo_topk.py:414-418 | The sums over coordinates take every coordinate once, with its own partner. |
| `TopK.SampledHasOneSlot` | risk_aware_opsd/verpo_topk.py:630-639 | The sampled-index lookup never raises on a built support and finds the only valid slot of the token. |
| `Fisher.VarianceIsCentered` | risk_aware_opsd/verpo_topk.py:416-418 | The moment formula is the sum of squares about the mean plus what the omitted mass at zero adds. |
| `Fisher.VarianceIsNonnegative` | risk_aware_opsd/verpo_topk.py:414-440 | For nonnegative weights of sum at most one the form is positive semidefinite, so the variance clamps change nothing. |
| `Fisher.CauchySchwarz` | risk_aware_opsd/verpo_topk.py:436-444 | The squared covariance is at most the product of the two variances. |
| `Fisher.GeometryDescribesResidual` | risk_aware_opsd/verpo_topk.py:445-459 | The reported cost, mean and leftover covariance are the variance, mean and covariance of the actual residual vector; the cost lies between zero and the task variance; the leftover is exactly alpha times epsilon. |
| `Fisher.ProjectionIsRidgeMinimiser` | risk_aware_opsd/verpo_topk.py:441-452 | The projection is the unique minimiser of Var(task - a*nuisance) + eps*a^2, with the exact excess of any other a. |
| `Fisher.CosineNeedsNoClamp` | risk_aware_opsd/verpo_topk.py:455-458 | The cosine lies in [-1, 1] before clamping. |
| `FecStats.ForwardFecStats` | risk_aware_opsd/verpo_zpd.py:1290-1399 | For every positive chunk size the two-pass loops return the moment geometry of the whole vocabulary, and every field says what it should of task = positive - negative and nuisance = (positive + negative)/2 - no-evidence: the projection solves the ridge equation, benefit is advantage times the residual at the token less its weighted mean, cost, norms and covariances are those of the residual. They raise exactly on malformed arguments. |
| `FecStats.ReverseFecStats` | risk_aware_opsd/verpo_zpd.py:1632-1768 | The same for Reverse KL, of the tangents p*(direction - its weighted mean); the residual norm is expanded and clamped instead of summed. |
| `TruncatedStats.TruncatedForwardIsRestricted` | risk_aware_opsd/verpo_topk.py:1242-1291 | Forward-KL statistics on a support equal the whole-vocabulary geometry with everything outside the support set to zero. |
| `TruncatedStats.TruncatedReverseIsRestricted` | risk_aware_opsd/verpo_topk.py:776-835 | The same for Reverse KL, through the tangent map. |
| `TruncatedStats.TruncatedStatsDescribe` | risk_aware_opsd/verpo_topk.py:389-835 | On any built support, in both directions, every reported field says what it should of the zeroed Teacher rows: ridge equation, centred alignment, residual variance, norms and covariances. |
| `TruncatedStats.ModesAgreeAtTheThreshold` | risk_aware_opsd/verpo_topk.py:132-137 | Where the dispatcher switches to full mode, the truncated path gives the same statistics. |
| `TruncatedStats.TruncatedStatsAreSound` | risk_aware_opsd/verpo_topk.py:389-593 | On any support and in both directions the cost lies between zero and the task's variance and the leftover is exactly the ridge's. |
| `TokenWeights.WeightIsAFraction` | risk_aware_opsd/verpo_zpd.py:1843-1864 | The default mode never raises and gives a weight in [0, 1) with w/(1-w) = h/c; signed mode leaves that range exactly for negative benefit and fails exactly when benefit cancels cost. |
| `TokenWeights.WeightOrRefused` | risk_aware_opsd/verpo_zpd.py:1843-1864 | Every call, whatever the cost: refused exactly on a bad hyperparameter or, for an active token, when signed benefit cancels the cost term, or unsigned when the cost term is not positive though the benefit is, or both are nothing; an inactive token weighs zero, an active one solves w*(h+c) = h. |
| `TokenWeights.FecWeightIsAFraction` | risk_aware_opsd/verpo_zpd.py:1843-1864 | The whole-vocabulary FEC statistics, Forward and Reverse KL, always feed the weight a cost it accepts, and it is a fraction. |
| `TokenWeights.TruncatedWeightIsAFraction` | risk_aware_opsd/verpo_zpd.py:1843-1864 | So do the truncated statistics, on any built support and in both directions. |
| `RolloutOrder.EarlierIsStrictTotal` | risk_aware_opsd/rollout_evidence.py:48-52 | The sort key is a strict total order on distinct rollout ids. |
| `RolloutOrder.OrdinalOfTransferQueueId` | risk_aware_opsd/rollout_evidence.py:49-52 | An id of the form uid_session_turn is ordered by its session number. |
| `RolloutOrder.OrdinalOfPlainId` | risk_aware_opsd/rollout_evidence.py:49-52 | An id without an underscore is its own ordinal, or 0 when it is not a number. |
| `RolloutOrder.OrdinalOfPair` | risk_aware_opsd/rollout_evidence.py:49-52 | With one underscore the last part is the ordinal. |
| `RolloutOrder.OrdinalOfTriple` | risk_aware_opsd/rollout_evidence.py:49-52 | With more, the middle one of the last three parts when it is a number, else the last one, else 0. |
| `RolloutOrder.ValueOfConcat` | risk_aware_opsd/rollout_evidence.py:52 | Digits in front weigh a power of ten more for every digit behind them. |
| `RolloutOrder.ValueOfDigit` | risk_aware_opsd/rollout_evidence.py:52 | A single digit counts what it says. |
| `RolloutOrder.LessIsLexicographic` | risk_aware_opsd/rollout_evidence.py:52 | Ids of equal ordinal compare as strings: a proper prefix first, else the first differing character decides. |
| `RolloutOrder.SessionsSortNumerically` | risk_aware_opsd/rollout_evidence.py:48-52 | Rollouts are ordered by their session numbers as numbers, and within a session by the whole id. |
| `Evidence.GroupRows` | risk_aware_opsd/rollout_evidence.py:44-46 | The dictionary loop maps every group to its rows in batch order. |
| `Evidence.SelectRolloutEvidence` | risk_aware_opsd/rollout_evidence.py:34-73 | Refuses for the three reasons in order and otherwise gives every row the earliest usable correct sibling, the usable wrong ones in turn and the reason code; in particular a row with a correct, format-valid sibling that has a non-space character always gets a positive. |
| `Evidence.SelectionIsExact` | risk_aware_opsd/rollout_evidence.py:34-73 | The same of the specification, in terms of the batch's columns alone: when each refusal happens, what each slot holds, and when each reason code is given. |
| `Evidence.BlankIff` | risk_aware_opsd/rollout_evidence.py:62 | Stripping leaves nothing if and only if every character is white space. |
| `Evidence.PositiveIsEarliest` | risk_aware_opsd/rollout_evidence.py:57-68 | The positive is the earliest correct, valid, non-blank sibling in the target's group, never the target, and -1 only if there is none. |
| `Evidence.NegativesCycleThroughWrongSiblings` | risk_aware_opsd/rollout_evidence.py:67-71 | Negative slots hold wrong siblings in order, repeat only after all are used, and are -1 only if there is none. |
| `Evidence.NegativesRepeat` | risk_aware_opsd/rollout_evidence.py:69-71 | Slot k beyond the last wrong sibling repeats the slot one round earlier. |
| `Evidence.SelectionIsEquivariant` | risk_aware_opsd/rollout_evidence.py:33-73 | Permuting the batch permutes positives and negatives correspondingly, carries the reason along, and refuses the same batches. |
| `AvailableCount.CountAgreesWithSelector` | risk_aware_opsd/zpd_dataset.py:120-158 | For one prompt's non-blank rollouts in which correct implies format-valid, the profile is built with the number of rows the selector marks available. |
| `AvailableCount.CountAgreesIff` | risk_aware_opsd/zpd_dataset.py:120-158 | For one prompt's non-blank rollouts with any labels, the profile is built with the selector's count if and only if no correct rollout is invalid, or as many valid wrong ones make up for them without changing which side has siblings to spare. |
| `AvailableCount.TotalsDoNotReplaceTheRowRule` | risk_aware_opsd/zpd_dataset.py:153-158 | The witness: a concrete batch where the totals guard passes and the count is wrong. |
| `PipelineShards.FitsIsAnInterval` | verl/verl/model_merger/megatron_model_merger.py:84-87 | A middle size passes the search's test exactly between the even share and what leaves two layers. |
| `PipelineShards.GetDynamicPipelineShards` | verl/verl/model_merger/megatron_model_merger.py:67-98 | The search and stable sort return the closed form; an empty candidate list occurs if and only if ceil(L/P)*(P-2) > L-2. |
| `PipelineShards.ShardsAreEven` | verl/verl/model_merger/megatron_model_merger.py:81-98 | The result has one positive share per rank summing to L, middle ceil(L/P), ends no larger and at most one apart. |
| `PipelineShards.RanksTileTheTotal` | verl/scripts/converter_hf_to_mcore.py:576-578 | Cumulative sums give every layer to exactly one rank. |
| `PipelineShards.OwnersAreInOrder` | verl/scripts/converter_hf_to_mcore.py:576-578 | A later layer never belongs to an earlier rank. |
| `PipelineShards.NothingBeyond` | verl/scripts/converter_hf_to_mcore.py:576-578 | No rank owns a layer outside the total. |
| `PipelineShards.FilesAreNumberedOnce` | verl/verl/model_merger/megatron_model_merger.py:431-453 | With one output file per layer below 30 layers and two from 30 on, every file number is written by exactly one rank as exactly one of its chunks. |
| `PipelineShards.KeysAreSavedOnce` | verl/verl/model_merger/megatron_model_merger.py:440-449 | A rank's keys are split over its files in order, each once, the first keys mod files of them holding one key more. |
| `PipelineShards.SearchTilesLayersAndFiles` | verl/verl/model_merger/megatron_model_merger.py:67-453 | Whatever shards the search returns, each rank's share is positive, every layer belongs to exactly one rank and every output file is written exactly once. |
| `PipelineShards.RenumberLayers` | verl/verl/model_merger/megatron_model_merger.py:360-384 | The renumbering loop gives each local layer the number of layers before it, plus one for every earlier dictionary that had none. |
| `PipelineShards.NumberingIsConsecutiveIff` | verl/verl/model_merger/megatron_model_merger.py:360-384 | Layer numbers are consecutive if and only if no dictionary without layers precedes one with layers. |
| `Qkv.SplitTensors` | verl/verl/model_merger/megatron_model_merger.py:333-354 | The splitting loop computes the specified parts or fails on the same conditions. |
| `Qkv.SplitSucceedsIff` | verl/verl/model_merger/megatron_model_merger.py:334-349 | Splitting works if and only if the rows are whole key heads and every group gets a whole number of them. |
| `Qkv.SplitInvertsInterleave` | verl/scripts/converter_hf_to_mcore.py:155-168 | Splitting the per-group interleaved weight returns the original query, key and value rows. |
| `Qkv.SplitTakesRows` | verl/verl/model_merger/megatron_model_merger.py:342-354 | Group g of a splittable tensor is a block of its query rows, its key rows and its value rows, which become rows g of the three parts. |
| `Qkv.InterleaveInvertsSplit` | verl/verl/model_merger/megatron_model_merger.py:342-354 | Interleaving the split parts gives the fused tensor back. |
| `Qkv.MergeAcrossTp` | verl/scripts/legacy_model_merger.py:537-562 | The nested loops over shards and chunks compute the specified merge. |
| `Qkv.MergeIsSplitOfWhole` | verl/scripts/legacy_model_merger.py:540-562 | For every shard count dividing the key-value groups, merging contiguous shards equals splitting the whole. |
| `Qkv.StackedShardsMerge` | verl/scripts/legacy_model_merger.py:523-533 | Shards stacking their own gate rows on their own up rows merge to the whole gate and up. |
| `Qkv.ContiguousHalvesDoNotMerge` | verl/scripts/legacy_model_merger.py:523-533 | Merging contiguous halves of a stacked weight equals splitting it only if the two middle quarters are equal. |
| `DataProto.CheckSufficesIff` | verl/verl/protocol.py:454-477 | Passing the consistency check guarantees that all columns have the reported length if and only if there is a tensor batch or at most one other column. |
| `DataProto.CheckMissesUnevenColumns` | verl/verl/protocol.py:454-477 | The witness: two columns of different lengths that the check accepts because there are no tensors. |
| `DataProto.SliceIsSelect` | verl/verl/protocol.py:702-719 | A slice takes the same rows of every column. |
| `DataProtoRows.SliceHoldsRows` | verl/verl/protocol.py:702-719 | A slice from start to stop holds exactly the existing rows from start up to stop. |
| `DataProtoRows.NegativeBounds` | verl/verl/protocol.py:702-719 | A negative bound counts from the end, and from further back than the front means the front. |
| `DataProto.ConcatOfSelections` | verl/verl/protocol.py:917-961 | Concatenating row selections of one batch is selecting the concatenated rows, aligned across tensor and other columns. |
| `DataProtoRows.ConcatOfAlike` | verl/verl/protocol.py:917-961 | Concatenating batches of one shape succeeds, with the sum of their rows. |
| `DataProtoRows.ConcatHoldsRows` | verl/verl/protocol.py:917-961 | Row j of batch i stands behind all rows of the batches before it, in every column. |
| `DataProto.PadToDivisor` | verl/verl/protocol.py:84-99 | The padding loop returns the batch with every column followed by the passes over it that pad it, even when columns are uneven; on aligned columns row i is data[i mod len]. It also returns the pad size, and raises exactly for divisor zero. |
| `DataProto.PaddedIsCyclic` | verl/verl/protocol.py:84-99 | Padding aligned columns is one row selection: row i of every column is row i mod len. |
| `DataProto.PaddedIsLeastMultiple` | verl/verl/protocol.py:84-86 | The padded length is the least multiple of the divisor that holds every row. |
| `DataProto.UnpadInvertsPad` | verl/verl/protocol.py:102-106 | Unpadding a padded batch gives the batch back. |
| `DataProto.ConcatInvertsChunk` | verl/verl/protocol.py:864-903 | Whenever chunking succeeds there are exactly the requested number of chunks and concatenating them is the identity, even on a batch whose columns do not line up. |
| `DataProto.ChunkSucceedsIff` | verl/verl/protocol.py:873-903 | The exact condition under which chunking succeeds, with padding enabled or not. |
| `DataProtoRows.ChunkHoldsRows` | verl/verl/protocol.py:873-903 | Chunk i holds the consecutive rows that torch.chunk gives it with tensors and numpy.array_split without, with the exact sizes of both. |
| `DataProto.ConcatInvertsSplit` | verl/verl/protocol.py:905-914 | Concatenating the parts of a split gives any batch with rows back. |
| `DataProtoRows.SplitHoldsRows` | verl/verl/protocol.py:905-914 | Part k of a split holds the rows from k*size on, size of them or what is left, and exists exactly when there are such rows. |
| `DataProto.FanOutPartitionsFanIn` | verl/verl/protocol.py:1193-1228 | Workers that each take their chunk of the gathered outputs partition the concatenation exactly. |
| `DataProto.RepeatIsSelect` | verl/verl/protocol.py:971-1013 | Repeating, interleaved or tiled, is one row selection for every column. |
| `DataProtoRows.RepeatInterleavedRow` | verl/verl/protocol.py:983-1005 | Interleaved, row q*n + j of every tensor and other column of the repeated batch is row q. |
| `DataProtoRows.RepeatTiledRow` | verl/verl/protocol.py:988-1008 | Otherwise row q*len + j of every column is row j. |
| `DataProtoRows.RepeatedLength` | verl/verl/protocol.py:971-1013 | The repeated batch reports len*n rows and is aligned. |
| `DataProto.InterleavedRow` | verl/verl/protocol.py:983-987 | Row q*n + j of an interleaved repetition is row q. |
| `DataProto.TiledRow` | verl/verl/protocol.py:988-993 | Row q*len + j of a tiled repetition is row j. |
| `DataProtoObject.Proto.Reorder` | verl/verl/protocol.py:963-969 | Reordering in place moves every column's rows the same way, or raises and changes nothing. |
| `DataProtoObject.Proto.Padding` | verl/verl/protocol.py:849-862 | Padding in place appends the first or last row to every column, or raises and changes nothing. |

## Left out

- Ray, ZeroMQ, NIXL, NCCL, Mooncake and CUDA calls are atomic steps: a queue per peer, a transfer that copies byte by byte and then notifies (NIXL) or copies at once (Mooncake, NCCL); lost messages, transfer errors and PUB/SUB joins are not modelled.
- `CheckpointEngineManager.update_weights` appears only as the barrier that lets an update start with empty queues and arbitrary buffer contents.
- Floating-point rounding, NaN and infinity checks, temperature, softmax normalisation, dtype conversion and autograd: probabilities and log-probabilities are given reals. Norms are kept as squares and the cosine as numerator and squared denominator, because square roots are taken last.
- The statistics without a nuisance direction (`compute_evidence_displacement_stats` and the `None` branches) are the nuisance-free part of the same sums.
- The geometric Reverse-KL correction and the token losses use logarithms and exponentials of live tensors.
- TokenWeights.TokenWeight: one token in the benefit/cost mode; the uniform mode returns the mask itself, and the deprecated parameterisation only rewrites the two constants.
- torch.topk's choice among equal scores: any selection of k best indices is allowed.
- The HCCL engine is the NCCL engine without chunking, and the Kimi engine's buckets come from a package that is not part of this model.
- Parameter-name rewriting, Hugging Face loading, LoRA export, file output, meta_info merging, the TensorDict branch of `DataProtoFuture.get`, slice steps and boolean index masks.
- Data preparation, bundle sync, archiving, reward patterns, summaries and viewers.
- The MoE merge and split scripts, the EMA update and the overlong penalty.
- A Mooncake sender that meets a tensor larger than a bucket raises after it may have sent earlier buckets; `MooncakeBuckets.PackExactly` says exactly when, and the runs are those of tensors that fit.
- MooncakeTheorems.EveryRunFinishes: takes no view to raise, as `MooncakeBuckets.ViewsAlign` shows for one item size that divides the bucket size; bucket sizes are whole megabytes and item sizes powers of two.
- What Ray does after a rank raised, such as restarting or killing the others.
- MooncakeTheorems.ViewsAreExactUntilAcknowledged: says nothing of what a consumer does with a view after it was yielded, because consumers are not modelled.
- MooncakePolling.PollsAreTruthfulIff: leaves out the sender's final wait, which guards no reuse.
- RolloutOrder.Ordinal: takes the decimal digits and the whitespace characters as given tables, and does not model Python's limit on the length of integer literals.
- DataProto.SliceIsSelect: takes aligned columns, as do `ConcatOfSelections`, `UnpadInvertsPad`, `ConcatInvertsSplit`, `RepeatIsSelect`, the lemmas of `DataProtoRows` and the methods of `DataProtoObject`; a batch without tensors may be unaligned, which the check accepts.
- DataProto.ChunkSucceedsIff: takes an empty tensor batch to chunk into empty pieces, as torch.chunk does.
- PipelineShards.RenumberLayers: each dictionary is taken to hold local layers 0..n-1.
- Qkv.MergeIsSplitOfWhole: covers tensors with at least one row.
