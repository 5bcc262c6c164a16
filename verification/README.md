# Proofs about the Witnet node

This project models the parts of witnet-rust on which nodes have to agree to the last bit: Merkle
trees and inclusion proofs, superblock voting, the set of unspent outputs, the building of
transactions, and the resolution of data requests.

* **Merkle trees.** `MerkleRoot` has the recursive root, `ProgressiveMerkleTree` the tree that works
  like a binary counter, `FullMerkleTree` the tree built layer by layer with its inclusion proofs,
  and `TxInclusionProof` the two ways of making a proof longer. All the trees are shown to compute
  the one recursive root, for every list of leaves. The hash function is a parameter.
* **Superblocks.** `SuperblockVotes` counts the votes, `SuperblockState` decides which votes are
  accepted from one superblock to the next, `SuperblockConsensus` says what the counts decide, and
  `Committee` chooses who may vote. The ghost field `seen` holds the votes that were judged valid;
  every count is related to that set, so the results hold for every order of arrival.
* **Unspent outputs.** `UtxoPool` is the in-memory diff over a shared database, `UtxoDiff` the diff
  of a block on top of it. Whole runs of blocks, snapshots and persists behave as one plain map.
* **Transactions.** `CoinSelection` is the greedy choice of outputs, `TransactionFactory` the search
  for a relative fee that agrees with the transaction's own weight, and `OwnUtxos` the builders and
  the reservation of the outputs they use.
* **Data requests.** `Conditions` is the precondition clause of a tally, `Masks` and `TallyReport`
  the flags that each reveal gets, `Tally` the payments, and `ExpectedTally` the whole way from the
  reveals to the tally transaction.

`Bits`, `Arithmetic`, `Sequences`, `Words` and `Options` are helpers.

Classes, loops and in-place updates of the source are classes, loops and updates here; each method
is proved against a function or a set-theoretic description of the state. A panic of the source
(`assert!`, `unwrap`, division by zero) is a precondition of the method that would panic, and its
callers are shown to avoid it. Where they cannot, the panic is an outcome of the model, and it is
proved exactly when it occurs: the `unwrap` of `override_vote` when votes are added, the panics of
consolidating a snapshot, the `unreachable!` of the fee search, the eight-bit counters of the `mode`
reducer, and the panics of `create_tally` before the second hard fork.

## Where a property holds only under a condition

* Pruning a persisted snapshot from the live pool keeps the live outputs exactly when no output that
  the snapshot removed has been inserted again (`PruneKeepsViewIff`, `ResurrectionShows`). Blocks that
  create only new outputs never insert one again, so in every such run nothing shows
  (`PoolIsPlainMap`).
* A snapshot outlives a persist of the live pool, but can then no longer be consolidated unless it is
  empty (`StaleSnapshotFails`). In every run an event panics if and only if it consolidates a superblock
  that is not yet persisted and whose snapshot is missing, or is stale and not empty (`RunPanicsIff`).
* `two_thirds_consensus` asks for at least the whole part of two thirds of the committee, so that three
  times the votes may be short of twice the members by two (`TwoThirdsConsensus`), while its documentation
  says that more than two thirds are needed. The model follows the code. As a result the
  answer of `has_consensus` depends on the order in which a hash map is visited exactly for committees
  of 2 or 4 members (`AnswerIsUniqueIff`).
* `add_vote` judges a vote by the index that the caller derives from the clock, which runs ahead of the
  superblock the node is on until the next one is built. A node counts exactly the eligible votes that
  reached it if and only if none of the period came out of time (`CountsExactlyIff`): a vote for the
  next superblock that comes in between counts against its signer (`NextVoteCountsAsDouble`), and a late
  vote for the current one is lost (`LateVoteIsLost`).
* `add_vote` panics when a double vote takes back a vote that is recorded but not listed. A run of
  arrivals panics if and only if one brings an accepted vote for a new hash of an identity whose last
  accepted vote differs from its first (`PanicsIff`), as three votes can do (`ThirdVotePanics`). It never
  does when no vote comes out of time (`TimelyNeverPanics`).
* A built transaction conserves value exactly when the requested sums fit in 64 bits: a sum that
  overflows is replaced by the largest word (`ConservedIff`, `BuildOverflowing`).
* The search for a relative fee reaches its `unreachable!` exactly when the weight limit is the largest
  32-bit word, every round but the last takes one more input, and the estimate then saturates
  (`RelativeFeeSearch`, `ReachUnreachable`). Any lower limit rules that out (`UnsaturatedNeverRunsOut`).
* The `mode` reducer counts in eight signed bits. With overflow checks it panics exactly when some item
  occurs more than 127 times; without them, as in the release profile, the counters wrap, and it panics
  exactly when the largest count is negative and shared (`ModeOf`). The two builds agree as long as no
  item occurs more than 127 times (`ChecksAgree`). Beyond that wrapping still elects an error that is the
  only one (`OnlyErrorIsElected`), but it can elect a rare one (`RareErrorIsElected`).
* The masks of a report have one flag per reveal, as `create_tally` asserts, also when a step of the
  tally script ends in an error. The exception, before the second hard fork, is a script that cannot be
  unpacked (`RunTally`, `LoseErrorsMask`); the validation of data requests rejects those
  (validations/src/validations.rs:416-419). Before that fork a tally can be created exactly when nothing
  panics and a well-formed script leaves some of the winning values (`CreateExpectedTally`,
  `LeaveNobodyHonest`); after it, always.
* A tally whose result is an error can slash a revealer. It slashes exactly the revealers of
  values that are not of the winning type or that a filter flagged, provided that the filters left some
  values and, after the fork, that the script ended in an error or what is left is a consensus
  (`SlashedIff`, `CreateExpectedTally`, `SlashOnTie`). When no type of values wins, nobody is slashed (`OnlyWinningValuesSlash`).
* A relative-fee build that asks for nothing at all is refused with a zero amount; every other refusal
  means that no number of inputs is consistent with its own fee (`RelativeFeeSearch`).

## Model

| member | source | states |
|---|---|---|
| MerkleRoot.SplitPoint | crypto/src/merkle.rs:35-58 | The code's split point (the next power of two of half the length, rounded up) is the largest power of two below the length, the split of section 2.1 of RFC 6962. |
| MerkleRoot.RootSplit | crypto/src/merkle.rs:35-58 | For any list of more than one and at most two blocks of a level, the root is the hash of the first block's root and the root of the rest. |
| ProgressiveMerkle.SlotContents | crypto/src/merkle.rs:60-104 | Binary-counter law: a slot is filled exactly when its level's bit of the number of pushes is set, and then holds the recursive root of exactly the perfect block of pushes that the higher bits skip to. |
| ProgressiveMerkle.FoldIsRoot | crypto/src/merkle.rs:154-165 | Folding the optional slots from the back gives the recursive root of all the leaves the slots stand for, and nothing exactly when there are none. |
| ProgressiveMerkle.ProgressiveMerkleTree.constructor | crypto/src/merkle.rs:106-115 | A new tree stands for no leaves. |
| ProgressiveMerkle.ProgressiveMerkleTree.Push | crypto/src/merkle.rs:119-151 | Whatever carries happen, the tree afterwards stands for the old leaves followed by the new one, and its first slot is never empty. |
| ProgressiveMerkle.ProgressiveMerkleTree.Root | crypto/src/merkle.rs:154-165 | After any pushes the incremental root is the recursive root of the list of pushed leaves. |
| ProgressiveMerkle.CarrySlot | crypto/src/merkle.rs:126-143 | Carrying out of a filled slot keeps the total list of leaves and yields a perfect block of the next level. |
| InclusionProofs.InclusionProof.ComputeRoot | crypto/src/merkle.rs:308-321 | The level-by-level loop with its shifts and masks equals the recursive climb. |
| InclusionProofs.ForgeryGivesCollision | crypto/src/merkle.rs:308-326 | Two different elements or sibling lists that reach one root under the same index and length yield an explicit collision of the hash function. |
| FullMerkle.LayerKeepsRoot | crypto/src/merkle.rs:195-221 | Replacing a list by its paired layer, with an odd last node promoted, leaves the recursive root unchanged. |
| FullMerkle.LastLayerIsRoot | crypto/src/merkle.rs:195-226 | The top layer is one node, the recursive root of the leaves. |
| FullMerkle.FullMerkleTree.Build | crypto/src/merkle.rs:195-221 | The loop produces the list of all layers over the leaves. |
| FullMerkle.FullMerkleTree.Root | crypto/src/merkle.rs:224-226 | The full tree and the recursive definition have the same root, the empty tree included. |
| FullMerkle.CollectSiblings | crypto/src/merkle.rs:242-271 | The loop with its or-ed and shifted index collects the path defined recursively over the layers. |
| FullMerkle.AuditPathReachesRoot | crypto/src/merkle.rs:236-274 | Completeness: every leaf's proof takes that leaf to the root, in trees of every size. |
| FullMerkle.AuditPathFits | crypto/src/merkle.rs:236-274 | A proof's index has no bits beyond its siblings, of which there are fewer than layers. |
| FullMerkle.LayersBound | crypto/src/merkle.rs:195-221 | A tree over at most 2^k leaves has at most k + 1 layers. |
| FullMerkle.AuditPathsDistinct | crypto/src/merkle.rs:236-274 | No leaf's position (index and length of its proof) lies at or below another leaf's, although promoted leaves have shorter proofs. |
| FullMerkle.ProofBindsLeaf | crypto/src/merkle.rs:236-326 | Soundness: under a hash without collisions, a proof for a leaf's position verifies if and only if it is that leaf with that leaf's own siblings. |
| FullMerkle.FullMerkleTree.ProofOfInclusion | crypto/src/merkle.rs:236-274 | A proof is returned exactly for indexes of leaves, and it takes the leaf to the root. |
| TxInclusion.TxInclusionProof.AddLeave | data_structures/src/transaction.rs:346-349 | From then on the proof takes an element to where it took the hash of that element and the new sibling. |
| TxInclusion.TxInclusionProof.Concat | data_structures/src/transaction.rs:353-356 | From then on the proof applies what it was and then the second proof, as long as the index and the levels fit the word. |
| TxInclusion.AddedLeafRoot | data_structures/src/transaction.rs:346-349 | After adding a level, the data reaches what the hash of data and rest reached before. |
| TxInclusion.ConcatenatedRoot | data_structures/src/transaction.rs:351-356 | Concatenation composes proofs: the first is applied, then the second, as long as the index of the first fits its levels and the levels fit the word. |
| TxInclusion.DataProofReachesRoot | data_structures/src/transaction.rs:397-404 | For transactions whose hashable bytes are the hashes of two parts, the data proof of inclusion takes the hash of the data part to the root over the block, whose leaves are the hashes of the two parts. |
| TxInclusion.DataProofFits | data_structures/src/transaction.rs:346-349 | A data proof's index has no bits beyond its siblings, so that it can be concatenated. |
| TxInclusion.SuperblockProofReachesRoot | data_structures/src/chain/mod.rs:1021-1045 | End to end: the data proof in a block, concatenated with the proof of that block's root, takes the data of a request or tally to the superblock's root, each leaf of which is the root over a block's transactions, or the empty hash for a block without any. |
| TxInclusion.ConcatReachesUpperRoot | data_structures/src/transaction.rs:351-356 | A leaf of a lower tree whose root is a leaf of an upper tree is taken to the upper root by the two trees' own proofs concatenated. |
| SuperblockVotes.SuperBlockVotesMempool.constructor | data_structures/src/superblock.rs:100-114 | A new mempool has seen nothing. |
| SuperblockVotes.SuperBlockVotesMempool.CheckDoubleVote | data_structures/src/superblock.rs:126-134 | True exactly when this vote and the ones seen contain two hashes for the identity, also when it was penalized before. |
| SuperblockVotes.SuperBlockVotesMempool.OverrideVote | data_structures/src/superblock.rs:138-152 | All four tables stay exact: the recorded vote leaves the tallies, the identity is penalized and nobody else changes. |
| SuperblockVotes.SuperBlockVotesMempool.InsertVote | data_structures/src/superblock.rs:155-168 | All tables stay exact and an identity is counted once, however many votes for one hash it sends. |
| SuperblockVotes.SuperBlockVotesMempool.ClearAndRemoveVotes | data_structures/src/superblock.rs:200-209 | Everything is forgotten and every received vote is handed back. |
| SuperblockVotes.SuperBlockVotesMempool.MostVotedSuperblock | data_structures/src/superblock.rs:212-217 | For any order in which the hash map is visited, the last of the hashes with the most supporters and its number of supporters; nothing exactly when nobody is counted. |
| SuperblockVotes.LastBestIsBest | data_structures/src/superblock.rs:212-217 | No visited hash has more supporters than the one picked. |
| SuperblockVotes.SuperBlockVotesMempool.FindableIff | data_structures/src/superblock.rs:138-152 | The vote to take back is in the list of its hash if and only if the vote last recorded for the identity is the one listed for it. |
| SuperblockVotes.SuperBlockVotesMempool.ValidVotesCounter | data_structures/src/superblock.rs:220-222 | The number of identities that voted for one hash only. |
| SuperblockVotes.SuperBlockVotesMempool.InvalidVotesCounter | data_structures/src/superblock.rs:224-226 | The number of identities that voted for two hashes. |
| SuperblockVotes.SupportIsListLength | data_structures/src/superblock.rs:100-114 | A hash's list is as long as the set of identities that support it. |
| SuperblockConsensus.NoUnderflow | data_structures/src/superblock.rs:400-402 | Counted and penalized identities are disjoint parts of the committee, so the number of missing votes does not underflow. |
| SuperblockConsensus.TwoThirdsConsensus | data_structures/src/superblock.rs:699-703 | So many votes are enough if and only if three times their number plus two reaches twice the number of members. |
| SuperblockConsensus.PotentialSize | data_structures/src/superblock.rs:400-413 | Votes plus missing votes is the number of members that have not voted against the hash. |
| SuperblockConsensus.Leads | data_structures/src/superblock.rs:384-414 | What the leading hash's votes and the missing votes decide, in terms of who is elected and who still can be. |
| SuperblockConsensus.AnswerDecides | data_structures/src/superblock.rs:364-415 | In every visiting order the answer means what it says about the votes. |
| SuperblockConsensus.DecisionIsAnswer | data_structures/src/superblock.rs:364-415 | Conversely, every answer that is true of the votes is given in some visiting order. |
| SuperblockConsensus.QuorumsOverlap | data_structures/src/superblock.rs:699-703 | Safety across nodes: if two nodes elect different superblocks, a number of members (at least one unless the committee has 2 or 4) voted for both. |
| SuperblockConsensus.ElectedOnce | data_structures/src/superblock.rs:364-415 | On one node at most one superblock is elected, unless the committee has 2 or 4 members. |
| SuperblockConsensus.AnswerIsUniqueIff | data_structures/src/superblock.rs:212-217 | The answer is the same for all orders in which the hash map can be visited if and only if the committee does not have 2 or 4 members. |
| SuperblockState.SuperBlockState.constructor | data_structures/src/superblock.rs:258-268 | The genesis state votes with the bootstrap committee, which is also its current and previous list of identities. |
| SuperblockState.SuperBlockState.IsValid | data_structures/src/superblock.rs:344-361 | True exactly for votes of committee members on the given index, unknown exactly for votes on the next one, false for all others. |
| SuperblockState.SuperBlockState.InsertVote | data_structures/src/superblock.rs:271-296 | The valid vote is seen, and the answer says whether its identity has now voted twice; or the `unwrap` panics, exactly when a double vote meets an identity whose recorded vote is not the listed one. |
| SuperblockState.SuperBlockState.AddVote | data_structures/src/superblock.rs:303-339 | For any vote and any index the caller passes: the node takes exactly the step of the run model, panics included, and each of the answers says what is then true of the vote. |
| SuperblockState.SuperBlockState.BuildSuperblock | data_structures/src/superblock.rs:428-527 | The committee consists of exactly the previous identities that the hash chooses, by the positions of `SigningCommittee`, unless it is replaced; exactly the eligible ones of the votes received early are seen. |
| SuperblockState.SuperBlockState.ReinsertVotes | data_structures/src/superblock.rs:516-524 | In whatever order the drained votes are taken, the eligible ones are seen. |
| SuperblockState.SuperBlockState.HasConsensus | data_structures/src/superblock.rs:364-415 | For any visiting order: a superblock whose supporters reach two thirds, in the inequality above, and that no other exceeds; none whose supporters and silent members together do; or neither of the two. |
| SuperblockState.CountsTwoPeriods | data_structures/src/superblock.rs:303-339 | Whatever happened before, a node that does not panic counts the eligible votes of the period before, whatever indexes they came with, and the votes of this one that were valid under the index they first came with. |
| SuperblockState.CountsExactlyIff | node/src/actors/chain_manager/mod.rs:1428-1431 | It does not panic and counts exactly the eligible votes of both periods if and only if no vote of this one came out of time. |
| SuperblockState.TablesFollow | data_structures/src/superblock.rs:138-168 | After any arrivals, the list and the record of an identity have the first and the last of its accepted votes as long as those are for one hash, and neither has it afterwards. |
| SuperblockState.PanicsIff | data_structures/src/superblock.rs:138-152 | A run of arrivals after a superblock is built panics if and only if one of them is an accepted vote for another hash of an identity not yet penalized whose last accepted vote is not its first. |
| SuperblockState.TimelyNeverPanics | data_structures/src/superblock.rs:303-339 | Without votes out of time no run of arrivals panics. |
| SuperblockState.ThirdVotePanics | data_structures/src/superblock.rs:138-152 | A concrete member whose third vote makes the node panic. |
| SuperblockState.NextVoteCountsAsDouble | node/src/actors/chain_manager/mod.rs:1428-1431 | A concrete member who is penalized for voting on the next superblock before it is built. |
| SuperblockState.LateVoteIsLost | node/src/actors/chain_manager/mod.rs:1428-1431 | A concrete vote that is not counted because its period is over for the clock. |
| SuperblockState.OrderDoesNotMatter | data_structures/src/superblock.rs:303-527 | Two nodes that got the same votes over two periods, none out of time in the second, in any order and with any repetitions, get through that one without panic and count, penalize and tally the same. |
| SuperblockState.NoConsensusIsFinal | data_structures/src/superblock.rs:364-415 | Once no superblock can win, no further votes of the period that the node survives change the answer, whatever indexes they come with, except to undecided exactly when every voter is penalized. |
| Committee.MagicPartition2 | data_structures/src/superblock.rs:672-694 | Element `i` is the one at `first + i * each` plus the byte modulo `each`, modulo the length; the positions are all different, whatever the bytes. |
| Committee.MagicPartition | data_structures/src/superblock.rs:652-667 | The stepping loop returns the elements at `first + i * each` modulo the length, from different positions when there are enough. |
| Committee.StopsInWindows | data_structures/src/superblock.rs:652-667 | Repeatedly adding the step modulo the length reaches the windows' starting positions, and never one twice. |
| Committee.SigningCommittee | data_structures/src/superblock.rs:594-647 | The committee is everybody when there are fewer identities than asked for. Otherwise it is the set of the identities at the positions that the digest, the window size and, after the second hard fork, the bytes determine; when none is listed twice, it has exactly the asked size. |
| UtxoPool.PruneKeepsViewIff | data_structures/src/utxo_pool.rs:243-251 | Pruning what was persisted keeps the live outputs if and only if nothing the snapshot removed was inserted again. |
| UtxoPool.ResurrectionShows | data_structures/src/utxo_pool.rs:243-251 | A concrete output that appears by pruning, when it was removed, persisted and inserted again. |
| UtxoPool.PruneKeepsCoherence | data_structures/src/utxo_pool.rs:243-251 | What is left of the diff agrees with the new database. |
| UtxoPool.PersistInSteps | data_structures/src/utxo_pool.rs:222-251 | Persisting a snapshot and later the rest leads to the same outputs as persisting everything at once. |
| UtxoPool.UnspentOutputsPool.GetMap | data_structures/src/utxo_pool.rs:52-62 | Looking up a pointer looks it up in the database, if there is one, edited by the diff. |
| UtxoPool.UnspentOutputsPool.Insert | data_structures/src/utxo_pool.rs:70-74 | The output shows, unless its pointer was removed before. |
| UtxoPool.UnspentOutputsPool.Remove | data_structures/src/utxo_pool.rs:77-80 | The pool's outputs lose exactly this one. |
| UtxoPool.UnspentOutputsPool.PersistAddToBatch | data_structures/src/utxo_pool.rs:222-240 | Writing the batch leaves the database with exactly the pool's outputs, and no sanity check fails on the way. |
| UtxoPool.UnspentOutputsPool.Persist | data_structures/src/utxo_pool.rs:210-219 | The database has what the pool had, and the diff is empty. |
| UtxoPool.UnspentOutputsPool.RemovePersistedFromMemory | data_structures/src/utxo_pool.rs:243-251 | The loops prune exactly what was persisted. |
| UtxoPool.ConsolidateSnapshot | node/src/actors/chain_manager/mod.rs:494-500 | Pruning the live pool and persisting the snapshot leaves the live outputs unchanged and the database with the snapshot's. |
| UtxoDiffs.UtxoDiff.InsertUtxo | data_structures/src/utxo_pool.rs:702-711 | Over any pool, a new output shows in the block's view and nothing else changes, with the block's own number unless another is given. |
| UtxoDiffs.UtxoDiff.RemoveUtxo | data_structures/src/utxo_pool.rs:715-721 | Over any pool, the block's view loses exactly this output, whether the block or the pool had it. |
| UtxoDiffs.UtxoDiff.Get | data_structures/src/utxo_pool.rs:724-741 | Looking up a pointer looks it up in the pool edited by the block. |
| UtxoDiffs.Apply | data_structures/src/utxo_pool.rs:642-650 | The pool's diff takes over the block's, item by item. |
| UtxoDiffs.BlockAgrees | data_structures/src/utxo_pool.rs:685-746 | A block's diff over a pool shows the same outputs as a plain map edited step by step. |
| UtxoDiffs.ApplyAgrees | data_structures/src/utxo_pool.rs:642-650 | Applying the diff gives the pool those outputs and violates no assertion of the pool. |
| UtxoDiffs.PoolIsPlainMap | node/src/actors/chain_manager/mod.rs:445-500 | In every run of blocks, snapshots, consolidations and sync-time persists, as long as it has not panicked, the live pool equals one plain map that only the blocks edit. |
| UtxoDiffs.RunPanicsIff | node/src/actors/chain_manager/mod.rs:2853-2896 | In every run an event panics if and only if it consolidates a superblock that is neither the first nor the highest persisted one and whose snapshot is missing, or is stale and not empty. |
| UtxoDiffs.StaleSnapshotFails | node/src/actors/chain_manager/mod.rs:449-500 | A concrete run in which a snapshot outlives a persist of the live pool and consolidating it panics. |
| UtxoDiffs.PersistedDatabaseIsReference | node/src/actors/chain_manager/mod.rs:494-500 | Taking and consolidating one more snapshot, of a superblock above the highest persisted one, does not panic and leaves the database equal to that map, however often and whenever it was persisted before. |
| CoinSelection.TakeEnoughUtxos | data_structures/src/transaction_factory.rs:113-181 | The loop, with its overflow check and errors, computes the recursive selection. |
| CoinSelection.EligibleIff | data_structures/src/utxo_pool.rs:426-437 | An own output is taken into account if and only if its time lock and its reservation are over and its block is not above the limit. |
| CoinSelection.SelectedPointers | data_structures/src/transaction_factory.rs:113-181 | Selected outputs are different, with time lock and reservation over and not too new, reach the amount, and fall short of it without the last one. |
| CoinSelection.NoMoneyIff | data_structures/src/transaction_factory.rs:113-181 | A positive amount is refused for lack of money if and only if the total of the own outputs fits in a word and all usable outputs together fall short, and the error carries both totals; with such a total there is no other refusal. |
| CoinSelection.OverflowIff | data_structures/src/transaction_factory.rs:113-181 | The overflow error is given if and only if the total of the outputs looked at exceeds a word before the usable ones reach the amount. |
| CoinSelection.LeftOutComesLater | data_structures/src/transaction_factory.rs:113-181 | A usable output that is not taken comes after every one that is. |
| CoinSelection.ZeroAmountIff | data_structures/src/transaction_factory.rs:122-125 | The zero-amount error is given exactly for a zero amount. |
| CoinSelection.TakeMonotone | data_structures/src/transaction_factory.rs:113-181 | A larger amount never takes fewer inputs and never succeeds where a smaller one fails. |
| CoinSelection.BigFirstIsMinimal | data_structures/src/transaction_factory.rs:113-181 | Biggest first is optimal: no usable own outputs that reach the amount are fewer. |
| DataRequests.WeightIsLinear | data_structures/src/transaction.rs:290-300 | The chain of saturating operations is one saturated sum: 133 per input and 360 per output for a transfer; 133 per input, 36 per output, 636 per witness, the request and 130 for a data request. |
| DataRequests.DrWeightIsLinear | data_structures/src/transaction.rs:450-462 | The same for a data request transaction, extra weight included. |
| TransactionFactory.FeeMonotone | data_structures/src/chain/priority.rs:218-220 | A heavier transaction never has a lower relative fee, rounding and saturation included. |
| TransactionFactory.FeeIs | data_structures/src/chain/priority.rs:218-220 | The fee is the whole part of priority times weight, zero when that is negative and the largest word when it does not fit. |
| TransactionFactory.TransactionOutputsSum | data_structures/src/transaction_factory.rs:706-715 | The checked sum is the sum, and fails exactly when that does not fit. |
| TransactionFactory.CalculateWeight | data_structures/src/transaction_factory.rs:378-413 | Refused, with the error of the kind of transaction, exactly when the exact linear weight exceeds the limit and the limit is below the largest word. |
| TransactionFactory.RelativeFeeSearch | data_structures/src/transaction_factory.rs:338-372 | Reaches the `unreachable!` if and only if it runs out of rounds; else finds the least number of inputs consistent with the fee of that number, or fails with the error of the first round that fails, and then there is no such number. |
| TransactionFactory.SearchStep | data_structures/src/transaction_factory.rs:340-369 | Each round's number of inputs does not shrink and stays at or below every consistent number. |
| TransactionFactory.TrailEnds | data_structures/src/transaction_factory.rs:339-371 | As many rounds as the weight left allows are only not enough when the estimate saturates at the largest word. |
| TransactionFactory.UnsaturatedNeverRunsOut | data_structures/src/transaction_factory.rs:339-371 | A limit below the largest word, or funds that stay below it, keep the search from running out. |
| TransactionFactory.ReachUnreachable | data_structures/src/transaction_factory.rs:338-372 | A concrete request and funds for which the builder panics. |
| TransactionFactory.BuildInputsOutputs | data_structures/src/transaction_factory.rs:297-374 | Succeeds if and only if everything fits and the funds pay for value and fee; inputs then cover both and the fee is the one asked for. A refusal gives the error of the first check that is not passed. |
| TransactionFactory.FundedCovers | data_structures/src/transaction_factory.rs:451-464 | The subtraction that gives the change does not underflow. |
| TransactionFactory.RequestValue | data_structures/src/chain/mod.rs:1657-1663 | The value of a request is refused if and only if it, or what one witness costs, does not fit in a word; else it is the exact value. |
| TransactionFactory.ConservedIff | data_structures/src/transaction_factory.rs:308-317 | Inputs equal outputs, request, change and fee if and only if the requested sums fit in 64 bits. |
| TransactionFactory.BuildOverflowing | data_structures/src/transaction_factory.rs:308-317 | A concrete order whose sum overflows and that the builder accepts all the same. |
| OwnUtxos.OwnUnspentOutputsPool.Sort | data_structures/src/utxo_pool.rs:364-377 | Every own output once, by value in the direction asked for. |
| OwnUtxos.OwnUnspentOutputsPool.SortBy | data_structures/src/utxo_pool.rs:404-420 | Every own output once when the strategy allows the node's address, none otherwise, in the strategy's order. |
| OwnUtxos.OwnUnspentOutputsPool.SetUsedOutputPointer | data_structures/src/utxo_pool.rs:494-499 | Exactly the inputs are reserved until the time given. |
| OwnUtxos.OwnUnspentOutputsPool.Build | data_structures/src/transaction_factory.rs:468-568 | A built transaction spends different own outputs that are neither locked, reserved nor too new, conserves value, has the right fee, pays the outputs and then the change to the own address without time lock, takes the biggest or smallest outputs first as asked, is minimal under biggest first, and reserves exactly its inputs. With a given fee a build succeeds if and only if some free own outputs reach value and fee and everything fits; every refusal says why, and changes nothing. |
| OwnUtxos.OwnUnspentOutputsPool.BuildVtt | data_structures/src/transaction_factory.rs:468-517 | All of the above, for a value transfer. |
| OwnUtxos.OwnUnspentOutputsPool.BuildDrt | data_structures/src/transaction_factory.rs:520-568 | All of the above, for a data request. |
| OwnUtxos.OwnUnspentOutputsPool.BuildCommitCollateral | data_structures/src/transaction_factory.rs:613-657 | All of the above, for the smallest outputs first and the collateral as the fee; inputs exceed outputs by exactly the collateral. |
| OwnUtxos.FewestInputs | data_structures/src/transaction_factory.rs:113-181 | With the outputs sorted biggest first, no other choice of usable own outputs is smaller. |
| OwnUtxos.FirstInOrder | data_structures/src/transaction_factory.rs:113-181 | With the outputs sorted by value, no usable own output that is left out is bigger, or smaller, than one that is taken. |
| OwnUtxos.PayableIff | data_structures/src/transaction_factory.rs:297-374 | In whatever order the own outputs are offered, an order with a given fee is paid if and only if some different usable own outputs reach value and fee and everything fits. |
| OwnUtxos.ReservationHolds | data_structures/src/utxo_pool.rs:426-437 | In every run, a used output stays reserved for the whole timeout or is gone. |
| OwnUtxos.BuildsDoNotShare | data_structures/src/utxo_pool.rs:426-499 | In every run, two builds less than the timeout apart share no input. |
| OwnUtxos.BuildInRun | data_structures/src/transaction_factory.rs:468-568 | A call of the builder at any point of a legal run is a legal event with the reservations it makes as its effect, so the two results above hold of real builds. |
| Masks.TallyMetaData.UpdateLiars | data_structures/src/radon_report.rs:308-329 | The in-place loop refines the mask: set flags stay and the clear ones take the new flags in order; the consensus is the share of clear flags. |
| Masks.RefinedAligns | data_structures/src/radon_report.rs:308-329 | The reveals left by the refined mask are the values left by the filter. |
| Masks.RefinedAt | data_structures/src/radon_report.rs:308-329 | Flag by flag: set flags stay set, and a clear flag becomes the new flag whose number is the number of clear flags before it. |
| Masks.SurvivorAt | data_structures/src/radon_report.rs:308-329 | A value with a clear flag is among the values left, after as many others as there are clear flags before it. |
| Masks.HonestCountIs | data_structures/src/radon_report.rs:308-329 | The number of clear flags is the size of the set of their indexes. |
| Masks.ChainAligns | data_structures/src/radon_report.rs:308-329 | After any number of filters the clear flags line up with the values left, and no set flag is cleared. |
| Conditions.Counter.Increment | rad/src/conditions.rs:349-367 | Maximum and position stay those of the counts: a position exactly when one category leads alone. |
| Conditions.MostFrequent | rad/src/conditions.rs:65-96 | A category that leads the counter alone is the type that more reveals have than any other type. |
| Conditions.OccurrencesAre | rad/src/conditions.rs:349-367 | The number of occurrences of an item is its multiplicity. |
| Conditions.RatioIs | rad/src/conditions.rs:76-96 | A share reaches the required consensus if and only if the count reaches that part of the total. |
| Conditions.SplitByType | rad/src/conditions.rs:161-171 | One flag per reveal, and the values of the winning type in order. |
| Conditions.ModeOf | rad/src/reducers/mode.rs:7-38 | With overflow checks: a panic if and only if some item occurs more than 127 times, otherwise the single most common item or a tie with the right count. Without: the same by the wrapped counts, with a panic if and only if the largest is negative and shared. |
| Conditions.ChecksAgree | rad/src/reducers/mode.rs:10-15 | Builds with and without overflow checks have the same result as long as no item occurs more than 127 times. |
| Conditions.OnlyItemIsMode | rad/src/reducers/mode.rs:10-15 | Without overflow checks the only item is the mode, however often it occurs. |
| Conditions.OnlyErrorIsElected | rad/src/conditions.rs:105-160 | Without overflow checks the only error among the reveals is the mode of the errors, however often it occurs. |
| Conditions.PanicIffCrowded | rad/src/reducers/mode.rs:10-15 | With overflow checks, counting the errors among the reveals panics if and only if one of them is revealed more than 127 times. |
| Conditions.RareErrorIsElected | rad/src/reducers/mode.rs:10-15 | 128 of one error and one of another: the common one has the consensus, with overflow checks its counter panics, and without them the rare one is the mode. |
| Conditions.MostCommonError | rad/src/conditions.rs:105-160 | For builds with and without overflow checks: the mode of the errors decides between a majority, too little of a consensus, a tie and a panic, and a consensus above one half rules out ties. |
| Conditions.EvaluatePrecondition | rad/src/conditions.rs:42-186 | Which result each list of reveals leads to, with values, masks, counts and ratios, before and after the second hard fork, with and without overflow checks; a consensus above one half never ends in a tie. |
| Conditions.RejectedIff | rad/src/conditions.rs:90-186 | Exactly when a tie is reported and with which count, exactly when the consensus is insufficient and with which ratio, and exactly when the counting panics. |
| TallyReports.RunTallyReport | rad/src/lib.rs:587-641 | Refused exactly for a script that is not well formed; otherwise the report has the script's value or error, the clause's mask refined by every filter that ran, and the error mask. |
| TallyReports.ConstructReport | rad/src/conditions.rs:235-308 | The masks of every branch, and exactly when both have one flag per reveal: unless values win and a malformed script meets them before the second hard fork. |
| TallyReports.Postcondition | rad/src/conditions.rs:191-232 | A report comes back unchanged if and only if it is an error or has strictly more than the required consensus left; else it becomes an error with nobody honest. |
| TallyReports.FilteredAligns | rad/src/conditions.rs:247-262 | While the script's value or error stands, the report's clear flags line up with the values the filters left, and reveals of other types stay flagged. |
| TallyReports.WinningClause | rad/src/conditions.rs:42-186 | The clause in terms of the type that wins, both ways, and otherwise the error that says why none does. |
| TallyReports.RunTally | validations/src/validations.rs:933-963 | For all reveals and all scripts: no report exactly when counting the errors or the script on the winning values panics. If values win, what the script makes of them, with an error keeping both masks. Otherwise the error: too many witnesses, no commits, no reveals, a tie with its count, too little of a consensus with its share, or the common error. One flag of each kind per reveal if and only if no winning values meet a malformed script before the second hard fork. |
| TallyReports.SlashedIff | rad/src/conditions.rs:235-308 | Whether the report has a value or an error, it slashes a reveal if and only if values win, the reveal is not an error, the type mask or a filter flags it, some values are left and, after the second hard fork, an error ended the script or what is left is a consensus. |
| TallyReports.RunTallyPanicSafe | validations/src/validations.rs:918-930 | After the second hard fork there always is a report with full masks, the one for an unknown error exactly on a panic; before it, one with full masks and somebody honest if and only if a well-formed script leaves some of the winning values. Without a panic it is the report of `RunTally`, and one with full masks slashes exactly the reveals above. |
| TallyReports.LeavesSomeIff | rad/src/conditions.rs:235-308 | Before the second hard fork, full masks and somebody honest are there if and only if the script is well formed and leaves some of the winning values, whether it ends in a value or an error. |
| TallyReports.LoseErrorsMask | rad/src/conditions.rs:254-283 | A concrete reveal and a malformed script, for which the branch for refused scripts leaves no errors mask before the second hard fork. |
| TallyReports.TieKeepsMasks | rad/src/script.rs:128-133 | Two different integers and a string with a script that ends in a tie: both masks are kept, and the third reveal is out of consensus with a value. |
| TallyReports.LeaveNobodyHonest | rad/src/conditions.rs:247-262 | A concrete reveal and a filter that leaves nobody honest. |
| TallyReports.CrowdPanics | rad/src/conditions.rs:105-127 | 129 concrete reveals for which there is no report with overflow checks. |
| Tally.LockedWitsByRequests | data_structures/src/data_request.rs:421-461 | The loop adds up what each request holds, and fails exactly when the sum exceeds 64 bits. |
| Tally.LockedExactly | data_structures/src/data_request.rs:437-454 | No saturation: in the commit stage a request holds its value, and from then on its value and the collaterals minus the fees of its commits and reveals; the collateral is the minimum exactly when the request gives zero. |
| Tally.CountsAddUp | data_structures/src/data_request.rs:609-621 | Liars, errors out of consensus and honest reveals make up all reveals. |
| Tally.CountsAre | data_structures/src/data_request.rs:609-621 | The numbers of liars and of errors out of consensus are the sizes of the sets of indexes that only the first mask, or both, flag. |
| Tally.CalculateErrorsAndLiarsCount | data_structures/src/data_request.rs:609-621 | The loop computes those two counts. |
| Tally.ShareOut | data_structures/src/data_request.rs:492-551 | Slashed collaterals are shared equally up to the rest of the division; WIP-0023 shares nothing. |
| Tally.HonestTallyConserves | data_structures/src/data_request.rs:476-551 | With someone honest, rewards, refunds, change and rest (or the burnt part) are exactly what the request holds. |
| Tally.RefundTallyConserves | data_structures/src/data_request.rs:476-551 | With nobody honest, refunds and change are exactly what the request holds. |
| Tally.ChangeConserves | data_structures/src/data_request.rs:476-490 | The change, the rewards of the honest and all collaterals are exactly what the request holds. |
| Tally.NothingOverflows | data_structures/src/data_request.rs:476-551 | The 64-bit arithmetic of change, slashed collaterals and rewards never overflows. |
| Tally.PayRevealers | data_structures/src/data_request.rs:697-737 | Of different revealers, each one in consensus gets exactly one output, worth the reward, each one out of it with an error exactly one, worth the collateral, a liar none, and nobody else any, in the order of the reveals; and who is out of consensus and who is an error. |
| Tally.PaymentsPayEach | data_structures/src/data_request.rs:697-737 | The same of the recursive list of payments. |
| Tally.RefundAll | data_structures/src/data_request.rs:739-757 | Every committer gets exactly one output, worth the collateral, and nobody else gets any. |
| Tally.CreateTally | data_structures/src/data_request.rs:632-818 | Who gets what: the payments or refunds above, with the reward, the collateral and the share of the slashed collaterals written out, and then the requester's change; the two lists of witnesses; and exactly by how much the outputs fall short of what the request holds: the rest of the division, the burnt collaterals, or from version 2 on the rewards and collaterals. |
| Tally.LiarsIff | data_structures/src/data_request.rs:697-757 | Of different revealers, exactly those out of consensus with a value are liars of the tally transaction, as long as somebody is honest. |
| Tally.FlaggedAt | data_structures/src/data_request.rs:697-737 | The error committers come in the order of their reveals. |
| ExpectedTally.CreateExpectedTally | validations/src/validations.rs:965-1018 | From any reveals and any script: after the second hard fork there always is a tally, and before it if and only if nothing panics and a well-formed script leaves some winning values. Its result is the value or exact error of `RunTally`, it pays everybody as `CreateTally` says by that report's masks, conserves value, and slashes exactly the revealers of values that are not of the winning type or that a filter flagged, under the condition of `SlashedIff`. |
| ExpectedTally.OnlyWinningValuesSlash | validations/src/validations.rs:965-1018 | When no type of values wins, no revealer is slashed, whatever the error. |
| ExpectedTally.SlashOnTie | validations/src/validations.rs:965-1018 | Two different integers and a string with a script that ends in a tie: the tally slashes who revealed the string. |

## Left out

- Committee selection inputs: the digest and the random bytes are parameters, and whether an emergency or bootstrap committee replaces the selected one.
- SuperblockState.SuperBlockState.AddVote: a vote is an identity, a hash and an index; signatures are not part of it.
- SuperblockState.SuperBlockState.BuildSuperblock: the Merkle roots and the superblock itself are not built; the hash is given.
- TxInclusion.ConcatenatedRoot: index and levels must fit a 64-bit word; proofs of trees up to that size do (`AuditPathFits`, `LayersBound`).
- FullMerkle.ProofBindsLeaf: assumes a hash without collisions; `ForgeryGivesCollision` is the statement without that assumption.
- Iteration, visiting, migration and deletion of the output database.
- UtxoDiffs.PoolIsPlainMap: blocks create outputs under pointers that are neither in use, as pointers are hashes of transactions, nor known to a stale snapshot, and spend outputs that are there. Comparing two chain states taken for one superblock, and reloading the chain state from storage, are left out.
- TransactionFactory.RelativeFeeSearch: the order of the outputs is fixed during one build.
- TransactionFactory.FeeIs: priorities are reals, so the rounding of 64-bit floating point is not modelled.
- TransactionFactory.FeeMonotone: the same.
- OwnUtxos.OwnUnspentOutputsPool.Build: for a relative fee, success and refusal are stated for the order in which the own outputs happen to be offered, since equal outputs come in no particular order. The time and the timeout must add up to a 64-bit word. Signing, stake and unstake transactions and the generic factory's mempool conditions are left out.
- Conditions.EvaluatePrecondition: consensus ratios are reals, and reveals are a type and a payload.
- Masks.TallyMetaData.UpdateLiars: the consensus is a real, and of no flags there is none, where the source has a NaN.
- TallyReports.RunTally: a script enters by whether it is well formed, and by the flags its filters give and the value, error or panic it ends in; clearing messages of intercepted errors is left out.
- Tally.CreateTally: asks that value and collaterals fit in 64 bits and that there are no more reveals than commits and no more commits than witnesses, and, before the second hard fork, that some reveal is honest, since the code divides by that number (`CreateExpectedTally` has the exact condition). The encoded result is left out.
- Stages of data requests, eligibility, reputation, staking, wallet, networking, storage encoding and the actor system are not part of this model.
