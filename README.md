# UTXO ledger and block tree, modelled in Dafny

This project models the validation and chain-selection core of a small single-node blockchain:

- **the UTXO pool** (`UTXOPool`): a mutable map from an output identifier (transaction hash, output index) to the output it names;
- **the transaction handler** (`TxHandler`):
  - the five-condition validity test `isValidTx`;
  - the pool update `updateUTXOPool`;
  - the do-while fixpoint `handleTxs`, which makes passes over an unordered batch until a pass accepts nothing;
- **the block tree** (`BlockChain`):
  - a hash-keyed map of nodes, each with a height, a parent and its own pool;
  - the max-height node, the oldest retained height and the pending transaction pool;
  - `addBlock` with its four rejections (no parent, unknown parent, a batch not accepted in full, a parent too far below the max height);
  - coinbase issuance, the best-node rule (strictly greater height wins) and pruning to the last `NUM_RECENT_NODE = 16` levels.

Files:

- `transactions.dfy`, module `Transactions`: the value types (UTXO, input, output, transaction, block), and the signature capability as a value with two function fields.
- `utxo_pool.dfy`, module `Pool`: class `UTXOPool`, whose field `H` is the map.
- `tx_handler.dfy`, module `Handler`:
  - The pure specification: `ValidTx`, `ApplyTx`, and the fixpoint `PassFrom`/`Rounds`/`Fixpoint`. Lemmas prove termination, acceptance order, mutual validity and maximality.
  - Class `TxHandler`, whose loops are proved against that specification.
- `block_chain.dfy`, module `Chain`:
  - The value-level state `ChainState`, the rejection cascade `Judge` and the transition `AddBlockSpec`, with the window invariant `ChainInv`.
  - Class `BlockChain`. Its `AddBlock` is proved to perform exactly `AddBlockSpec` on the abstraction `Abstract()` of its fields.
- `scenarios.dfy`, module `Scenarios`: the repository's unit tests, written as client code whose outcomes are proved.

Design decisions:

- **Re-org rule follows the code.** The model uses the height test as the code writes it at HWK2/HW2/src/BlockChain.java:137: reject when `parent.height + 1 <= maxHeight - CUT_OFF_AGE`. This agrees with the method's own doc comment (lines 100-108). A prose statement of the rule as "reject when parent height <= best height - CUT_OFF_AGE" would reject a parent at exactly `maxHeight - CUT_OFF_AGE`; the code accepts it. `Chain.EmptyBlockRule` states the code's rule.
- **`getUTXOPool()` is missing.** `addBlock` calls `txHandler.getUTXOPool()` (BlockChain.java:142), but that method is absent from TxHandler.java. It is modelled as returning the handler's own pool, the one `handleTxs` has updated (`Handler.TxHandler.GetUTXOPool`).
- **The max-height test never adds `block1`.** In HWK2/HW2/test/BlockHandlerTest.java:149-159, `block1` is created but never added, so the final block is refused for its unknown parent, not for its height. `Scenarios.MaxHeightBlock` adds the height-2 block first, so the refusal there comes from the height rule. `Scenarios.NullParentNode` covers the unknown-parent refusal.
- **Parent link is a hash.** A node's parent reference is modelled as the parent block's hash. The source reads it for the height and to append the new node to the parent's `childrenNodes` list, which is not modelled (see Left out).
- **Pruning in two steps.** The pruning loop visits every key once, as the iterator does, and removes the out-of-window ones (`Chain.PruneNodes`). The state it produces is the filter `Chain.Prune`.
- **Input sum is total.** `Handler.InputSum` counts a claim missing from the pool as zero. Condition (1) is checked first in `ValidTx`, as the input loop does, so the sum is only compared once every claim is present.
- **Java arrays become sequences.** The copy of the block's transactions into an array (BlockChain.java:126-129) is the sequence `block.transactions`. The result array of `handleTxs` is also a sequence.

## Model

| member | source | states |
|---|---|---|
| Pool.UTXOPool.constructor | HWK1/HWK1/src/UTXOPool.java:23-25 | a new pool maps nothing and contains no UTXO |
| Pool.UTXOPool.Copy | HWK1/HWK1/src/UTXOPool.java:27-30 | the copy holds exactly the original's mappings, as a distinct object |
| Pool.UTXOPool.AddUTXO | HWK1/HWK1/src/UTXOPool.java:32-35 | afterwards `contains(utxo)` holds and `getTxOutput(utxo)` is `txOut`; every other key's lookup is unchanged |
| Pool.UTXOPool.RemoveUTXO | HWK1/HWK1/src/UTXOPool.java:37-40 | afterwards `utxo` is absent and its lookup is null; every other key's lookup is unchanged; an absent `utxo` leaves the pool as it was |
| Pool.UTXOPool.GetTxOutput | HWK1/HWK1/src/UTXOPool.java:42-48 | returns the mapped output when the UTXO is a key, null (None) otherwise |
| Pool.UTXOPool.Contains | HWK1/HWK1/src/UTXOPool.java:50-53 | true exactly when the UTXO is a key of the pool |
| Pool.UTXOPool.GetAllUTXO | HWK1/HWK1/src/UTXOPool.java:55-63 | the list holds every key of the pool, each exactly once, and nothing else |
| Pool.ContainsIffGetTxOutput | HWK1/HWK1/src/UTXOPool.java:42-53 | `contains(u)` holds exactly when `getTxOutput(u)` returns u's output rather than null |
| Handler.TxHandler.constructor | HWK1/HWK1/src/TxHandler.java:8-18 | the handler's pool is a fresh object with the caller's mappings, so later changes through the handler cannot reach the caller's pool |
| Handler.TxHandler.IsValidTx | HWK1/HWK1/src/TxHandler.java:20-94 | true exactly when all claimed outputs are in the pool, every signature verifies against the claimed output's owner over the input's payload, no UTXO is claimed twice, no output is negative, and inputs are worth at least the outputs; it changes no state, so repeated calls agree |
| Handler.TxHandler.CheckInputs | HWK1/HWK1/src/TxHandler.java:35-69 | the input loop succeeds exactly when every claimed output is in the pool, every signature verifies and no UTXO is claimed twice; on success the sum is the total value of the claimed outputs |
| Handler.TxHandler.CheckOutputs | HWK1/HWK1/src/TxHandler.java:71-81 | the output loop succeeds exactly when no output is negative; on success the sum is the total output value |
| Handler.TxHandler.UpdateUTXOPool | HWK1/HWK1/src/TxHandler.java:96-114 | the new pool is the old one with the claimed UTXOs removed, then `(hash, i)` mapped to output i |
| Handler.ApplyTxEffect | HWK1/HWK1/src/TxHandler.java:101-114 | after the update, u is present exactly when tx produced it or it was present and unclaimed; a produced u maps to its output, and every other entry keeps its value |
| Handler.RemoveClaimsEffect | HWK1/HWK1/src/TxHandler.java:103-107 | removing the claims leaves exactly the entries not claimed, with their values |
| Handler.AddOutputsEffect | HWK1/HWK1/src/TxHandler.java:108-113 | adding the outputs maps exactly `(hash, i)` for i below the output count to output i, and leaves every other entry alone |
| Handler.TxHandler.HandleTxs | HWK1/HWK1/src/TxHandler.java:115-160 | the result lists the accepted candidates in acceptance order, taken at distinct positions of the batch (a transaction that claims no output can appear twice); each is valid against the pool the earlier ones left, the final pool is the initial pool after all of them, and there are at most as many as candidates |
| Handler.TxHandler.Pass | HWK1/HWK1/src/TxHandler.java:133-144 | one pass of the for loop leaves exactly the pool and index list that `PassFrom` computes from the old pool |
| Handler.Collect | HWK1/HWK1/src/TxHandler.java:153-157 | the result has one entry per accepted index: entry k is the candidate at the k-th accepted index |
| Handler.FixpointCorrect | HWK1/HWK1/src/TxHandler.java:129-149 | the fixpoint's accepted indices are distinct and in range; the accepted sequence is mutually valid and produces the final pool; no unaccepted candidate is valid against the final pool |
| Handler.PassFromExtends | HWK1/HWK1/src/TxHandler.java:133-144 | a pass only appends new, distinct, in-range indices after those already accepted |
| Handler.PassFromNoProgress | HWK1/HWK1/src/TxHandler.java:133-149 | a pass that accepts nothing leaves the pool alone, and then none of the candidates it examined is valid |
| Handler.UnacceptedShrinks | HWK1/HWK1/src/TxHandler.java:145-149 | a pass that accepts something strictly shrinks the set of unaccepted candidates, so the do-while terminates |
| Handler.PassFromReplays | HWK1/HWK1/src/TxHandler.java:133-144 | every state a pass reaches is the initial pool after a mutually valid sequence of the accepted candidates |
| Handler.RoundsCorrect | HWK1/HWK1/src/TxHandler.java:129-149 | the repeated passes end in a replayable state in which no unaccepted candidate is valid |
| Handler.AcceptOne | HWK1/HWK1/src/TxHandler.java:140-143 | accepting one more valid candidate keeps the accepted sequence mutually valid and consistent with the pool |
| Handler.ValidSequenceEach | HWK1/HWK1/src/TxHandler.java:116-118 | an accepted sequence is mutually valid exactly when each of its transactions is valid against the pool left by the ones before it |
| Handler.ValidSequenceAt | HWK1/HWK1/src/TxHandler.java:116-118 | in a mutually valid sequence, the k-th transaction is valid against the pool the first k left |
| Handler.ValidSequenceFromEach | HWK1/HWK1/src/TxHandler.java:116-118 | a sequence each of whose transactions is valid against the pool the earlier ones left is mutually valid |
| Handler.EmptyBatch | HWK1/HWK1/src/TxHandler.java:120-160 | an empty batch accepts nothing and leaves the pool alone |
| Handler.SelectLength | HWK1/HWK1/src/TxHandler.java:153-157 | the collected result has one entry per accepted index, and no more than there are candidates |
| Handler.DistinctBounded | HWK1/HWK1/src/TxHandler.java:153-157 | distinct indices below n number at most n |
| Handler.TxHandler.GetUTXOPool | HWK2/HW2/src/BlockChain.java:142 | returns the handler's own pool, the one `handleTxs` updated |
| Chain.NewBlockNode | HWK2/HW2/src/BlockChain.java:33-44 | a node without a parent has height 1; otherwise its height is the parent's plus one and it links to the parent's block hash |
| Chain.BlockChain.constructor | HWK2/HW2/src/BlockChain.java:50-73 | the chain's state is the genesis state: one node of height 1 holding the coinbase outputs, which is best, oldest height 1, empty pending pool |
| Chain.GenesisProperties | HWK2/HW2/src/BlockChain.java:50-73 | in the genesis state the pool holds exactly the coinbase outputs `(coinbaseHash, i)`, the genesis node is best, the oldest height is 1, the pending pool is empty, and the window invariant holds |
| Chain.BlockChain.GetOldestBlockHeight | HWK2/HW2/src/BlockChain.java:75-77 | returns the oldest retained height |
| Chain.BlockChain.GetMaxHeight | HWK2/HW2/src/BlockChain.java:79-81 | returns the best node's height |
| Chain.BlockChain.GetMaxHeightBlock | HWK2/HW2/src/BlockChain.java:82-86 | returns the best node's block |
| Chain.BlockChain.GetMaxHeightUTXOPool | HWK2/HW2/src/BlockChain.java:88-92 | returns the best node's own pool object, whose contents are the best node's pool |
| Chain.BlockChain.GetTransactionPool | HWK2/HW2/src/BlockChain.java:94-98 | returns the pending pool |
| Chain.BlockChain.AddBlock | HWK2/HW2/src/BlockChain.java:100-178 | the result and the new state are exactly those of `AddBlockSpec` on the old state, and the window invariant is kept |
| Chain.RejectionCases | HWK2/HW2/src/BlockChain.java:112-140 | a rejected block leaves the state unchanged; no parent hash or an unknown parent means rejection; with a known parent the block is accepted exactly when handleTxs accepts every transaction and `parent.height + 1 > maxHeight - CUT_OFF_AGE` |
| Chain.AcceptedBlock | HWK2/HW2/src/BlockChain.java:141-159 | on acceptance the node sits under the block's hash at the parent's height plus one; its pool is the parent's pool after the block's transactions in acceptance order, plus the coinbase outputs; every block transaction left the pending pool; the best node moved exactly on a strictly greater height |
| Chain.RetainedNodes | HWK2/HW2/src/BlockChain.java:148-174 | on acceptance, no hash other than the block's is added, and every other node, the parent's included, stays unchanged exactly when it is within NUM_RECENT_NODE of the new max height |
| Chain.FirstSeenWins | HWK2/HW2/src/BlockChain.java:156-159 | a new node at the best height does not replace the best node |
| Chain.AddBlockKeepsWindow | HWK2/HW2/src/BlockChain.java:160-174 | after every addBlock, max height minus oldest height is at most NUM_RECENT_NODE, and no retained node lies more than NUM_RECENT_NODE below the max height |
| Chain.AddBlockHeights | HWK2/HW2/src/BlockChain.java:156-174 | the max height never falls and rises by at most one; the oldest height never falls, and when it moves it is exactly max height minus NUM_RECENT_NODE |
| Chain.ExtendBest | HWK2/HW2/src/BlockChain.java:112-174 | an empty block on the best node is accepted and becomes the best node one level higher; the oldest height advances exactly when the window is exceeded |
| Chain.EmptyBlockRule | HWK2/HW2/src/BlockChain.java:100-108 | an empty block on a known parent is accepted exactly when `parent.height + 1 > maxHeight - CUT_OFF_AGE`; on the genesis node, exactly while the max height is at most CUT_OFF_AGE + 1 |
| Chain.RemoveTxsEffect | HWK2/HW2/src/BlockChain.java:152-155 | a pending transaction stays exactly when no transaction of the block has its hash |
| Chain.AddCoinbase | HWK2/HW2/src/BlockChain.java:141-147 | the pool afterwards is the pool before with `(coinbaseHash, i)` mapped to coinbase output i |
| Chain.RemoveAll | HWK2/HW2/src/BlockChain.java:152-155 | the pending pool keeps exactly the hashes that no transaction of the block has |
| Chain.PruneNodes | HWK2/HW2/src/BlockChain.java:160-170 | the kept map holds exactly the nodes within NUM_RECENT_NODE of the max height, unchanged |
| Chain.PruneViews | HWK2/HW2/src/BlockChain.java:160-170 | pruning the node objects agrees with pruning their values |
| Chain.BlockChain.AttachNode | HWK2/HW2/src/BlockChain.java:148-174 | node registration, pending-pool purge, best-node update and pruning produce exactly `Attach` of the old state |
| Chain.BlockChain.AcceptBlock | HWK2/HW2/src/BlockChain.java:141-174 | for a block judged acceptable, adding the coinbase outputs to the handler's pool and attaching the new node yields exactly `Extend` of the old state, and the window invariant is kept |
| Chain.BlockChain.RegisterNode | HWK2/HW2/src/BlockChain.java:148-151 | the node map gains the new node under its block's hash; nothing else changes |
| Chain.BlockChain.UpdateBest | HWK2/HW2/src/BlockChain.java:152-159 | the block's transactions leave the pending pool, and the best node becomes the new node exactly when it is strictly higher |
| Chain.ViewNodesUpdate | HWK2/HW2/src/BlockChain.java:148-151 | registering a node object and then taking values agrees with registering its value |
| Chain.BlockChain.EvictOld | HWK2/HW2/src/BlockChain.java:160-174 | when the window is exceeded, the out-of-window nodes are evicted and the oldest height becomes max height minus NUM_RECENT_NODE; otherwise nothing changes |
| Chain.BlockChain.AddTransaction | HWK2/HW2/src/BlockChain.java:180-184 | the transaction is inserted into the pending pool under its hash, with no validation; nothing else changes |
| Scenarios.CopyIsIndependent | HWK1/HWK1/src/UTXOPool.java:27-30 | removing an entry from a copy leaves the original holding it |
| Scenarios.HandleOnCopy | HWK1/HWK1/src/TxHandler.java:14-18 | handleTxs through a handler leaves the caller's pool unchanged |
| Scenarios.ValidTxInPool | HWK1/HWK1/test/TxHandlerTest.java:58-98 | a transaction claiming a missing output is invalid, and valid once the output is added |
| Scenarios.SignedSpend | HWK1/HWK1/src/TxHandler.java:52-58 | a spend of a 10-coin output is valid exactly when its signature verifies against the output's owner |
| Scenarios.ValidTxDoubleSpend | HWK1/HWK1/test/TxHandlerTest.java:163-202 | two inputs claiming one UTXO make the transaction invalid, whatever the signatures |
| Scenarios.ValidOutputPos | HWK1/HWK1/test/TxHandlerTest.java:210-239 | a negative output makes the transaction invalid |
| Scenarios.ValidSumValue | HWK1/HWK1/test/TxHandlerTest.java:250-286 | inputs of 10 + 10 cannot pay outputs of 15 + 10 |
| Scenarios.BatchOutcome | HWK1/HWK1/test/TxHandlerTest.java:290-384 | on the test's batch of five, the fixpoint accepts candidates 0, 4 and 3, in that order |
| Scenarios.DuplicateAccepted | HWK1/HWK1/src/TxHandler.java:129-157 | a batch holding two copies of a transaction that claims and pays nothing has both accepted, so the result lists that transaction twice |
| Scenarios.HandleTxsBatch | HWK1/HWK1/test/TxHandlerTest.java:373-384 | handleTxs on the test's pool and batch returns three transactions: TxC2BD, TxE2B, TxB2DE |
| Scenarios.NullParent | HWK2/HW2/test/BlockHandlerTest.java:30-43 | the genesis block itself is refused, and an empty block on it is accepted |
| Scenarios.NullParentNode | HWK2/HW2/test/BlockHandlerTest.java:50-66 | a block whose parent hash names no node is refused |
| Scenarios.ProcessTx | HWK2/HW2/test/BlockHandlerTest.java:74-98 | the pending pool holds 0 transactions before addTransaction and 1 after |
| Scenarios.InvalidTxsBlock | HWK2/HW2/test/BlockHandlerTest.java:106-132 | a block spending the 25-coin reward on 15 + 20 is refused |
| Scenarios.ExtendTip | HWK2/HW2/test/BlockHandlerTest.java:172-187 | an empty block on the best block is accepted, becomes the best node one level higher, and every other node within NUM_RECENT_NODE levels stays |
| Scenarios.MaxHeightBlock | HWK2/HW2/test/BlockHandlerTest.java:141-160 | with max height 14, a block on the height-2 node is refused |
| Scenarios.Memory | HWK2/HW2/test/BlockHandlerTest.java:172-187 | after twenty empty blocks on the best block, the oldest retained height is 5 |

## Left out

- Signature cryptography from `Crypto.verifySignature` and the payload `getRawDataToSign` is not modelled. Both are uninterpreted function values of the `Crypto` datatype, fixed when a handler or chain is built; the RSA key handling in the tests is left out as well.
- Transaction, Block, UTXO, ByteArrayWrapper, TransactionPool and BlockHandler are not part of this model. Transactions and blocks are datatypes carrying their hash as a field, so two different transactions may share a hash, as real hashes could. UTXOs compare by value, and the pending pool is a map from hash to transaction.
- Amounts are Java `double`, here unbounded integers: fractions, rounding and overflow in the sums are not modelled, nor NaN and infinite values. With a NaN output both `op.value < 0` (TxHandler.java:75) and `valueSumInputs < valueSumOutputs` (TxHandler.java:84) are false, so the source accepts such a transaction; the model has no such value.
- Console output is diagnostics only and is left out.
- Iteration order of the Java HashMap is not modelled. This affects `getAllUTXO` (its result is specified up to order) and the pruning iterator (each key is visited once, in an unspecified order).
- The `childrenNodes` list of a node is written but never read, and is not modelled.
- Mining (`BlockHandler.createBlock`) is left out. The scenarios build blocks directly with caller-chosen hashes, on the best block where the test mines.
- Chain.BlockChain.GetTransactionPool: returns the pending pool as a map value. The source returns the chain's live `TransactionPool` object, so a caller's later add or remove would change the chain's pool; that sharing is lost. `getMaxHeightUTXOPool` does return the best node's own pool object (`Chain.BlockChain.GetMaxHeightUTXOPool`).
