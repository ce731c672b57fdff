/**
  The repository's unit tests, as client code of the model with proved outcomes.
  Blocks are built directly (a hash, a parent hash, a coinbase and transactions)
  instead of being mined; the signature scheme is an abstract parameter, or, where
  a test relies on correctly signed inputs, one under which every signature verifies.
 */
module Scenarios {
  import opened Transactions
  import opened Pool
  import opened Handler
  import opened Chain

  /** A signature scheme under which every signature verifies. */
  const AllSigned := Crypto((key: PublicKey, message: Bytes, signature: Bytes) => true,
                            (tx: Transaction, index: nat) => [])

  /** A block with no transactions besides its coinbase. */
  function EmptyBlock(hash: Bytes, parent: Bytes, coinbase: Transaction): (b: Block)
    ensures b.hash == hash && b.prevBlockHash == Some(parent) && b.transactions == []
  {
    Block(hash, Some(parent), coinbase, [])
  }

  // ---------------------------------------------------------------------------
  // Transaction handler
  // ---------------------------------------------------------------------------

  const KeyB: PublicKey := [0x0B]
  const KeyC: PublicKey := [0x0C]
  const KeyD: PublicKey := [0x0D]
  const KeyE: PublicKey := [0x0E]

  /** The two funding transactions, whose outputs start in the pool. */
  const TxA2BC := Transaction([1], [], [Output(10, KeyB), Output(10, KeyC)])
  const TxA2DE := Transaction([2], [], [Output(30, KeyD), Output(30, KeyE)])

  /** Valid: spends C's 10 on 7 + 3. */
  const TxC2BD := Transaction([3], [Input([1], 1, [])], [Output(7, KeyB), Output(3, KeyD)])
  /** Double spend of the output TxC2BD spends. */
  const TxC2E := Transaction([4], [Input([1], 1, [])], [Output(10, KeyE)])
  /** Spends D's 30 on 20 + 20. */
  const TxD2BE := Transaction([5], [Input([2], 0, [])], [Output(20, KeyB), Output(20, KeyE)])
  /** Valid: spends E's 30. */
  const TxE2B := Transaction([6], [Input([2], 1, [])], [Output(30, KeyB)])
  /** Valid once TxE2B, which comes after it in the batch, has been accepted. */
  const TxB2DE := Transaction([7], [Input([6], 0, [])], [Output(15, KeyD), Output(15, KeyE)])

  const Batch := [TxC2BD, TxC2E, TxD2BE, TxB2DE, TxE2B]

  /** The pool holding the four outputs of the funding transactions. */
  const Funded: Ledger := map[][UTXO([1], 0) := Output(10, KeyB)][UTXO([1], 1) := Output(10, KeyC)]
                              [UTXO([2], 0) := Output(30, KeyD)][UTXO([2], 1) := Output(30, KeyE)]

  /** With every signature good, a one-input transaction is valid exactly when its claim
      is present, no output is negative and the claimed value covers the outputs. */
  lemma OneInputValid(ledger: Ledger, tx: Transaction)
    requires |tx.inputs| == 1
    ensures ValidTx(ledger, tx, AllSigned) <==>
              ClaimOf(tx.inputs[0]) in ledger && OutputsNonNegative(tx)
              && ledger[ClaimOf(tx.inputs[0])].value >= OutputSum(tx.outputs)
  {
    if ClaimOf(tx.inputs[0]) in ledger {
      assert tx.inputs[..0] == [];
      assert InputSum(ledger, tx.inputs) == InputSum(ledger, []) + ledger[ClaimOf(tx.inputs[0])].value;
    }
  }

  /** The total of two outputs. */
  lemma OutputSumTwo(a: Output, b: Output)
    ensures OutputSum([a, b]) == a.value + b.value
  {
    assert [a][..0] == [];
    assert OutputSum([a]) == a.value;
    assert [a, b][..1] == [a];
  }

  const SpentC := UTXO([1], 1)
  const FundD := UTXO([2], 0)
  const FundE := UTXO([2], 1)
  const FromE := UTXO([6], 0)

  /** The pool after TxC2BD, after TxE2B and after TxB2DE. */
  const Ledger1 := ApplyTx(Funded, TxC2BD)
  const Ledger2 := ApplyTx(Ledger1, TxE2B)
  const Ledger3 := ApplyTx(Ledger2, TxB2DE)

  lemma LedgerFacts()
    ensures SpentC !in Ledger1 && SpentC !in Ledger2 && SpentC !in Ledger3
    ensures FundD in Ledger1 && Ledger1[FundD].value == 30 && FundD in Ledger2 && Ledger2[FundD].value == 30
            && FundD in Ledger3 && Ledger3[FundD].value == 30
    ensures FundE in Ledger1 && Ledger1[FundE].value == 30
    ensures FromE !in Ledger1 && FromE in Ledger2 && Ledger2[FromE].value == 30
  {
    assert Claims(TxC2BD.inputs) == [SpentC];
    assert Claims(TxE2B.inputs) == [FundE];
    assert Claims(TxB2DE.inputs) == [FromE];
    ApplyTxEffect(Funded, TxC2BD, SpentC);
    ApplyTxEffect(Funded, TxC2BD, FundD);
    ApplyTxEffect(Funded, TxC2BD, FundE);
    ApplyTxEffect(Funded, TxC2BD, FromE);
    ApplyTxEffect(Ledger1, TxE2B, SpentC);
    ApplyTxEffect(Ledger1, TxE2B, FundD);
    assert Produces(TxE2B, FromE);
    ApplyTxEffect(Ledger1, TxE2B, FromE);
    ApplyTxEffect(Ledger2, TxB2DE, SpentC);
    ApplyTxEffect(Ledger2, TxB2DE, FundD);
  }

  lemma OutputTotals()
    ensures OutputSum(TxC2BD.outputs) == 10 && OutputSum(TxC2E.outputs) == 10
    ensures OutputSum(TxD2BE.outputs) == 40 && OutputSum(TxE2B.outputs) == 30
    ensures OutputSum(TxB2DE.outputs) == 30
    ensures OutputsNonNegative(TxC2BD) && OutputsNonNegative(TxE2B) && OutputsNonNegative(TxB2DE)
  {
    OutputSumTwo(Output(7, KeyB), Output(3, KeyD));
    OutputSumTwo(Output(20, KeyB), Output(20, KeyE));
    OutputSumTwo(Output(15, KeyD), Output(15, KeyE));
    assert [Output(30, KeyB)][..0] == [];
    assert [Output(10, KeyE)][..0] == [];
  }

  /** The first pass accepts TxC2BD and TxE2B. */
  lemma FirstPass()
    ensures PassFrom(Funded, Batch, [], 0, AllSigned) == Progress(Ledger2, [0, 4])
  {
    var c := AllSigned;
    LedgerFacts();
    OutputTotals();
    OneInputValid(Funded, TxC2BD);
    OneInputValid(Ledger1, TxC2E);
    OneInputValid(Ledger1, TxD2BE);
    OneInputValid(Ledger1, TxB2DE);
    OneInputValid(Ledger1, TxE2B);
    assert PassFrom(Ledger2, Batch, [0, 4], 5, c) == Progress(Ledger2, [0, 4]);
    assert PassFrom(Ledger1, Batch, [0], 4, c) == Progress(Ledger2, [0, 4]);
    assert PassFrom(Ledger1, Batch, [0], 3, c) == Progress(Ledger2, [0, 4]);
    assert PassFrom(Ledger1, Batch, [0], 2, c) == Progress(Ledger2, [0, 4]);
    assert PassFrom(Ledger1, Batch, [0], 1, c) == Progress(Ledger2, [0, 4]);
    var none: seq<nat> := [];
    assert Batch[0] == TxC2BD && none + [0] == [0];
  }

  /** The second pass accepts TxB2DE, whose input TxE2B produced. */
  lemma SecondPass()
    ensures PassFrom(Ledger2, Batch, [0, 4], 0, AllSigned) == Progress(Ledger3, [0, 4, 3])
  {
    var c := AllSigned;
    LedgerFacts();
    OutputTotals();
    OneInputValid(Ledger2, TxC2E);
    OneInputValid(Ledger2, TxD2BE);
    OneInputValid(Ledger2, TxB2DE);
    assert PassFrom(Ledger3, Batch, [0, 4, 3], 4, c) == Progress(Ledger3, [0, 4, 3]);
    assert Batch[3] == TxB2DE && [0, 4] + [3] == [0, 4, 3];
    assert PassFrom(Ledger2, Batch, [0, 4], 3, c) == Progress(Ledger3, [0, 4, 3]);
    assert PassFrom(Ledger2, Batch, [0, 4], 2, c) == Progress(Ledger3, [0, 4, 3]);
    assert PassFrom(Ledger2, Batch, [0, 4], 1, c) == Progress(Ledger3, [0, 4, 3]);
  }

  /** The third pass accepts nothing. */
  lemma ThirdPass()
    ensures PassFrom(Ledger3, Batch, [0, 4, 3], 0, AllSigned) == Progress(Ledger3, [0, 4, 3])
  {
    var c := AllSigned;
    LedgerFacts();
    OutputTotals();
    OneInputValid(Ledger3, TxC2E);
    OneInputValid(Ledger3, TxD2BE);
    assert PassFrom(Ledger3, Batch, [0, 4, 3], 5, c) == Progress(Ledger3, [0, 4, 3]);
    assert PassFrom(Ledger3, Batch, [0, 4, 3], 4, c) == Progress(Ledger3, [0, 4, 3]);
    assert PassFrom(Ledger3, Batch, [0, 4, 3], 3, c) == Progress(Ledger3, [0, 4, 3]);
    assert PassFrom(Ledger3, Batch, [0, 4, 3], 2, c) == Progress(Ledger3, [0, 4, 3]);
    assert PassFrom(Ledger3, Batch, [0, 4, 3], 1, c) == Progress(Ledger3, [0, 4, 3]);
  }

  /** handleTxs on the batch accepts TxC2BD and TxE2B in the first pass and TxB2DE in
      the second, and refuses the double spend and the overspend. */
  lemma BatchOutcome()
    ensures Fixpoint(Funded, Batch, AllSigned).indexValid == [0, 4, 3]
  {
    FirstPass();
    SecondPass();
    ThirdPass();
    assert Rounds(Ledger3, Batch, [0, 4, 3], AllSigned) == Progress(Ledger3, [0, 4, 3]);
    assert Rounds(Ledger2, Batch, [0, 4], AllSigned) == Progress(Ledger3, [0, 4, 3]);
  }

  /** A transaction that claims nothing and pays nothing. */
  const TxEmpty := Transaction([8], [], [])

  /** The accepted indices are distinct, but the accepted transactions need not be: a
      transaction that claims no output is valid against every pool, so both copies of
      it in a batch are accepted, and handleTxs returns it twice. */
  lemma DuplicateAccepted(crypto: Crypto)
    ensures Fixpoint(map[], [TxEmpty, TxEmpty], crypto).indexValid == [0, 1]
    ensures Select([TxEmpty, TxEmpty], [0, 1]) == [TxEmpty, TxEmpty]
  {
    var txs := [TxEmpty, TxEmpty];
    var none: seq<nat> := [];
    assert ValidTx(map[], TxEmpty, crypto);
    assert ApplyTx(map[], TxEmpty) == map[];
    assert none + [0] == [0] && [0] + [1] == [0, 1];
    assert PassFrom(map[], txs, [0, 1], 2, crypto) == Progress(map[], [0, 1]);
    assert PassFrom(map[], txs, [0], 1, crypto) == Progress(map[], [0, 1]);
    assert PassFrom(map[], txs, [], 0, crypto) == Progress(map[], [0, 1]);
    assert PassFrom(map[], txs, [0, 1], 1, crypto) == Progress(map[], [0, 1]);
    assert PassFrom(map[], txs, [0, 1], 0, crypto) == Progress(map[], [0, 1]);
    assert Rounds(map[], txs, [0, 1], crypto) == Progress(map[], [0, 1]);
  }

  /** The test's pool and batch: handleTxs returns three transactions, in the order
      TxC2BD, TxE2B, TxB2DE. */
  method HandleTxsBatch() returns (validTxs: seq<Transaction>)
    ensures validTxs == [TxC2BD, TxE2B, TxB2DE]
  {
    var pool := new UTXOPool();
    pool.AddUTXO(UTXO(TxA2BC.hash, 0), TxA2BC.outputs[0]);
    pool.AddUTXO(UTXO(TxA2BC.hash, 1), TxA2BC.outputs[1]);
    pool.AddUTXO(UTXO(TxA2DE.hash, 0), TxA2DE.outputs[0]);
    pool.AddUTXO(UTXO(TxA2DE.hash, 1), TxA2DE.outputs[1]);
    assert pool.H == Funded;
    var handler := new TxHandler(pool, AllSigned);
    BatchOutcome();
    validTxs := handler.HandleTxs(Batch);
  }

  /** Removing an entry from a copy leaves the original pool holding it. */
  method CopyIsIndependent(u: UTXO, o: Output) returns (inOriginal: bool, inCopy: bool)
    ensures inOriginal && !inCopy
  {
    var original := new UTXOPool();
    original.AddUTXO(u, o);
    var copy := new UTXOPool.Copy(original);
    copy.RemoveUTXO(u);
    inOriginal := original.Contains(u);
    inCopy := copy.Contains(u);
  }

  /** handleTxs works on the handler's own copy: the caller's pool is left as it was,
      and the result is the fixpoint of the batch against the caller's pool. */
  method HandleOnCopy(pool: UTXOPool, possibleTxs: seq<Transaction>, crypto: Crypto)
    returns (validTxs: seq<Transaction>)
    ensures pool.H == old(pool.H)
    ensures var r := Fixpoint(pool.H, possibleTxs, crypto);
            IndicesOk(r.indexValid, |possibleTxs|) && validTxs == Select(possibleTxs, r.indexValid)
  {
    var handler := new TxHandler(pool, crypto);
    validTxs := handler.HandleTxs(possibleTxs);
  }

  /** A transaction spending a 10-coin output of keyB on 10 coins for keyC is valid
      exactly when its signature verifies against keyB over the payload for input 0. */
  method SignedSpend(crypto: Crypto, signature: Bytes) returns (valid: bool)
    ensures var t1 := Transaction([2], [Input([1], 0, signature)], [Output(10, KeyC)]);
            valid <==> crypto.verifySignature(KeyB, crypto.rawDataToSign(t1, 0), signature)
  {
    var pool := new UTXOPool();
    pool.AddUTXO(UTXO([1], 0), Output(10, KeyB));
    var handler := new TxHandler(pool, crypto);
    var t1 := Transaction([2], [Input([1], 0, signature)], [Output(10, KeyC)]);
    assert t1.inputs[..0] == [] && t1.outputs[..0] == [];
    assert ClaimOf(t1.inputs[0]) in pool.H && pool.H[ClaimOf(t1.inputs[0])].value == 10;
    assert InputSum(pool.H, t1.inputs) == 10;
    assert OutputSum(t1.outputs) == 10;
    valid := handler.IsValidTx(t1);
  }

  /** A transaction claiming an output missing from the pool is invalid, and becomes
      valid once that output is added (to a handler built on the updated pool). */
  method ValidTxInPool() returns (before: bool, after: bool)
    ensures !before && after
  {
    var txB2CD := Transaction([2], [Input([1], 0, [])], [Output(5, KeyC), Output(3, KeyD)]);
    var pool := new UTXOPool();
    var handler := new TxHandler(pool, AllSigned);
    before := handler.IsValidTx(txB2CD);
    pool.AddUTXO(UTXO([1], 0), Output(10, KeyB));
    var handlerNew := new TxHandler(pool, AllSigned);
    OneInputValid(pool.H, txB2CD);
    OutputSumTwo(Output(5, KeyC), Output(3, KeyD));
    after := handlerNew.IsValidTx(txB2CD);
  }

  /** Two inputs claiming the same output make a transaction invalid, whatever the signatures. */
  method ValidTxDoubleSpend(crypto: Crypto) returns (valid: bool)
    ensures !valid
  {
    var pool := new UTXOPool();
    pool.AddUTXO(UTXO([1], 0), Output(10, KeyB));
    var handler := new TxHandler(pool, crypto);
    var txB2CD := Transaction([2], [Input([1], 0, []), Input([1], 0, [])], [Output(10, KeyC), Output(10, KeyD)]);
    assert ClaimOf(txB2CD.inputs[0]) == ClaimOf(txB2CD.inputs[1]);
    valid := handler.IsValidTx(txB2CD);
  }

  /** A negative output makes a transaction invalid, whatever the signatures. */
  method ValidOutputPos(crypto: Crypto) returns (valid: bool)
    ensures !valid
  {
    var pool := new UTXOPool();
    pool.AddUTXO(UTXO([1], 0), Output(10, KeyB));
    var handler := new TxHandler(pool, crypto);
    var txB2CD := Transaction([2], [Input([1], 0, [])], [Output(8, KeyC), Output(-2, KeyD)]);
    assert txB2CD.outputs[1].value < 0;
    valid := handler.IsValidTx(txB2CD);
  }

  /** Inputs worth 10 + 10 cannot pay outputs of 15 + 10, whatever the signatures. */
  method ValidSumValue(crypto: Crypto) returns (valid: bool)
    ensures !valid
  {
    var pool := new UTXOPool();
    pool.AddUTXO(UTXO([1], 0), Output(10, KeyB));
    pool.AddUTXO(UTXO([1], 1), Output(10, KeyC));
    var handler := new TxHandler(pool, crypto);
    var txBC2DE := Transaction([2], [Input([1], 0, []), Input([1], 1, [])], [Output(15, KeyD), Output(10, KeyE)]);
    assert txBC2DE.inputs[..1][..0] == [] && txBC2DE.inputs[..1] == [txBC2DE.inputs[0]];
    assert InputSum(pool.H, txBC2DE.inputs[..1]) == 10;
    assert InputSum(pool.H, txBC2DE.inputs) == 20;
    OutputSumTwo(Output(15, KeyD), Output(10, KeyE));
    valid := handler.IsValidTx(txBC2DE);
  }

  // ---------------------------------------------------------------------------
  // Block chain
  // ---------------------------------------------------------------------------

  /** A block without a parent hash (such as the genesis block itself) is refused; an
      empty block on the genesis block is accepted. */
  method NullParent(genesisBlock: Block, blockB: Block, crypto: Crypto) returns (first: bool, second: bool)
    requires genesisBlock.prevBlockHash.None?
    requires blockB.prevBlockHash == Some(genesisBlock.hash) && blockB.transactions == []
    ensures !first && second
  {
    var chain := new BlockChain(genesisBlock, crypto);
    first := chain.AddBlock(genesisBlock);
    ExtendBest(chain.Abstract(), blockB, crypto);
    second := chain.AddBlock(blockB);
  }

  /** A block whose parent hash names no node is refused. */
  method NullParentNode(genesisBlock: Block, blockB: Block, crypto: Crypto) returns (ok: bool)
    requires blockB.prevBlockHash.Some? && blockB.prevBlockHash.value != genesisBlock.hash
    ensures !ok
  {
    var chain := new BlockChain(genesisBlock, crypto);
    ok := chain.AddBlock(blockB);
  }

  /** The pending pool starts empty and holds one transaction after addTransaction. */
  method ProcessTx(genesisBlock: Block, tx: Transaction, crypto: Crypto) returns (before: int, after: int)
    ensures before == 0 && after == 1
  {
    var chain := new BlockChain(genesisBlock, crypto);
    var pool := chain.GetTransactionPool();
    before := |pool|;
    chain.AddTransaction(tx);
    pool := chain.GetTransactionPool();
    after := |pool.Keys|;
  }

  /** A block whose only transaction spends the 25-coin genesis reward on outputs of
      15 and 20 is refused, whatever the signatures. */
  method InvalidTxsBlock(genesisHash: Bytes, coinbaseHash: Bytes, keyA: PublicKey, keyB: PublicKey,
                         keyC: PublicKey, txHash: Bytes, signature: Bytes, blockB: Block, crypto: Crypto)
    returns (ok: bool)
    requires blockB.prevBlockHash == Some(genesisHash)
    requires blockB.transactions ==
               [Transaction(txHash, [Input(coinbaseHash, 0, signature)], [Output(15, keyB), Output(20, keyC)])]
    ensures !ok
  {
    var coinbase := Transaction(coinbaseHash, [], [Output(25, keyA)]);
    var genesisBlock := Block(genesisHash, None, coinbase, []);
    var chain := new BlockChain(genesisBlock, crypto);
    ghost var s := chain.Abstract();
    ghost var pool := s.nodes[genesisHash].ledger;
    assert pool == AddOutputs(map[], coinbaseHash, [Output(25, keyA)]);
    assert [Output(25, keyA)][..0] == [];
    assert AddOutputs(map[], coinbaseHash, []) == map[];
    assert pool == map[UTXO(coinbaseHash, 0) := Output(25, keyA)];
    var tx := blockB.transactions[0];
    assert InputSum(pool, tx.inputs) == InputSum(pool, []) + 25;
    assert OutputSum(tx.outputs) == OutputSum(tx.outputs[..1]) + 20;
    assert tx.inputs[..0] == [] && tx.outputs[..1][..0] == [];
    assert OutputSum(tx.outputs[..1]) == 15;
    assert OutputSum(tx.outputs) == 35;
    assert !ValidTx(pool, tx, crypto);
    assert PassFrom(pool, [tx], [], 0, crypto) == Progress(pool, []);
    assert Fixpoint(pool, [tx], crypto).indexValid == [];
    ok := chain.AddBlock(blockB);
  }

  /** The best node of s is registered under its own block's hash. */
  ghost predicate BestRegistered(s: ChainState)
  {
    s.maxNode.block.hash in s.nodes && s.nodes[s.maxNode.block.hash] == s.maxNode
  }

  /** Adds an empty block on top of the best block: it is accepted, the max height
      grows by one, and every other node within NUM_RECENT_NODE levels stays. */
  method ExtendTip(chain: BlockChain, hash: Bytes, coinbase: Transaction) returns (ok: bool)
    requires chain.Valid() && BestRegistered(chain.Abstract())
    modifies chain
    ensures chain.Valid() && BestRegistered(chain.Abstract()) && ok
    ensures var s, s' := old(chain.Abstract()), chain.Abstract();
            && s'.maxNode.height == s.maxNode.height + 1 && s'.maxNode.block.hash == hash
            && s'.oldest == (if s.maxNode.height + 1 - s.oldest > NUM_RECENT_NODE
                             then s.maxNode.height + 1 - NUM_RECENT_NODE else s.oldest)
            && forall h :: h in s.nodes && h != hash && s'.maxNode.height - s.nodes[h].height <= NUM_RECENT_NODE
                 ==> h in s'.nodes && s'.nodes[h] == s.nodes[h]
  {
    var tip := chain.GetMaxHeightBlock();
    var block := EmptyBlock(hash, tip.hash, coinbase);
    ExtendBest(chain.Abstract(), block, chain.crypto);
    RetainedNodes(chain.Abstract(), block, chain.crypto);
    ok := chain.AddBlock(block);
  }

  /** With blocks of heights 2 to 14 on the genesis block, a block on the height-2 node
      is refused: its height 3 is not above 14 - CUT_OFF_AGE. */
  method MaxHeightBlock(genesisBlock: Block, block1Hash: Bytes, hashes: seq<Bytes>, block2Hash: Bytes,
                        coinbase: Transaction, crypto: Crypto) returns (ok: bool)
    requires |hashes| == 12 && block1Hash != genesisBlock.hash
    requires forall i :: 0 <= i < |hashes| ==> hashes[i] != block1Hash
    ensures !ok
  {
    var chain := new BlockChain(genesisBlock, crypto);
    var ok1 := ExtendTip(chain, block1Hash, coinbase);
    for i := 0 to |hashes|
      invariant chain.Valid() && BestRegistered(chain.Abstract())
      invariant var s := chain.Abstract();
                && s.maxNode.height == i + 2
                && block1Hash in s.nodes && s.nodes[block1Hash].height == 2
    {
      ok1 := ExtendTip(chain, hashes[i], coinbase);
    }
    var block2 := EmptyBlock(block2Hash, block1Hash, coinbase);
    EmptyBlockRule(chain.Abstract(), block2, crypto);
    ok := chain.AddBlock(block2);
  }

  /** After twenty empty blocks on the best block, 21 blocks in all, the oldest retained
      height is 21 - NUM_RECENT_NODE = 5. */
  method Memory(genesisBlock: Block, hashes: seq<Bytes>, coinbase: Transaction, crypto: Crypto)
    returns (oldest: int)
    requires |hashes| == 20
    ensures oldest == 5
  {
    var chain := new BlockChain(genesisBlock, crypto);
    for i := 0 to |hashes|
      invariant chain.Valid() && BestRegistered(chain.Abstract())
      invariant var s := chain.Abstract();
                && s.maxNode.height == i + 1
                && s.oldest == (if i + 1 > NUM_RECENT_NODE + 1 then i + 1 - NUM_RECENT_NODE else 1)
    {
      var ok := ExtendTip(chain, hashes[i], coinbase);
    }
    oldest := chain.GetOldestBlockHeight();
  }
}
