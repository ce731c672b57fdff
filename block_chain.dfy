/**
  The block tree manager: a hash-keyed map of block nodes, each with its own UTXO
  pool, the max-height node, the oldest retained height and the pending
  transaction pool.

  ChainState and AddBlockSpec below are the value-level specification; class
  BlockChain holds the source's fields and loops and is proved against them.
 */
module Chain {
  import opened Transactions
  import opened Pool
  import opened Handler

  /** A block may extend a node only if its height exceeds the max height minus this. */
  const CUT_OFF_AGE := 10
  /** Nodes more than this many levels below the max height are evicted. */
  const NUM_RECENT_NODE := 16

  // ---------------------------------------------------------------------------
  // Value-level specification
  // ---------------------------------------------------------------------------

  /** A node as a value: its block, height, parent's hash and the contents of its pool. */
  datatype NodeView = NodeView(block: Block, height: int, parent: Option<Bytes>, ledger: Ledger)

  /** The state of a BlockChain: the node map, the max-height node, the oldest
      retained height and the pending transaction pool (hash to transaction). */
  datatype ChainState = ChainState(nodes: map<Bytes, NodeView>, maxNode: NodeView, oldest: int,
                                   txPool: map<Bytes, Transaction>)

  /** Why addBlock rejects a block, in the order the source tests the conditions. */
  datatype Verdict = Accept | NoParent | UnknownParent | InvalidTransactions | TooOld

  /** The state after construction from a genesis block: one node of height 1 whose
      pool holds the coinbase outputs, and an empty transaction pool. */
  function GenesisState(genesisBlock: Block): (genesis: ChainState) {
    var cb := genesisBlock.coinbase;
    var node := NodeView(genesisBlock, 1, None, AddOutputs(map[], cb.hash, cb.outputs));
    ChainState(map[genesisBlock.hash := node], node, node.height, map[])
  }

  /** addBlock's tests, in the source's order. */
  function Judge(s: ChainState, block: Block, crypto: Crypto): (verdict: Verdict) {
    if block.prevBlockHash.None? then NoParent
    else if block.prevBlockHash.value !in s.nodes then UnknownParent
    else
      var parent := s.nodes[block.prevBlockHash.value];
      if |Fixpoint(parent.ledger, block.transactions, crypto).indexValid| < |block.transactions| then
        InvalidTransactions
      else if parent.height + 1 <= s.maxNode.height - CUT_OFF_AGE then TooOld
      else Accept
  }

  /** The pending pool with each of txs removed by hash. */
  function RemoveTxs(txPool: map<Bytes, Transaction>, txs: seq<Transaction>): (pending: map<Bytes, Transaction>) {
    if txs == [] then txPool else RemoveTxs(txPool, txs[..|txs| - 1]) - {txs[|txs| - 1].hash}
  }

  /** The nodes within NUM_RECENT_NODE levels of maxHeight. */
  function Prune(nodes: map<Bytes, NodeView>, maxHeight: int): (kept: map<Bytes, NodeView>) {
    map h | h in nodes && maxHeight - nodes[h].height <= NUM_RECENT_NODE :: nodes[h]
  }

  /** The new node for an accepted block: height one above its parent, and a pool that is
      the parent's with the block's transactions applied and the coinbase outputs added. */
  function NewNode(s: ChainState, block: Block, crypto: Crypto): (n: NodeView)
    requires Judge(s, block, crypto) == Accept
  {
    var parent := s.nodes[block.prevBlockHash.value];
    var handled := Fixpoint(parent.ledger, block.transactions, crypto).ledger;
    NodeView(block, parent.height + 1, Some(parent.block.hash),
             AddOutputs(handled, block.coinbase.hash, block.coinbase.outputs))
  }

  /** Once the max height is more than NUM_RECENT_NODE above the oldest retained
      height, the nodes further below the max height are evicted and the oldest
      retained height becomes exactly NUM_RECENT_NODE below the max height. */
  function Trim(s: ChainState): (t: ChainState) {
    if s.maxNode.height - s.oldest > NUM_RECENT_NODE then
      s.(nodes := Prune(s.nodes, s.maxNode.height), oldest := s.maxNode.height - NUM_RECENT_NODE)
    else
      s
  }

  /** The state after registering node: it is stored under its block's hash, the
      block's transactions leave the pending pool, the best node moves on a strictly
      greater height, and the tree is trimmed. */
  function Attach(s: ChainState, node: NodeView): (t: ChainState) {
    var maxNode := if node.height > s.maxNode.height then node else s.maxNode;
    Trim(ChainState(s.nodes[node.block.hash := node], maxNode, s.oldest,
                    RemoveTxs(s.txPool, node.block.transactions)))
  }

  /** The state after accepting block. */
  function Extend(s: ChainState, block: Block, crypto: Crypto): (t: ChainState)
    requires Judge(s, block, crypto) == Accept
  {
    Attach(s, NewNode(s, block, crypto))
  }

  /** addBlock: whether block is accepted, and the state afterwards. */
  function AddBlockSpec(s: ChainState, block: Block, crypto: Crypto): (r: (bool, ChainState)) {
    if Judge(s, block, crypto) == Accept then (true, Extend(s, block, crypto)) else (false, s)
  }

  /** addTransaction: insert into the pending pool, with no validation. */
  function AddTransactionSpec(s: ChainState, tx: Transaction): (t: ChainState) {
    s.(txPool := s.txPool[tx.hash := tx])
  }

  /** The invariant of the tree: every node is registered under its own block's hash
      and lies between the oldest retained height and the max height, and the max
      height is at most NUM_RECENT_NODE above the oldest retained height. */
  predicate ChainInv(s: ChainState) {
    && 1 <= s.oldest <= s.maxNode.height
    && s.maxNode.height - s.oldest <= NUM_RECENT_NODE
    && forall h :: h in s.nodes ==>
         s.nodes[h].block.hash == h && s.oldest <= s.nodes[h].height <= s.maxNode.height
  }

  // ---------------------------------------------------------------------------
  // Properties of the specification
  // ---------------------------------------------------------------------------

  /** The genesis node has height 1, is the best node and the oldest height, and its pool
      holds exactly the coinbase outputs (coinbaseHash, i). */
  lemma GenesisProperties(g: Block, u: UTXO)
    ensures var s := GenesisState(g);
            && ChainInv(s)
            && s.nodes.Keys == {g.hash} && s.maxNode == s.nodes[g.hash]
            && s.maxNode.height == 1 && s.oldest == 1 && s.txPool == map[]
            && (u in s.maxNode.ledger <==> u.txHash == g.coinbase.hash && 0 <= u.index < |g.coinbase.outputs|)
            && (u in s.maxNode.ledger ==> s.maxNode.ledger[u] == g.coinbase.outputs[u.index])
  {
    AddOutputsEffect(map[], g.coinbase.hash, g.coinbase.outputs, u);
  }

  /** A rejected block leaves the state exactly as it was. The rejections: no parent
      hash, a parent hash that resolves to no node, a batch of which handleTxs accepts
      fewer than all, and a parent with parent.height + 1 <= maxHeight - CUT_OFF_AGE. */
  lemma RejectionCases(s: ChainState, block: Block, crypto: Crypto)
    ensures !AddBlockSpec(s, block, crypto).0 ==> AddBlockSpec(s, block, crypto).1 == s
    ensures block.prevBlockHash.None? ==> !AddBlockSpec(s, block, crypto).0
    ensures block.prevBlockHash.Some? && block.prevBlockHash.value !in s.nodes ==>
              !AddBlockSpec(s, block, crypto).0
    ensures block.prevBlockHash.Some? && block.prevBlockHash.value in s.nodes ==>
              var parent := s.nodes[block.prevBlockHash.value];
              (AddBlockSpec(s, block, crypto).0 <==>
                 |Fixpoint(parent.ledger, block.transactions, crypto).indexValid| == |block.transactions|
                 && parent.height + 1 > s.maxNode.height - CUT_OFF_AGE)
  {
    if block.prevBlockHash.Some? && block.prevBlockHash.value in s.nodes {
      var parent := s.nodes[block.prevBlockHash.value];
      FixpointCorrect(parent.ledger, block.transactions, crypto);
      SelectLength(block.transactions, Fixpoint(parent.ledger, block.transactions, crypto).indexValid);
    }
  }

  /** On acceptance the new node sits one above its parent under the block's hash, its
      pool is the parent's pool after the block's transactions (in acceptance order)
      plus the coinbase outputs, every transaction of the block left the pending pool,
      and the best node moved exactly when the new height is strictly greater. */
  lemma AcceptedBlock(s: ChainState, block: Block, crypto: Crypto)
    requires ChainInv(s)
    requires AddBlockSpec(s, block, crypto).0
    ensures var s' := AddBlockSpec(s, block, crypto).1;
            var parent := s.nodes[block.prevBlockHash.value];
            var r := Fixpoint(parent.ledger, block.transactions, crypto);
            && block.hash in s'.nodes
            && s'.nodes[block.hash].height == parent.height + 1
            && s'.nodes[block.hash].parent == block.prevBlockHash
            && IndicesOk(r.indexValid, |block.transactions|)
            && |r.indexValid| == |block.transactions|
            && ValidSequence(parent.ledger, Select(block.transactions, r.indexValid), crypto)
            && s'.nodes[block.hash].ledger ==
                 AddOutputs(ApplyAll(parent.ledger, Select(block.transactions, r.indexValid)),
                            block.coinbase.hash, block.coinbase.outputs)
            && (forall t :: t in block.transactions ==> t.hash !in s'.txPool)
            && s'.maxNode == (if parent.height + 1 > s.maxNode.height then s'.nodes[block.hash] else s.maxNode)
  {
    var parent := s.nodes[block.prevBlockHash.value];
    FixpointCorrect(parent.ledger, block.transactions, crypto);
    SelectLength(block.transactions, Fixpoint(parent.ledger, block.transactions, crypto).indexValid);
    RemoveTxsEffect(s.txPool, block.transactions);
  }

  /** A hash stays in the pending pool exactly when no transaction of txs has it. */
  lemma {:induction false} RemoveTxsEffect(txPool: map<Bytes, Transaction>, txs: seq<Transaction>)
    ensures forall h :: h in RemoveTxs(txPool, txs) <==> h in txPool && forall t :: t in txs ==> t.hash != h
    ensures forall h :: h in RemoveTxs(txPool, txs) ==> RemoveTxs(txPool, txs)[h] == txPool[h]
  {
    if txs != [] {
      var prefix := txs[..|txs| - 1];
      RemoveTxsEffect(txPool, prefix);
      assert txs == prefix + [txs[|txs| - 1]];
    }
  }

  /** addBlock keeps the invariant; in particular after every call the max height is at
      most NUM_RECENT_NODE above the oldest height, and no retained node lies more than
      NUM_RECENT_NODE below the max height. */
  lemma AddBlockKeepsWindow(s: ChainState, block: Block, crypto: Crypto)
    requires ChainInv(s)
    ensures var s' := AddBlockSpec(s, block, crypto).1;
            && ChainInv(s')
            && s'.maxNode.height - s'.oldest <= NUM_RECENT_NODE
            && forall h :: h in s'.nodes ==> s'.maxNode.height - s'.nodes[h].height <= NUM_RECENT_NODE
  {
  }

  /** The max height never decreases and grows by at most one per accepted block, and the
      oldest height only moves forward, to exactly NUM_RECENT_NODE below the max height. */
  lemma AddBlockHeights(s: ChainState, block: Block, crypto: Crypto)
    requires ChainInv(s)
    ensures var s' := AddBlockSpec(s, block, crypto).1;
            && s.maxNode.height <= s'.maxNode.height <= s.maxNode.height + 1
            && s.oldest <= s'.oldest
            && (s'.oldest != s.oldest ==> s'.oldest == s'.maxNode.height - NUM_RECENT_NODE)
  {
  }

  /** At equal height the first-seen node stays best. */
  lemma FirstSeenWins(s: ChainState, block: Block, crypto: Crypto)
    requires AddBlockSpec(s, block, crypto).0
    requires s.nodes[block.prevBlockHash.value].height + 1 == s.maxNode.height
    ensures AddBlockSpec(s, block, crypto).1.maxNode == s.maxNode
  {
  }

  /** An empty block on the best node, registered under its own hash, is accepted and
      becomes the new best node, one higher. */
  lemma ExtendBest(s: ChainState, block: Block, crypto: Crypto)
    requires ChainInv(s)
    requires s.maxNode.block.hash in s.nodes && s.nodes[s.maxNode.block.hash] == s.maxNode
    requires block.prevBlockHash == Some(s.maxNode.block.hash) && block.transactions == []
    ensures var (ok, s') := AddBlockSpec(s, block, crypto);
            && ok
            && s'.maxNode.height == s.maxNode.height + 1
            && s'.maxNode.block == block
            && block.hash in s'.nodes && s'.nodes[block.hash] == s'.maxNode
            && s'.oldest == (if s.maxNode.height + 1 - s.oldest > NUM_RECENT_NODE
                             then s.maxNode.height + 1 - NUM_RECENT_NODE else s.oldest)
  {
    EmptyBatch(s.maxNode.ledger, crypto);
  }

  /** An empty block on a known parent is accepted exactly when its height,
      parent.height + 1, exceeds maxHeight - CUT_OFF_AGE. So a block at height 2 (on
      the genesis block) is accepted while the max height is at most CUT_OFF_AGE + 1,
      and refused from then on. */
  lemma EmptyBlockRule(s: ChainState, block: Block, crypto: Crypto)
    requires block.prevBlockHash.Some? && block.prevBlockHash.value in s.nodes && block.transactions == []
    ensures var parent := s.nodes[block.prevBlockHash.value];
            && (AddBlockSpec(s, block, crypto).0 <==> parent.height + 1 > s.maxNode.height - CUT_OFF_AGE)
            && (parent.height == 1 ==>
                  (AddBlockSpec(s, block, crypto).0 <==> s.maxNode.height <= CUT_OFF_AGE + 1))
  {
    EmptyBatch(s.nodes[block.prevBlockHash.value].ledger, crypto);
  }

  /** On acceptance, a node other than the one the block replaces stays, unchanged,
      exactly when it is within NUM_RECENT_NODE levels of the new max height, and no
      hash other than the block's is added. */
  lemma RetainedNodes(s: ChainState, block: Block, crypto: Crypto)
    requires ChainInv(s)
    requires AddBlockSpec(s, block, crypto).0
    ensures var s' := AddBlockSpec(s, block, crypto).1;
            && s'.nodes.Keys <= s.nodes.Keys + {block.hash}
            && forall h :: h in s.nodes && h != block.hash ==>
                 (h in s'.nodes <==> s'.maxNode.height - s.nodes[h].height <= NUM_RECENT_NODE)
                 && (h in s'.nodes ==> s'.nodes[h] == s.nodes[h])
  {
  }

  // ---------------------------------------------------------------------------
  // The block chain
  // ---------------------------------------------------------------------------

  /** A node of the tree. The source holds the parent as a reference, which is read
      only for its height; here it is the parent block's hash. The list of children
      the source also keeps is never read and is not modelled. */
  datatype BlockNode = BlockNode(block: Block, height: int, parent: Option<Bytes>, utxoPool: UTXOPool)

  /** The BlockNode constructor: height 1 without a parent, else the parent's height plus one. */
  function NewBlockNode(block: Block, parentNode: Option<BlockNode>, utxoPool: UTXOPool): (n: BlockNode)
    ensures n.block == block && n.utxoPool == utxoPool
    ensures parentNode.None? ==> n.height == 1 && n.parent.None?
    ensures parentNode.Some? ==> n.height == parentNode.value.height + 1
                                 && n.parent == Some(parentNode.value.block.hash)
  {
    match parentNode
    case None => BlockNode(block, 1, None, utxoPool)
    case Some(p) => BlockNode(block, p.height + 1, Some(p.block.hash), utxoPool)
  }

  /** A node as a value, with its pool's current contents. */
  ghost function View(n: BlockNode): (v: NodeView)
    reads n.utxoPool
  {
    NodeView(n.block, n.height, n.parent, n.utxoPool.H)
  }

  /** Adds every coinbase output (coinbase.hash, i) to pool. */
  method AddCoinbase(pool: UTXOPool, coinbase: Transaction)
    modifies pool
    ensures pool.H == AddOutputs(old(pool.H), coinbase.hash, coinbase.outputs)
  {
    ghost var start := pool.H;
    for i := 0 to |coinbase.outputs|
      invariant pool.H == AddOutputs(start, coinbase.hash, coinbase.outputs[..i])
    {
      assert coinbase.outputs[..i + 1][..i] == coinbase.outputs[..i];
      pool.AddUTXO(UTXO(coinbase.hash, i), coinbase.outputs[i]);
    }
    assert coinbase.outputs[..|coinbase.outputs|] == coinbase.outputs;
  }

  /** The pending pool with every transaction of txs removed by hash. */
  method RemoveAll(txPool: map<Bytes, Transaction>, txs: seq<Transaction>)
    returns (pending: map<Bytes, Transaction>)
    ensures pending == RemoveTxs(txPool, txs)
    ensures forall h :: h in pending <==> h in txPool && forall t :: t in txs ==> t.hash != h
  {
    pending := txPool;
    for i := 0 to |txs|
      invariant pending == RemoveTxs(txPool, txs[..i])
    {
      assert txs[..i + 1][..i] == txs[..i];
      pending := pending - {txs[i].hash};
    }
    assert txs[..|txs|] == txs;
    RemoveTxsEffect(txPool, txs);
  }

  /** The nodes of blockChain within NUM_RECENT_NODE levels of maxHeight, found by
      visiting every key once. */
  method PruneNodes(blockChain: map<Bytes, BlockNode>, maxHeight: int) returns (kept: map<Bytes, BlockNode>)
    ensures forall h :: h in kept <==> h in blockChain && maxHeight - blockChain[h].height <= NUM_RECENT_NODE
    ensures forall h :: h in kept ==> kept[h] == blockChain[h]
  {
    kept := blockChain;
    var keys := blockChain.Keys;
    while keys != {}
      invariant keys <= blockChain.Keys
      invariant forall h :: h in kept <==>
                  h in blockChain && (h in keys || maxHeight - blockChain[h].height <= NUM_RECENT_NODE)
      invariant forall h :: h in kept ==> kept[h] == blockChain[h]
      decreases keys
    {
      var h :| h in keys;
      if maxHeight - kept[h].height > NUM_RECENT_NODE {
        kept := kept - {h};
      }
      keys := keys - {h};
    }
  }

  /** The nodes of a node map as values. */
  ghost function ViewNodes(m: map<Bytes, BlockNode>): (views: map<Bytes, NodeView>)
    reads set h | h in m :: m[h].utxoPool
  {
    map h | h in m :: View(m[h])
  }

  /** Registering a node object and then viewing the map agrees with registering its view. */
  lemma ViewNodesUpdate(m: map<Bytes, BlockNode>, h: Bytes, n: BlockNode)
    ensures ViewNodes(m[h := n]) == ViewNodes(m)[h := View(n)]
  {
    var a := ViewNodes(m[h := n]);
    var b := ViewNodes(m)[h := View(n)];
    assert a.Keys == b.Keys;
    forall k | k in a ensures a[k] == b[k] {
      if k != h {
        assert a[k] == View(m[k]);
      }
    }
  }

  /** Pruning node objects and then viewing them agrees with pruning the views. */
  lemma PruneViews(m: map<Bytes, BlockNode>, maxHeight: int, kept: map<Bytes, BlockNode>)
    requires forall h :: h in kept <==> h in m && maxHeight - m[h].height <= NUM_RECENT_NODE
    requires forall h :: h in kept ==> kept[h] == m[h]
    ensures ViewNodes(kept) == Prune(ViewNodes(m), maxHeight)
  {
    var a := ViewNodes(kept);
    var b := Prune(ViewNodes(m), maxHeight);
    assert forall h :: h in a <==> h in b;
    assert forall h :: h in a ==> a[h] == b[h];
  }

  class BlockChain {
    var oldestBlockHeight: int
    var blockChain: map<Bytes, BlockNode>
    /** The pending transaction pool, keyed by transaction hash. */
    var txPool: map<Bytes, Transaction>
    var maxHeightNode: BlockNode
    const crypto: Crypto
    /** The pools of the nodes this chain has held. */
    ghost var Pools: set<UTXOPool>

    ghost predicate Owned()
      reads this
    {
      && (forall h :: h in blockChain ==> blockChain[h].utxoPool in Pools)
      && maxHeightNode.utxoPool in Pools
    }

    /** The chain's state as a value. */
    ghost function Abstract(): (a: ChainState)
      reads this, Pools
      requires Owned()
    {
      ChainState(ViewNodes(blockChain), View(maxHeightNode), oldestBlockHeight, txPool)
    }

    ghost predicate Valid()
      reads this, Pools
    {
      Owned() && ChainInv(Abstract())
    }

    /** A chain holding only the genesis block; the genesis block is assumed valid. */
    constructor (genesisBlock: Block, crypto: Crypto)
      ensures Valid() && fresh(Pools)
      ensures Abstract() == GenesisState(genesisBlock) && this.crypto == crypto
    {
      var genesisPool := new UTXOPool();
      AddCoinbase(genesisPool, genesisBlock.coinbase);
      var genesisNode := NewBlockNode(genesisBlock, None, genesisPool);
      blockChain := map[genesisBlock.hash := genesisNode];
      txPool := map[];
      maxHeightNode := genesisNode;
      oldestBlockHeight := genesisNode.height;
      this.crypto := crypto;
      Pools := {genesisPool};
      new;
      assert ViewNodes(blockChain) == map[genesisBlock.hash := View(genesisNode)];
    }

    method GetOldestBlockHeight() returns (height: int)
      requires Owned()
      ensures height == Abstract().oldest
    {
      height := oldestBlockHeight;
    }

    method GetMaxHeight() returns (height: int)
      requires Owned()
      ensures height == Abstract().maxNode.height
    {
      height := maxHeightNode.height;
    }

    method GetMaxHeightBlock() returns (block: Block)
      requires Owned()
      ensures block == Abstract().maxNode.block
    {
      block := maxHeightNode.block;
    }

    /** The max-height node's own pool (the same object, not a copy). */
    method GetMaxHeightUTXOPool() returns (pool: UTXOPool)
      requires Owned()
      ensures pool == maxHeightNode.utxoPool && pool.H == Abstract().maxNode.ledger
    {
      pool := maxHeightNode.utxoPool;
    }

    method GetTransactionPool() returns (pool: map<Bytes, Transaction>)
      requires Owned()
      ensures pool == Abstract().txPool
    {
      pool := txPool;
    }

    /** Adds block if it is valid; see AddBlockSpec and the lemmas about it. */
    method AddBlock(block: Block) returns (ok: bool)
      requires Valid()
      modifies this
      ensures Valid() && Pools >= old(Pools) && fresh(Pools - old(Pools))
      ensures (ok, Abstract()) == AddBlockSpec(old(Abstract()), block, crypto)
    {
      ghost var s0 := Abstract();
      if block.prevBlockHash.None? {
        return false;
      }
      var prevBlockHash := block.prevBlockHash.value;
      if prevBlockHash !in blockChain {
        return false;
      }
      var parentNode := blockChain[prevBlockHash];
      var parentUTXOPool := parentNode.utxoPool;
      assert s0.nodes[prevBlockHash] == View(parentNode);
      var possibleTxs := block.transactions;
      var txHandler := new TxHandler(parentUTXOPool, crypto);
      var acceptedTxs := txHandler.HandleTxs(possibleTxs);
      assert Abstract() == s0;
      ghost var r := Fixpoint(s0.nodes[prevBlockHash].ledger, possibleTxs, crypto);
      SelectLength(possibleTxs, r.indexValid);
      if |acceptedTxs| < |possibleTxs| {
        assert Judge(s0, block, crypto) == InvalidTransactions;
        return false;
      }
      if parentNode.height + 1 <= maxHeightNode.height - CUT_OFF_AGE {
        assert Judge(s0, block, crypto) == TooOld;
        return false;
      }
      assert Judge(s0, block, crypto) == Accept;
      var updatedUTXOPool := txHandler.GetUTXOPool();
      AcceptBlock(block, parentNode, updatedUTXOPool);
      assert AddBlockSpec(s0, block, crypto) == (true, Abstract());
      ok := true;
    }

    /** The part of addBlock after the block has been found valid: the coinbase
        outputs go into the pool the handler left, and the new node is attached. */
    method AcceptBlock(block: Block, parentNode: BlockNode, updatedUTXOPool: UTXOPool)
      requires Valid() && Judge(Abstract(), block, crypto) == Accept
      requires blockChain[block.prevBlockHash.value] == parentNode
      requires updatedUTXOPool.H == Fixpoint(parentNode.utxoPool.H, block.transactions, crypto).ledger
      requires updatedUTXOPool !in Pools
      modifies this, updatedUTXOPool
      ensures Valid() && Pools == old(Pools) + {updatedUTXOPool}
      ensures Abstract() == Extend(old(Abstract()), block, crypto)
    {
      ghost var s0 := Abstract();
      assert s0.nodes[block.prevBlockHash.value] == View(parentNode);
      AddCoinbase(updatedUTXOPool, block.coinbase);
      var blockNode := NewBlockNode(block, Some(parentNode), updatedUTXOPool);
      assert View(blockNode) == NewNode(s0, block, crypto);
      assert Abstract() == s0;
      AttachNode(blockNode);
      AddBlockKeepsWindow(s0, block, crypto);
      assert AddBlockSpec(s0, block, crypto).1 == Abstract();
    }

    /** Registers blockNode, updates the pending pool and the best node, and prunes:
        the part of addBlock after the block has been found valid. */
    method AttachNode(blockNode: BlockNode)
      requires Owned()
      modifies this
      ensures Owned() && Pools == old(Pools) + {blockNode.utxoPool}
      ensures Abstract() == Attach(old(Abstract()), View(blockNode))
    {
      ghost var s0 := Abstract();
      ghost var node := View(blockNode);
      RegisterNode(blockNode);
      UpdateBest(blockNode);
      assert Abstract() == ChainState(s0.nodes[node.block.hash := node],
                                      if node.height > s0.maxNode.height then node else s0.maxNode,
                                      s0.oldest, RemoveTxs(s0.txPool, node.block.transactions));
      EvictOld();
    }

    /** Puts blockNode into the map of nodes under its block's hash. */
    method RegisterNode(blockNode: BlockNode)
      requires Owned()
      modifies this
      ensures Owned() && Pools == old(Pools) + {blockNode.utxoPool}
      ensures Abstract() == old(Abstract()).(nodes := old(Abstract()).nodes[blockNode.block.hash := View(blockNode)])
    {
      ghost var s0 := Abstract();
      ghost var chain0 := blockChain;
      blockChain := blockChain[blockNode.block.hash := blockNode];
      Pools := Pools + {blockNode.utxoPool};
      ViewNodesUpdate(chain0, blockNode.block.hash, blockNode);
      assert ViewNodes(chain0) == s0.nodes;
    }

    /** Drops the block's transactions from the pending pool and makes blockNode the
        best node when it is higher than the current one. */
    method UpdateBest(blockNode: BlockNode)
      requires Owned() && blockNode.utxoPool in Pools
      modifies this
      ensures Owned() && Pools == old(Pools)
      ensures var s0, node := old(Abstract()), View(blockNode);
              Abstract() == s0.(maxNode := if node.height > s0.maxNode.height then node else s0.maxNode,
                                txPool := RemoveTxs(s0.txPool, node.block.transactions))
    {
      txPool := RemoveAll(txPool, blockNode.block.transactions);
      if blockNode.height > maxHeightNode.height {
        maxHeightNode := blockNode;
      }
    }

    /** The pruning step of addBlock. */
    method EvictOld()
      requires Owned()
      modifies this
      ensures Owned() && Pools == old(Pools)
      ensures Abstract() == Trim(old(Abstract()))
    {
      ghost var s0 := Abstract();
      if maxHeightNode.height - oldestBlockHeight > NUM_RECENT_NODE {
        var maxHeight := maxHeightNode.height;
        var kept := PruneNodes(blockChain, maxHeight);
        PruneViews(blockChain, maxHeight, kept);
        assert ViewNodes(kept) == Prune(s0.nodes, maxHeight);
        blockChain := kept;
        oldestBlockHeight := maxHeight - NUM_RECENT_NODE;
      }
    }

    /** Adds tx to the pending pool, unconditionally. */
    method AddTransaction(tx: Transaction)
      requires Valid()
      modifies this
      ensures Valid() && Pools == old(Pools)
      ensures Abstract() == AddTransactionSpec(old(Abstract()), tx)
    {
      txPool := txPool[tx.hash := tx];
    }
  }
}
