/**
  The transaction handler: validity of one transaction against a ledger, the
  effect of applying a transaction, and the fixpoint that accepts a mutually
  consistent subset of an unordered batch.

  The pure functions below are the specification; class TxHandler holds the
  source's loops and is proved against them.
 */
module Handler {
  import opened Transactions
  import opened Pool

  // ---------------------------------------------------------------------------
  // Validity of one transaction (isValidTx)
  // ---------------------------------------------------------------------------

  /** The output identifier an input claims. */
  function ClaimOf(input: Input): (u: UTXO) {
    UTXO(input.prevTxHash, input.outputIndex)
  }

  /** The identifiers claimed by a sequence of inputs, in input order. */
  function Claims(inputs: seq<Input>): (cs: seq<UTXO>) {
    seq(|inputs|, i requires 0 <= i < |inputs| => ClaimOf(inputs[i]))
  }

  /** Condition (1): every output claimed by tx is in the ledger. */
  predicate ClaimsPresent(ledger: Ledger, tx: Transaction) {
    forall i :: 0 <= i < |tx.inputs| ==> ClaimOf(tx.inputs[i]) in ledger
  }

  /** Condition (2): every input's signature verifies, against the owner of the output
      it claims, over the payload that input signs. */
  predicate SignaturesValid(ledger: Ledger, tx: Transaction, crypto: Crypto) {
    forall i :: 0 <= i < |tx.inputs| && ClaimOf(tx.inputs[i]) in ledger ==>
      crypto.verifySignature(ledger[ClaimOf(tx.inputs[i])].address,
                             crypto.rawDataToSign(tx, i), tx.inputs[i].signature)
  }

  /** Condition (3): no UTXO is claimed by two inputs of tx. */
  predicate NoDoubleClaim(tx: Transaction) {
    forall i, j :: 0 <= i < j < |tx.inputs| ==> ClaimOf(tx.inputs[i]) != ClaimOf(tx.inputs[j])
  }

  /** Condition (4): no output value is negative. */
  predicate OutputsNonNegative(tx: Transaction) {
    forall i :: 0 <= i < |tx.outputs| ==> tx.outputs[i].value >= 0
  }

  /** The value of the output an input claims; a claim missing from the ledger counts
      as zero, which ValidTx never relies on since it also demands ClaimsPresent. */
  function ClaimValue(ledger: Ledger, input: Input): (v: int) {
    if ClaimOf(input) in ledger then ledger[ClaimOf(input)].value else 0
  }

  /** The total value of the outputs claimed by inputs. */
  function InputSum(ledger: Ledger, inputs: seq<Input>): (sum: int) {
    if inputs == [] then 0
    else InputSum(ledger, inputs[..|inputs| - 1]) + ClaimValue(ledger, inputs[|inputs| - 1])
  }

  /** The total value of outputs. */
  function OutputSum(outputs: seq<Output>): (sum: int) {
    if outputs == [] then 0
    else OutputSum(outputs[..|outputs| - 1]) + outputs[|outputs| - 1].value
  }

  /** The five documented conditions; condition (5) is that the inputs are worth at
      least as much as the outputs. */
  predicate ValidTx(ledger: Ledger, tx: Transaction, crypto: Crypto) {
    && ClaimsPresent(ledger, tx)
    && SignaturesValid(ledger, tx, crypto)
    && NoDoubleClaim(tx)
    && OutputsNonNegative(tx)
    && InputSum(ledger, tx.inputs) >= OutputSum(tx.outputs)
  }

  // ---------------------------------------------------------------------------
  // Effect of one transaction (updateUTXOPool)
  // ---------------------------------------------------------------------------

  /** The ledger with the outputs claimed by inputs removed, one input after another. */
  function RemoveClaims(ledger: Ledger, inputs: seq<Input>): (rest: Ledger) {
    if inputs == [] then ledger
    else RemoveClaims(ledger, inputs[..|inputs| - 1]) - {ClaimOf(inputs[|inputs| - 1])}
  }

  /** The ledger with (txHash, i) mapped to outputs[i], one output after another. */
  function AddOutputs(ledger: Ledger, txHash: Bytes, outputs: seq<Output>): (grown: Ledger) {
    if outputs == [] then ledger
    else AddOutputs(ledger, txHash, outputs[..|outputs| - 1])[UTXO(txHash, |outputs| - 1) := outputs[|outputs| - 1]]
  }

  /** updateUTXOPool: first remove the claimed outputs, then add the produced ones. */
  function ApplyTx(ledger: Ledger, tx: Transaction): (after: Ledger) {
    AddOutputs(RemoveClaims(ledger, tx.inputs), tx.hash, tx.outputs)
  }

  /** u is one of the outputs that tx produces. */
  predicate Produces(tx: Transaction, u: UTXO) {
    u.txHash == tx.hash && 0 <= u.index < |tx.outputs|
  }

  lemma {:induction false} RemoveClaimsEffect(ledger: Ledger, inputs: seq<Input>, u: UTXO)
    ensures u in RemoveClaims(ledger, inputs) <==> u in ledger && u !in Claims(inputs)
    ensures u in RemoveClaims(ledger, inputs) ==> RemoveClaims(ledger, inputs)[u] == ledger[u]
  {
    if inputs != [] {
      var prefix := inputs[..|inputs| - 1];
      RemoveClaimsEffect(ledger, prefix, u);
      assert Claims(inputs) == Claims(prefix) + [ClaimOf(inputs[|inputs| - 1])];
    }
  }

  lemma {:induction false} AddOutputsEffect(ledger: Ledger, txHash: Bytes, outputs: seq<Output>, u: UTXO)
    ensures u in AddOutputs(ledger, txHash, outputs) <==>
              u in ledger || (u.txHash == txHash && 0 <= u.index < |outputs|)
    ensures u.txHash == txHash && 0 <= u.index < |outputs| ==>
              AddOutputs(ledger, txHash, outputs)[u] == outputs[u.index]
    ensures !(u.txHash == txHash && 0 <= u.index < |outputs|) && u in ledger ==>
              AddOutputs(ledger, txHash, outputs)[u] == ledger[u]
  {
    if outputs != [] {
      AddOutputsEffect(ledger, txHash, outputs[..|outputs| - 1], u);
    }
  }

  /** After applying tx, the produced outputs are mapped to tx's outputs, the outputs
      tx claims are gone unless tx itself produces them, and nothing else changes. */
  lemma ApplyTxEffect(ledger: Ledger, tx: Transaction, u: UTXO)
    ensures u in ApplyTx(ledger, tx) <==> Produces(tx, u) || (u in ledger && u !in Claims(tx.inputs))
    ensures Produces(tx, u) ==> ApplyTx(ledger, tx)[u] == tx.outputs[u.index]
    ensures !Produces(tx, u) && u in ApplyTx(ledger, tx) ==> ApplyTx(ledger, tx)[u] == ledger[u]
  {
    RemoveClaimsEffect(ledger, tx.inputs, u);
    AddOutputsEffect(RemoveClaims(ledger, tx.inputs), tx.hash, tx.outputs, u);
  }

  // ---------------------------------------------------------------------------
  // The fixpoint over an unordered batch (handleTxs)
  // ---------------------------------------------------------------------------

  /** The state of handleTxs: the handler's ledger and the indices accepted so far
      (indexValid), in acceptance order. */
  datatype Progress = Progress(ledger: Ledger, indexValid: seq<nat>)

  /** idx holds distinct indices of a batch of n candidates. */
  predicate IndicesOk(idx: seq<nat>, n: nat) {
    && (forall k :: 0 <= k < |idx| ==> idx[k] < n)
    && (forall k, l :: 0 <= k < l < |idx| ==> idx[k] != idx[l])
  }

  /** The candidates not yet accepted: the termination measure of the fixpoint. */
  function Unaccepted(idx: seq<nat>, n: nat): (waiting: set<nat>) {
    set i: nat | i < n && i !in idx
  }

  /** The rest of one pass, from candidate i on: skip accepted candidates, accept and
      apply each one valid against the ledger as it stands. */
  function PassFrom(ledger: Ledger, txs: seq<Transaction>, idx: seq<nat>, i: nat, crypto: Crypto): (p: Progress)
    decreases |txs| - i
  {
    if i >= |txs| then Progress(ledger, idx)
    else if i in idx then PassFrom(ledger, txs, idx, i + 1, crypto)
    else if ValidTx(ledger, txs[i], crypto) then
      PassFrom(ApplyTx(ledger, txs[i]), txs, idx + [i], i + 1, crypto)
    else PassFrom(ledger, txs, idx, i + 1, crypto)
  }

  /** A pass only appends fresh indices of the batch. */
  lemma {:induction false} PassFromExtends(ledger: Ledger, txs: seq<Transaction>, idx: seq<nat>, i: nat, crypto: Crypto)
    requires IndicesOk(idx, |txs|)
    ensures var r := PassFrom(ledger, txs, idx, i, crypto);
            IndicesOk(r.indexValid, |txs|) && |idx| <= |r.indexValid| && r.indexValid[..|idx|] == idx
    decreases |txs| - i
  {
    if i >= |txs| {
    } else if i in idx {
      PassFromExtends(ledger, txs, idx, i + 1, crypto);
    } else if ValidTx(ledger, txs[i], crypto) {
      PassFromExtends(ApplyTx(ledger, txs[i]), txs, idx + [i], i + 1, crypto);
      var r := PassFrom(ledger, txs, idx, i, crypto);
      assert r.indexValid[..|idx| + 1][..|idx|] == r.indexValid[..|idx|];
    } else {
      PassFromExtends(ledger, txs, idx, i + 1, crypto);
    }
  }

  /** A pass that accepts nothing leaves the ledger alone, and then no candidate it
      looked at is valid against that ledger. */
  lemma {:induction false} PassFromNoProgress(ledger: Ledger, txs: seq<Transaction>, idx: seq<nat>, i: nat, crypto: Crypto)
    requires IndicesOk(idx, |txs|)
    requires |PassFrom(ledger, txs, idx, i, crypto).indexValid| == |idx|
    ensures PassFrom(ledger, txs, idx, i, crypto) == Progress(ledger, idx)
    ensures forall j :: i <= j < |txs| && j !in idx ==> !ValidTx(ledger, txs[j], crypto)
    decreases |txs| - i
  {
    if i >= |txs| {
    } else if i in idx {
      PassFromNoProgress(ledger, txs, idx, i + 1, crypto);
    } else if ValidTx(ledger, txs[i], crypto) {
      PassFromExtends(ApplyTx(ledger, txs[i]), txs, idx + [i], i + 1, crypto);
      assert false;
    } else {
      PassFromNoProgress(ledger, txs, idx, i + 1, crypto);
    }
  }

  /** A pass that accepts something strictly shrinks the set of unaccepted candidates. */
  lemma UnacceptedShrinks(idx: seq<nat>, next: seq<nat>, n: nat)
    requires IndicesOk(next, n) && |idx| < |next| && next[..|idx|] == idx
    ensures Unaccepted(next, n) < Unaccepted(idx, n)
  {
    var x := next[|idx|];
    assert x in Unaccepted(idx, n) by {
      forall k | 0 <= k < |idx| ensures idx[k] != x {
        assert idx[k] == next[k];
      }
    }
    assert x !in Unaccepted(next, n);
  }

  /** The do-while of handleTxs: passes until a pass accepts nothing. */
  function Rounds(ledger: Ledger, txs: seq<Transaction>, idx: seq<nat>, crypto: Crypto): (p: Progress)
    requires IndicesOk(idx, |txs|)
    decreases Unaccepted(idx, |txs|)
  {
    var next := PassFrom(ledger, txs, idx, 0, crypto);
    PassFromExtends(ledger, txs, idx, 0, crypto);
    if |idx| < |next.indexValid| then
      UnacceptedShrinks(idx, next.indexValid, |txs|);
      Rounds(next.ledger, txs, next.indexValid, crypto)
    else next
  }

  /** handleTxs on a batch against a ledger, from nothing accepted. */
  function Fixpoint(ledger: Ledger, txs: seq<Transaction>, crypto: Crypto): (p: Progress) {
    Rounds(ledger, txs, [], crypto)
  }

  /** An empty batch accepts nothing and leaves the ledger alone. */
  lemma EmptyBatch(ledger: Ledger, crypto: Crypto)
    ensures Fixpoint(ledger, [], crypto) == Progress(ledger, [])
  {
    assert PassFrom(ledger, [], [], 0, crypto) == Progress(ledger, []);
  }

  /** The candidates at the given indices, in that order. */
  function Select(txs: seq<Transaction>, idx: seq<nat>): (chosen: seq<Transaction>)
    requires forall k :: 0 <= k < |idx| ==> idx[k] < |txs|
  {
    seq(|idx|, k requires 0 <= k < |idx| => txs[idx[k]])
  }

  /** The ledger after applying ts in order. */
  function ApplyAll(ledger: Ledger, ts: seq<Transaction>): (after: Ledger) {
    if ts == [] then ledger else ApplyTx(ApplyAll(ledger, ts[..|ts| - 1]), ts[|ts| - 1])
  }

  /** Each of ts is valid against the ledger left by the ones before it. */
  predicate ValidSequence(ledger: Ledger, ts: seq<Transaction>, crypto: Crypto) {
    ts == [] ||
    (ValidSequence(ledger, ts[..|ts| - 1], crypto)
     && ValidTx(ApplyAll(ledger, ts[..|ts| - 1]), ts[|ts| - 1], crypto))
  }

  /** In a valid sequence, the k-th transaction is valid against the ledger left by the
      ones before it. */
  lemma {:induction false} ValidSequenceAt(ledger: Ledger, ts: seq<Transaction>, k: nat, crypto: Crypto)
    requires ValidSequence(ledger, ts, crypto) && k < |ts|
    ensures ValidTx(ApplyAll(ledger, ts[..k]), ts[k], crypto)
    decreases |ts|
  {
    var n := |ts| - 1;
    if k < n {
      var init := ts[..n];
      ValidSequenceAt(ledger, init, k, crypto);
      assert init[..k] == ts[..k] && init[k] == ts[k];
    }
  }

  /** A sequence each of whose transactions is valid against the ledger left by the ones
      before it is a valid sequence. */
  lemma {:induction false} ValidSequenceFromEach(ledger: Ledger, ts: seq<Transaction>, crypto: Crypto)
    requires forall k :: 0 <= k < |ts| ==> ValidTx(ApplyAll(ledger, ts[..k]), ts[k], crypto)
    ensures ValidSequence(ledger, ts, crypto)
  {
    if ts != [] {
      var n := |ts| - 1;
      var init := ts[..n];
      forall k | 0 <= k < n ensures ValidTx(ApplyAll(ledger, init[..k]), init[k], crypto) {
        assert init[..k] == ts[..k] && init[k] == ts[k];
      }
      ValidSequenceFromEach(ledger, init, crypto);
    }
  }

  /** ValidSequence, stated transaction by transaction. */
  lemma ValidSequenceEach(ledger: Ledger, ts: seq<Transaction>, crypto: Crypto)
    ensures ValidSequence(ledger, ts, crypto) <==>
              forall k :: 0 <= k < |ts| ==> ValidTx(ApplyAll(ledger, ts[..k]), ts[k], crypto)
  {
    if ValidSequence(ledger, ts, crypto) {
      forall k | 0 <= k < |ts| ensures ValidTx(ApplyAll(ledger, ts[..k]), ts[k], crypto) {
        ValidSequenceAt(ledger, ts, k, crypto);
      }
    }
    if forall k :: 0 <= k < |ts| ==> ValidTx(ApplyAll(ledger, ts[..k]), ts[k], crypto) {
      ValidSequenceFromEach(ledger, ts, crypto);
    }
  }

  /** The state p is reached from ledger0 by accepting, in order, the candidates p records. */
  predicate Replays(ledger0: Ledger, txs: seq<Transaction>, p: Progress, crypto: Crypto) {
    IndicesOk(p.indexValid, |txs|)
    && ValidSequence(ledger0, Select(txs, p.indexValid), crypto)
    && p.ledger == ApplyAll(ledger0, Select(txs, p.indexValid))
  }

  lemma AcceptOne(ledger0: Ledger, txs: seq<Transaction>, p: Progress, i: nat, crypto: Crypto)
    requires Replays(ledger0, txs, p, crypto)
    requires i < |txs| && i !in p.indexValid && ValidTx(p.ledger, txs[i], crypto)
    ensures Replays(ledger0, txs, Progress(ApplyTx(p.ledger, txs[i]), p.indexValid + [i]), crypto)
  {
    var idx := p.indexValid;
    var idx' := idx + [i];
    assert IndicesOk(idx', |txs|) by {
      forall k, l | 0 <= k < l < |idx'| ensures idx'[k] != idx'[l] {
        assert idx'[k] == idx[k];
        if l < |idx| {
          assert idx'[l] == idx[l];
        }
      }
    }
    var s := Select(txs, idx);
    var s' := Select(txs, idx');
    assert s' == s + [txs[i]];
    assert s'[..|s'| - 1] == s;
  }

  lemma {:induction false} PassFromReplays(ledger0: Ledger, txs: seq<Transaction>, p: Progress, i: nat, crypto: Crypto)
    requires Replays(ledger0, txs, p, crypto)
    ensures Replays(ledger0, txs, PassFrom(p.ledger, txs, p.indexValid, i, crypto), crypto)
    decreases |txs| - i
  {
    if i >= |txs| {
      assert PassFrom(p.ledger, txs, p.indexValid, i, crypto) == p;
    } else if i in p.indexValid || !ValidTx(p.ledger, txs[i], crypto) {
      assert PassFrom(p.ledger, txs, p.indexValid, i, crypto) == PassFrom(p.ledger, txs, p.indexValid, i + 1, crypto);
      PassFromReplays(ledger0, txs, p, i + 1, crypto);
    } else {
      var q := Progress(ApplyTx(p.ledger, txs[i]), p.indexValid + [i]);
      assert PassFrom(p.ledger, txs, p.indexValid, i, crypto) == PassFrom(q.ledger, txs, q.indexValid, i + 1, crypto);
      AcceptOne(ledger0, txs, p, i, crypto);
      PassFromReplays(ledger0, txs, q, i + 1, crypto);
    }
  }

  lemma {:induction false} RoundsCorrect(ledger0: Ledger, txs: seq<Transaction>, p: Progress, crypto: Crypto)
    requires Replays(ledger0, txs, p, crypto)
    ensures var r := Rounds(p.ledger, txs, p.indexValid, crypto);
            Replays(ledger0, txs, r, crypto)
            && forall j :: 0 <= j < |txs| && j !in r.indexValid ==> !ValidTx(r.ledger, txs[j], crypto)
    decreases Unaccepted(p.indexValid, |txs|)
  {
    var next := PassFrom(p.ledger, txs, p.indexValid, 0, crypto);
    PassFromExtends(p.ledger, txs, p.indexValid, 0, crypto);
    PassFromReplays(ledger0, txs, p, 0, crypto);
    if |p.indexValid| < |next.indexValid| {
      UnacceptedShrinks(p.indexValid, next.indexValid, |txs|);
      RoundsCorrect(ledger0, txs, next, crypto);
    } else {
      PassFromNoProgress(p.ledger, txs, p.indexValid, 0, crypto);
    }
  }

  /** What handleTxs promises: the accepted indices are distinct candidates of the
      batch; each accepted transaction is valid against the ledger left by those
      accepted before it, and the final ledger is the result of applying them in
      acceptance order; and no candidate left out is valid against the final ledger. */
  lemma FixpointCorrect(ledger: Ledger, txs: seq<Transaction>, crypto: Crypto)
    ensures var r := Fixpoint(ledger, txs, crypto);
            && IndicesOk(r.indexValid, |txs|)
            && ValidSequence(ledger, Select(txs, r.indexValid), crypto)
            && r.ledger == ApplyAll(ledger, Select(txs, r.indexValid))
            && forall j :: 0 <= j < |txs| && j !in r.indexValid ==> !ValidTx(r.ledger, txs[j], crypto)
  {
    assert Select(txs, []) == [];
    RoundsCorrect(ledger, txs, Progress(ledger, []), crypto);
  }

  // ---------------------------------------------------------------------------
  // The handler
  // ---------------------------------------------------------------------------

  class TxHandler {
    /** The handler's private copy of the pool it was created with. */
    var uPool: UTXOPool
    const crypto: Crypto

    /** Stores a fresh copy of utxoPool, so nothing done through the handler
        changes the caller's pool. */
    constructor (utxoPool: UTXOPool, crypto: Crypto)
      ensures fresh(uPool) && uPool.H == utxoPool.H && this.crypto == crypto
    {
      this.uPool := new UTXOPool.Copy(utxoPool);
      this.crypto := crypto;
    }

    /** The handler's own pool, as updated by the transactions it accepted. */
    method GetUTXOPool() returns (pool: UTXOPool)
      ensures pool == uPool
    {
      pool := uPool;
    }

    /** Whether tx satisfies the five conditions against the handler's pool. The pool
        is only read. */
    method IsValidTx(tx: Transaction) returns (valid: bool)
      ensures valid == ValidTx(uPool.H, tx, crypto)
    {
      var inputsOk, valueSumInputs := CheckInputs(tx);
      if !inputsOk {
        return false;
      }
      var outputsOk, valueSumOutputs := CheckOutputs(tx);
      if !outputsOk {
        return false;
      }
      if valueSumInputs < valueSumOutputs {
        return false;
      }
      return true;
    }

    /** The loop of isValidTx over the inputs: conditions (1) to (3), and the total
        value of the claimed outputs when they hold. */
    method CheckInputs(tx: Transaction) returns (ok: bool, valueSumInputs: int)
      ensures ok <==> ClaimsPresent(uPool.H, tx) && SignaturesValid(uPool.H, tx, crypto) && NoDoubleClaim(tx)
      ensures ok ==> valueSumInputs == InputSum(uPool.H, tx.inputs)
    {
      ghost var ledger := uPool.H;
      valueSumInputs := 0;
      var utxos: seq<UTXO> := [];
      var i := 0;
      while i < |tx.inputs|
        invariant 0 <= i <= |tx.inputs|
        invariant forall k :: 0 <= k < i ==> ClaimOf(tx.inputs[k]) in ledger
        invariant forall k :: 0 <= k < i ==>
                    crypto.verifySignature(ledger[ClaimOf(tx.inputs[k])].address,
                                           crypto.rawDataToSign(tx, k), tx.inputs[k].signature)
        invariant forall k, l :: 0 <= k < l < i ==> ClaimOf(tx.inputs[k]) != ClaimOf(tx.inputs[l])
        invariant |utxos| == i && forall k :: 0 <= k < i ==> utxos[k] == ClaimOf(tx.inputs[k])
        invariant valueSumInputs == InputSum(ledger, tx.inputs[..i])
      {
        var input := tx.inputs[i];
        var prevUTXO := UTXO(input.prevTxHash, input.outputIndex);
        var prevTxOutput := uPool.GetTxOutput(prevUTXO);
        if prevTxOutput.None? {
          assert !ClaimsPresent(ledger, tx) by {
            assert ClaimOf(tx.inputs[i]) !in ledger;
          }
          return false, valueSumInputs;
        }
        var message := crypto.rawDataToSign(tx, i);
        var pubKey := prevTxOutput.value.address;
        if !crypto.verifySignature(pubKey, message, input.signature) {
          assert !SignaturesValid(ledger, tx, crypto) by {
            assert ClaimOf(tx.inputs[i]) in ledger && ledger[ClaimOf(tx.inputs[i])].address == pubKey;
          }
          return false, valueSumInputs;
        }
        if prevUTXO in utxos {
          assert !NoDoubleClaim(tx) by {
            var k :| 0 <= k < i && utxos[k] == prevUTXO;
            assert ClaimOf(tx.inputs[k]) == ClaimOf(tx.inputs[i]);
          }
          return false, valueSumInputs;
        }
        assert tx.inputs[..i + 1][..i] == tx.inputs[..i];
        utxos := utxos + [prevUTXO];
        valueSumInputs := valueSumInputs + prevTxOutput.value.value;
        i := i + 1;
      }
      assert tx.inputs[..i] == tx.inputs;
      assert ClaimsPresent(ledger, tx) && SignaturesValid(ledger, tx, crypto) && NoDoubleClaim(tx);
      ok := true;
    }

    /** The loop of isValidTx over the outputs: condition (4), and the total output
        value when it holds. */
    method CheckOutputs(tx: Transaction) returns (ok: bool, valueSumOutputs: int)
      ensures ok <==> OutputsNonNegative(tx)
      ensures ok ==> valueSumOutputs == OutputSum(tx.outputs)
    {
      valueSumOutputs := 0;
      var i := 0;
      while i < |tx.outputs|
        invariant 0 <= i <= |tx.outputs|
        invariant forall k :: 0 <= k < i ==> tx.outputs[k].value >= 0
        invariant valueSumOutputs == OutputSum(tx.outputs[..i])
      {
        var op := tx.outputs[i];
        if op.value < 0 {
          return false, valueSumOutputs;
        }
        assert tx.outputs[..i + 1][..i] == tx.outputs[..i];
        valueSumOutputs := valueSumOutputs + op.value;
        i := i + 1;
      }
      assert tx.outputs[..i] == tx.outputs;
      ok := true;
    }

    /** Applies tx to the handler's pool: removes the outputs it claims, then adds
        (hash(tx), i) for each of its outputs. */
    method UpdateUTXOPool(tx: Transaction)
      modifies uPool
      ensures uPool.H == ApplyTx(old(uPool.H), tx)
    {
      for i := 0 to |tx.inputs|
        invariant uPool.H == RemoveClaims(old(uPool.H), tx.inputs[..i])
      {
        assert tx.inputs[..i + 1][..i] == tx.inputs[..i];
        var input := tx.inputs[i];
        uPool.RemoveUTXO(UTXO(input.prevTxHash, input.outputIndex));
      }
      assert tx.inputs[..|tx.inputs|] == tx.inputs;
      ghost var spent := uPool.H;
      for i := 0 to |tx.outputs|
        invariant uPool.H == AddOutputs(spent, tx.hash, tx.outputs[..i])
      {
        assert tx.outputs[..i + 1][..i] == tx.outputs[..i];
        uPool.AddUTXO(UTXO(tx.hash, i), tx.outputs[i]);
      }
      assert tx.outputs[..|tx.outputs|] == tx.outputs;
    }

    /** Passes over the unordered batch until a pass accepts nothing, and returns
        the accepted transactions in acceptance order. */
    method HandleTxs(possibleTxs: seq<Transaction>) returns (validTxs: seq<Transaction>)
      modifies uPool
      ensures var r := Fixpoint(old(uPool.H), possibleTxs, crypto);
              IndicesOk(r.indexValid, |possibleTxs|)
              && validTxs == Select(possibleTxs, r.indexValid) && uPool.H == r.ledger
      ensures ValidSequence(old(uPool.H), validTxs, crypto)
      ensures uPool.H == ApplyAll(old(uPool.H), validTxs)
      ensures |validTxs| <= |possibleTxs|
    {
      ghost var initial := uPool.H;
      ghost var target := Fixpoint(initial, possibleTxs, crypto);
      var indexValid: seq<nat> := [];
      var indexValidLength: int;
      var indexValidLengthUpdate := 0;
      while true
        invariant IndicesOk(indexValid, |possibleTxs|)
        invariant Rounds(uPool.H, possibleTxs, indexValid, crypto) == target
        decreases Unaccepted(indexValid, |possibleTxs|)
      {
        indexValidLength := |indexValid|;
        ghost var startLedger, startIdx := uPool.H, indexValid;
        indexValid := Pass(possibleTxs, indexValid);
        PassFromExtends(startLedger, possibleTxs, startIdx, 0, crypto);
        indexValidLengthUpdate := |indexValid|;
        if !(indexValidLength < indexValidLengthUpdate) {
          break;
        }
        UnacceptedShrinks(startIdx, indexValid, |possibleTxs|);
      }
      FixpointCorrect(initial, possibleTxs, crypto);
      validTxs := Collect(possibleTxs, indexValid);
      SelectLength(possibleTxs, indexValid);
    }

    /** One pass of handleTxs: every candidate not yet accepted that is valid against
        the pool as it stands is accepted and applied. */
    method Pass(possibleTxs: seq<Transaction>, indexValid0: seq<nat>) returns (indexValid: seq<nat>)
      modifies uPool
      ensures Progress(uPool.H, indexValid) == PassFrom(old(uPool.H), possibleTxs, indexValid0, 0, crypto)
    {
      ghost var startLedger := uPool.H;
      indexValid := indexValid0;
      for i := 0 to |possibleTxs|
        invariant PassFrom(uPool.H, possibleTxs, indexValid, i, crypto)
                  == PassFrom(startLedger, possibleTxs, indexValid0, 0, crypto)
      {
        if i in indexValid {
          continue;
        }
        var tx := possibleTxs[i];
        var valid := IsValidTx(tx);
        if valid {
          indexValid := indexValid + [i];
          UpdateUTXOPool(tx);
        }
      }
    }
  }

  /** The candidates at the accepted indices, in acceptance order. */
  method Collect(possibleTxs: seq<Transaction>, indexValid: seq<nat>) returns (validTxs: seq<Transaction>)
    requires forall k :: 0 <= k < |indexValid| ==> indexValid[k] < |possibleTxs|
    ensures |validTxs| == |indexValid|
    ensures forall k :: 0 <= k < |indexValid| ==> validTxs[k] == possibleTxs[indexValid[k]]
  {
    validTxs := [];
    for k := 0 to |indexValid|
      invariant validTxs == Select(possibleTxs, indexValid[..k])
    {
      validTxs := validTxs + [possibleTxs[indexValid[k]]];
    }
    assert indexValid[..|indexValid|] == indexValid;
  }

  lemma SelectLength(txs: seq<Transaction>, idx: seq<nat>)
    requires IndicesOk(idx, |txs|)
    ensures |Select(txs, idx)| == |idx| <= |txs|
  {
    DistinctBounded(idx, |txs|);
  }

  /** A sequence of distinct indices below n has at most n elements. */
  lemma {:induction false} DistinctBounded(idx: seq<nat>, n: nat)
    requires IndicesOk(idx, n)
    ensures |idx| <= n
  {
    if idx == [] {
    } else if p :| 0 <= p < |idx| && idx[p] == n - 1 {
      assert idx[0] < n;
      var rest := idx[..p] + idx[p + 1..];
      forall k | 0 <= k < |rest| ensures rest[k] == idx[if k < p then k else k + 1] {
      }
      DistinctBounded(rest, n - 1);
    } else {
      assert idx[0] < n;
      DistinctBounded(idx, n - 1);
    }
  }
}
