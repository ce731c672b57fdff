/**
  The UTXO pool: a mutable map from output identifier to output record.
 */
module Pool {
  import opened Transactions

  class UTXOPool {
    /** The current collection of UTXOs, each mapped to the output that created it. */
    var H: Ledger

    /** An empty pool. */
    constructor ()
      ensures H == map[]
      ensures forall u :: !Contains(u)
    {
      H := map[];
    }

    /** A pool holding exactly the mappings of uPool; being a fresh object, later
        changes to either pool leave the other one alone. */
    constructor Copy(uPool: UTXOPool)
      ensures H == uPool.H
    {
      H := uPool.H;
    }

    /** Maps utxo to txOut, replacing any previous mapping of utxo. */
    method AddUTXO(utxo: UTXO, txOut: Output)
      modifies this
      ensures H == old(H)[utxo := txOut]
      ensures Contains(utxo) && GetTxOutput(utxo) == Some(txOut)
      ensures forall u :: u != utxo ==> GetTxOutput(u) == old(GetTxOutput(u))
    {
      H := H[utxo := txOut];
    }

    /** Removes utxo; a pool without utxo is left as it is. */
    method RemoveUTXO(utxo: UTXO)
      modifies this
      ensures H == old(H) - {utxo}
      ensures !Contains(utxo) && GetTxOutput(utxo) == None
      ensures forall u :: u != utxo ==> GetTxOutput(u) == old(GetTxOutput(u))
      ensures utxo !in old(H) ==> H == old(H)
    {
      H := H - {utxo};
    }

    /** The output mapped to ut, or None (null in the source) when ut is not in the pool. */
    function GetTxOutput(ut: UTXO): (r: Option<Output>)
      reads this
      ensures r.Some? <==> ut in H
      ensures r.Some? ==> r.value == H[ut]
    {
      if ut in H then Some(H[ut]) else None
    }

    /** Whether utxo is in the pool. */
    function Contains(utxo: UTXO): (b: bool)
      reads this
      ensures b <==> utxo in H
    {
      utxo in H
    }

    /** Every UTXO of the pool, each exactly once, in no particular order. */
    method GetAllUTXO() returns (allUTXO: seq<UTXO>)
      ensures forall u :: u in allUTXO <==> u in H
      ensures forall i, j :: 0 <= i < j < |allUTXO| ==> allUTXO[i] != allUTXO[j]
    {
      var setUTXO := H.Keys;
      allUTXO := [];
      while setUTXO != {}
        invariant setUTXO <= H.Keys
        invariant forall u :: u in allUTXO <==> u in H && u !in setUTXO
        invariant forall i, j :: 0 <= i < j < |allUTXO| ==> allUTXO[i] != allUTXO[j]
        decreases setUTXO
      {
        var ut :| ut in setUTXO;
        allUTXO := allUTXO + [ut];
        setUTXO := setUTXO - {ut};
      }
    }
  }

  /** A pool contains a UTXO exactly when looking it up yields its output rather than None. */
  lemma ContainsIffGetTxOutput(pool: UTXOPool, u: UTXO)
    ensures pool.Contains(u) <==> pool.GetTxOutput(u).Some? && pool.GetTxOutput(u).value == pool.H[u]
    ensures !pool.Contains(u) <==> pool.GetTxOutput(u) == None
  {
  }
}
