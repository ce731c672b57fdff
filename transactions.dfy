/**
  Value types shared by the ledger: output identifiers, transaction inputs and
  outputs, transactions, blocks, and the signature capability.

  The classes Transaction, UTXO, Block, ByteArrayWrapper and Crypto of the
  repository are not part of this model; they appear here as plain datatypes
  whose equality is by value.
 */
module Transactions {

  /** Raw bytes: hashes, keys, signatures, signed payloads. */
  type Bytes = seq<bv8>

  /** An encoded public verification key (an output's owner). */
  type PublicKey = Bytes

  datatype Option<T> = None | Some(value: T)

  /** Output identifier: the hash of the producing transaction and the output's index. */
  datatype UTXO = UTXO(txHash: Bytes, index: int)

  /** A transaction input: the output it claims and the signature over the input's payload. */
  datatype Input = Input(prevTxHash: Bytes, outputIndex: int, signature: Bytes)

  /** A transaction output: an amount (a Java double in the source, an integer here) and its owner. */
  datatype Output = Output(value: int, address: PublicKey)

  /** A finalized transaction. Its hash is computed once by the source and is kept here as a field. */
  datatype Transaction = Transaction(hash: Bytes, inputs: seq<Input>, outputs: seq<Output>)

  /** A finalized block: its hash, its parent's hash (None only for a genesis block),
      its coinbase transaction and its other transactions. */
  datatype Block = Block(hash: Bytes, prevBlockHash: Option<Bytes>, coinbase: Transaction,
                         transactions: seq<Transaction>)

  /** The signature capability: verifySignature(key, message, signature) and the payload
      getRawDataToSign(tx, i) that input i of tx signs. Both are left uninterpreted. */
  datatype Crypto = Crypto(verifySignature: (PublicKey, Bytes, Bytes) -> bool,
                           rawDataToSign: (Transaction, nat) -> Bytes)

  /** A ledger snapshot: the contents of a UTXO pool. */
  type Ledger = map<UTXO, Output>
}
