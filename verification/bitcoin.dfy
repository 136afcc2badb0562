/** The parts of a Bitcoin transaction that the handler builds or copies.
    Their consensus wire format belongs to the host library and is not part of
    this model; the handler only reads `input`, sets `version` and `lock_time`. */
module Bitcoin {
  import opened Common

  datatype OutPoint = OutPoint(txid: seq<byte>, vout: nat)

  datatype TxIn = TxIn(previousOutput: OutPoint, scriptSig: seq<byte>, sequence: nat, witnessStack: seq<seq<byte>>)

  datatype TxOut = TxOut(value: nat, scriptPubkey: seq<byte>)

  datatype Transaction = Transaction(version: int, lockTime: nat, input: seq<TxIn>, output: seq<TxOut>)

  /** `Version::TWO` */
  const VERSION_TWO: int := 2

  /** `LockTime::ZERO`: no time lock. */
  const LOCK_TIME_ZERO: nat := 0
}
