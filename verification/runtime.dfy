/** The host runtime as the handler sees it: accounts with resizable data
    buffers, program errors, signing requests, and the host services the
    handler calls. The services are total function values supplied by the
    caller, so the handler is verified against every possible host. */
module Runtime {
  import opened Common
  import opened Bitcoin

  /** An account's public key (32 bytes on the wire; the length plays no role here). */
  type Pubkey = seq<byte>

  /** `ProgramError`: a program-defined `Custom` code, or any error the runtime itself reports. */
  datatype ProgramError = Custom(code: nat) | Builtin(code: nat)

  /** `Result<(), ProgramError>` */
  datatype ProgramResult = Ok | Err(error: ProgramError)

  /** `InputToSign`: which input of the transaction must be signed, and by whom. */
  datatype InputToSign = InputToSign(index: nat, signer: Pubkey)

  /** `TransactionToSign`: the serialized transaction and the inputs to sign. */
  datatype TransactionToSign = TransactionToSign(txBytes: seq<byte>, inputsToSign: seq<InputToSign>)

  /** A snapshot of one account: its key and its data buffer. */
  datatype AccountState = AccountState(key: Pubkey, data: seq<byte>)

  /** What `add_state_transition` appends to a transaction for one account. */
  datatype Anchor = Anchor(inputs: seq<TxIn>, outputs: seq<TxOut>)

  /** The host services the handler calls.
      - `reallocError(len, newLen)`: the runtime's verdict on resizing a buffer
        of length `len` to `newLen` (None means it is allowed);
      - `deserializeTx` / `serializeTx`: Bitcoin consensus decoding and encoding;
      - `anchor`: the inputs and outputs `add_state_transition` appends for an account;
      - `submit`: the answer of `set_transaction_to_sign`. */
  datatype Host = Host(
    reallocError: (nat, nat) -> Option<ProgramError>,
    deserializeTx: seq<byte> -> Option<Transaction>,
    serializeTx: Transaction -> seq<byte>,
    anchor: AccountState -> Anchor,
    submit: (seq<AccountState>, TransactionToSign) -> ProgramResult)

  /** The buffer after a successful zero-initialising realloc to `newLen`. */
  function Resized(data: seq<byte>, newLen: nat): (r: seq<byte>)
  {
    if newLen <= |data| then data[..newLen] else data + Zeros(newLen - |data|)
  }

  /** A realloc sets the length to exactly `newLen`, keeps the bytes that fit
      and zero-fills every byte beyond the old length. */
  lemma ResizedShape(data: seq<byte>, newLen: nat)
    ensures |Resized(data, newLen)| == newLen
    ensures forall i :: 0 <= i < newLen && i < |data| ==> Resized(data, newLen)[i] == data[i]
    ensures forall i :: |data| <= i < newLen ==> Resized(data, newLen)[i] == 0
  {
  }

  /** `add_state_transition`: appends the anchoring inputs and outputs, and
      touches nothing else of the transaction. */
  function AddStateTransition(tx: Transaction, a: Anchor): (t: Transaction)
    ensures t.version == tx.version && t.lockTime == tx.lockTime
    ensures |t.input| == |tx.input| + |a.inputs| && |t.output| == |tx.output| + |a.outputs|
    ensures t.input[..|tx.input|] == tx.input && t.input[|tx.input|..] == a.inputs
    ensures t.output[..|tx.output|] == tx.output && t.output[|tx.output|..] == a.outputs
  {
    tx.(input := tx.input + a.inputs, output := tx.output + a.outputs)
  }

  /** `AccountInfo`: an account whose data buffer the handler changes in place. */
  class AccountInfo {
    const key: Pubkey
    var data: seq<byte>

    constructor (key: Pubkey, data: seq<byte>)
      ensures this.key == key && this.data == data
    {
      this.key := key;
      this.data := data;
    }

    function State(): AccountState
      reads this
    {
      AccountState(key, data)
    }

    /** `realloc(new_len, true)`: if the runtime allows it, the buffer gets
        length `newLen`, with the new region zero-filled; otherwise the
        runtime's error is returned and the buffer is left as it was. */
    method Realloc(newLen: nat, host: Host) returns (r: ProgramResult)
      modifies this
      ensures r.Ok? <==> host.reallocError(|old(data)|, newLen).None?
      ensures r.Err? ==> r.error == host.reallocError(|old(data)|, newLen).value
      ensures data == if r.Ok? then Resized(old(data), newLen) else old(data)
    {
      match host.reallocError(|data|, newLen)
      case Some(e) =>
        r := Err(e);
      case None =>
        data := Resized(data, newLen);
        r := Ok;
    }

    /** `copy_from_slice(src)`: succeeds, overwriting the whole buffer, exactly
        when the lengths agree; `ok == false` stands for the panic otherwise. */
    method CopyFromSlice(src: seq<byte>) returns (ok: bool)
      modifies this
      ensures ok <==> |old(data)| == |src|
      ensures data == if ok then src else old(data)
    {
      ok := |data| == |src|;
      if ok {
        data := src;
      }
    }
  }

  /** Snapshots of a list of accounts, in order. */
  function States(accounts: seq<AccountInfo>): (s: seq<AccountState>)
    reads accounts
    ensures |s| == |accounts|
    ensures forall i :: 0 <= i < |accounts| ==> s[i] == accounts[i].State()
  {
    seq(|accounts|, i requires 0 <= i < |accounts| reads accounts => accounts[i].State())
  }
}
