/** The instruction handler `process_instruction`: check that exactly one
    account is given, decode the payload, store "Hello <name>" in the
    account's buffer (growing it first when the greeting is longer), build a
    version-2 transaction that anchors the new state and spends the first
    input of the supplied fee transaction, and ask the host to have input 0
    signed by the account's key.

    `Process` is the specification: what one invocation returns, what the
    account buffers hold afterwards, and what was submitted for signing.
    `ProcessInstruction` is the handler itself, changing the account object
    in place step by step, and is proved to agree with `Process`. */
module HelloWorld {
  import opened Common
  import opened Bitcoin
  import opened Runtime
  import Borsh

  /** The custom error code for an account list whose length is not 1. */
  const WRONG_ACCOUNT_COUNT: nat := 501

  /** The text the greeting starts with. */
  const HELLO: seq<byte> := Ascii("Hello ")

  /** Why an invocation aborts instead of returning a result:
      an `unwrap` on a payload or a fee transaction that does not decode,
      `copy_from_slice` on a buffer whose length is not the greeting's,
      or `input[0]` on a fee transaction without inputs. */
  datatype Panic = MalformedInstructionData | MalformedFeeTransaction | BufferLengthMismatch | MissingFeeInput

  datatype Outcome = Returned(result: ProgramResult) | Panicked(reason: Panic)

  /** The transaction built, and the signing request handed to the host. */
  datatype Submission = Submission(tx: Transaction, request: TransactionToSign)

  /** Everything an invocation does: its outcome, the accounts afterwards
      (in order), and the signing request, if one was submitted. */
  datatype Effect = Effect(outcome: Outcome, accounts: seq<AccountState>, submitted: Option<Submission>)

  /** `format!("Hello {}", name)`, as bytes. */
  function Greeting(name: seq<byte>): seq<byte>
  {
    HELLO + name
  }

  /** The greeting is the six bytes of "Hello " followed by the name. */
  lemma GreetingLayout(name: seq<byte>)
    ensures |Greeting(name)| == 6 + |name|
    ensures Greeting(name)[..6] == Ascii("Hello ")
    ensures Greeting(name)[6..] == name
  {
  }

  lemma GreetingExamples()
    ensures Greeting(Ascii("Alice")) == Ascii("Hello Alice")
    ensures Greeting(Ascii("Bob")) == Ascii("Hello Bob")
  {
  }

  /** The buffer once its capacity is reconciled with the greeting, or the
      runtime's refusal to grow it. */
  datatype Capacity = Fits(data: seq<byte>) | Refused(error: ProgramError)

  /** The resize guard: grow to the greeting's length only when the greeting
      is strictly longer than the buffer; never shrink. */
  function Reconcile(data: seq<byte>, greeting: seq<byte>, host: Host): Capacity
  {
    if |greeting| > |data| then
      match host.reallocError(|data|, |greeting|)
      case Some(e) => Refused(e)
      case None => Fits(Resized(data, |greeting|))
    else
      Fits(data)
  }

  /** A resize is requested exactly when the greeting is longer than the
      buffer; it then yields the old bytes followed by zeros up to the
      greeting's length. A shorter or equal greeting leaves the buffer as it is. */
  lemma ReconcileGrowsOnlyWhenLonger(data: seq<byte>, greeting: seq<byte>, host: Host)
    ensures Reconcile(data, greeting, host).Refused? <==>
      |greeting| > |data| && host.reallocError(|data|, |greeting|).Some?
    ensures |greeting| <= |data| ==> Reconcile(data, greeting, host) == Fits(data)
    ensures |greeting| > |data| && host.reallocError(|data|, |greeting|).None? ==>
      Reconcile(data, greeting, host) == Fits(data + Zeros(|greeting| - |data|))
    ensures Reconcile(data, greeting, host).Fits? ==>
      |Reconcile(data, greeting, host).data| == if |greeting| > |data| then |greeting| else |data|
  {
  }

  /** `copy_from_slice`: the buffer becomes the source when the lengths agree;
      None stands for the panic otherwise. */
  function Overwrite(data: seq<byte>, src: seq<byte>): Option<seq<byte>>
  {
    if |data| == |src| then Some(src) else None
  }

  /** The length hazard: after the resize guard, the write succeeds if and
      only if the buffer was not longer than the greeting, and then the
      buffer is the greeting byte for byte. */
  lemma WriteSucceedsIffNotLonger(data: seq<byte>, greeting: seq<byte>, host: Host)
    requires Reconcile(data, greeting, host).Fits?
    ensures Overwrite(Reconcile(data, greeting, host).data, greeting).Some? <==> |data| <= |greeting|
    ensures Overwrite(Reconcile(data, greeting, host).data, greeting).Some? ==>
      Overwrite(Reconcile(data, greeting, host).data, greeting).value == greeting
  {
  }

  /** The transaction the handler builds: version 2, lock time 0, the
      anchoring inputs and outputs, then the fee input. */
  function AssembleTx(anchor: Anchor, feeInput: TxIn): Transaction
  {
    var tx := AddStateTransition(Transaction(VERSION_TWO, LOCK_TIME_ZERO, [], []), anchor);
    tx.(input := tx.input + [feeInput])
  }

  lemma AssembledShape(anchor: Anchor, feeInput: TxIn)
    ensures AssembleTx(anchor, feeInput).version == 2
    ensures AssembleTx(anchor, feeInput).lockTime == 0
    ensures AssembleTx(anchor, feeInput).input == anchor.inputs + [feeInput]
    ensures AssembleTx(anchor, feeInput).output == anchor.outputs
  {
  }

  /** The signing request the handler submits: the serialized transaction,
      with input 0 to be signed by `signer`. */
  function SigningRequest(tx: Transaction, signer: Pubkey, host: Host): TransactionToSign
  {
    TransactionToSign(host.serializeTx(tx), [InputToSign(0, signer)])
  }

  /** One invocation with exactly one account, in the order of the source:
      decode the payload, decode the fee transaction, reconcile the
      capacity, write the greeting, build the transaction, submit. */
  function Handle(account: AccountState, payload: seq<byte>, host: Host): Effect
  {
    match Borsh.Decode(payload)
    case None => Effect(Panicked(MalformedInstructionData), [account], None)
    case Some(params) =>
      match host.deserializeTx(params.txHex)
      case None => Effect(Panicked(MalformedFeeTransaction), [account], None)
      case Some(feesTx) =>
        var greeting := Greeting(params.name);
        match Reconcile(account.data, greeting, host)
        case Refused(err) => Effect(Returned(Err(err)), [account], None)
        case Fits(data) =>
          match Overwrite(data, greeting)
          case None => Effect(Panicked(BufferLengthMismatch), [account.(data := data)], None)
          case Some(written) =>
            var updated := account.(data := written);
            if |feesTx.input| == 0 then
              Effect(Panicked(MissingFeeInput), [updated], None)
            else
              var tx := AssembleTx(host.anchor(updated), feesTx.input[0]);
              var request := SigningRequest(tx, account.key, host);
              Effect(Returned(host.submit([updated], request)), [updated], Some(Submission(tx, request)))
  }

  /** `process_instruction` on the accounts' states. */
  function Process(accounts: seq<AccountState>, payload: seq<byte>, host: Host): Effect
  {
    if |accounts| != 1 then Effect(Returned(Err(Custom(WRONG_ACCOUNT_COUNT))), accounts, None)
    else Handle(accounts[0], payload, host)
  }

  /** `process_instruction`, changing the one account's buffer in place. The
      program id is unused, as in the source. */
  method ProcessInstruction(programId: Pubkey, accounts: seq<AccountInfo>, instructionData: seq<byte>, host: Host)
    returns (outcome: Outcome, submitted: Option<Submission>)
    modifies accounts
    ensures Effect(outcome, States(accounts), submitted) == Process(old(States(accounts)), instructionData, host)
  {
    if |accounts| != 1 {
      return Returned(Err(Custom(WRONG_ACCOUNT_COUNT))), None;
    }
    var account := accounts[0];

    var decoded := Borsh.Decode(instructionData);
    if decoded.None? {
      return Panicked(MalformedInstructionData), None;
    }
    var params := decoded.value;

    var feesDecoded := host.deserializeTx(params.txHex);
    if feesDecoded.None? {
      return Panicked(MalformedFeeTransaction), None;
    }
    var feesTx := feesDecoded.value;

    var newData := Greeting(params.name);

    var dataLen := |account.data|;
    if |newData| > dataLen {
      var r := account.Realloc(|newData|, host);
      if r.Err? {
        return Returned(r), None;
      }
    }

    var written := account.CopyFromSlice(newData);
    if !written {
      return Panicked(BufferLengthMismatch), None;
    }

    var tx := Transaction(VERSION_TWO, LOCK_TIME_ZERO, [], []);
    tx := AddStateTransition(tx, host.anchor(account.State()));
    if |feesTx.input| == 0 {
      return Panicked(MissingFeeInput), None;
    }
    tx := tx.(input := tx.input + [feesTx.input[0]]);
    assert tx == AssembleTx(host.anchor(account.State()), feesTx.input[0]);

    var txToSign := SigningRequest(tx, account.key, host);
    assert States(accounts) == [account.State()];
    var result := host.submit(States(accounts), txToSign);
    return Returned(result), Some(Submission(tx, txToSign));
  }

  /** Any account list whose length is not 1 is rejected with custom error
      501 before anything else happens: no buffer changes, nothing is submitted. */
  lemma WrongAccountCountRejected(accounts: seq<AccountState>, payload: seq<byte>, host: Host)
    requires |accounts| != 1
    ensures Process(accounts, payload, host).outcome == Returned(Err(Custom(501)))
    ensures Process(accounts, payload, host).accounts == accounts
    ensures Process(accounts, payload, host).submitted == None
  {
  }

  /** Every invocation keeps the number of accounts and their keys; only data
      buffers change. */
  lemma KeysPreserved(accounts: seq<AccountState>, payload: seq<byte>, host: Host)
    ensures |Process(accounts, payload, host).accounts| == |accounts|
    ensures forall i :: 0 <= i < |accounts| ==> Process(accounts, payload, host).accounts[i].key == accounts[i].key
  {
  }

  /** A payload or a fee transaction that does not decode aborts the
      invocation before the buffer is touched or anything is submitted. */
  lemma MalformedInputsChangeNothing(account: AccountState, payload: seq<byte>, host: Host)
    requires Borsh.Decode(payload).None? || host.deserializeTx(Borsh.Decode(payload).value.txHex).None?
    ensures Process([account], payload, host).accounts == [account]
    ensures Process([account], payload, host).submitted == None
    ensures Process([account], payload, host).outcome ==
      Panicked(if Borsh.Decode(payload).None? then MalformedInstructionData else MalformedFeeTransaction)
  {
  }

  /** When the runtime refuses to grow the buffer, its error is returned and
      the buffer is left as it was. */
  lemma ReallocRefusalReturned(account: AccountState, payload: seq<byte>, host: Host, p: Borsh.HelloWorldParams)
    requires Borsh.Decode(payload) == Some(p) && host.deserializeTx(p.txHex).Some?
    requires |Greeting(p.name)| > |account.data|
    requires host.reallocError(|account.data|, |Greeting(p.name)|).Some?
    ensures Process([account], payload, host).outcome ==
      Returned(Err(host.reallocError(|account.data|, |Greeting(p.name)|).value))
    ensures Process([account], payload, host).accounts == [account]
    ensures Process([account], payload, host).submitted == None
  {
  }

  /** The length hazard as the source has it: a buffer strictly longer than
      the greeting is never shrunk, so `copy_from_slice` panics, leaving the
      buffer unchanged and submitting nothing. */
  lemma LongerBufferPanics(account: AccountState, payload: seq<byte>, host: Host, p: Borsh.HelloWorldParams)
    requires Borsh.Decode(payload) == Some(p) && host.deserializeTx(p.txHex).Some?
    requires |account.data| > 6 + |p.name|
    ensures Process([account], payload, host).outcome == Panicked(BufferLengthMismatch)
    ensures Process([account], payload, host).accounts == [account]
    ensures Process([account], payload, host).submitted == None
  {
  }

  /** When the payload and the fee transaction decode, the buffer is not
      longer than the greeting and any needed resize is allowed, the buffer
      ends up holding exactly "Hello " followed by the name, even if the
      fee transaction then turns out to have no input (which panics after
      the write). A request is submitted exactly when that input exists. */
  lemma GreetingStored(account: AccountState, payload: seq<byte>, host: Host, p: Borsh.HelloWorldParams, fees: Transaction)
    requires Borsh.Decode(payload) == Some(p) && host.deserializeTx(p.txHex) == Some(fees)
    requires |account.data| <= 6 + |p.name|
    requires |account.data| < 6 + |p.name| ==> host.reallocError(|account.data|, 6 + |p.name|).None?
    ensures Process([account], payload, host).accounts == [AccountState(account.key, HELLO + p.name)]
    ensures |Process([account], payload, host).accounts[0].data| == 6 + |p.name|
    ensures Process([account], payload, host).submitted.Some? <==> |fees.input| > 0
    ensures |fees.input| == 0 ==> Process([account], payload, host).outcome == Panicked(MissingFeeInput)
  {
  }

  /** What is submitted: a version-2, lock-time-0 transaction whose inputs
      are the anchoring inputs followed by exactly the fee transaction's
      first input, and a request naming input 0 with the account's key as
      the only signer. The handler returns whatever the host answers. */
  lemma SubmissionShape(account: AccountState, payload: seq<byte>, host: Host, p: Borsh.HelloWorldParams, fees: Transaction)
    requires Borsh.Decode(payload) == Some(p) && host.deserializeTx(p.txHex) == Some(fees)
    requires Process([account], payload, host).submitted.Some?
    ensures |fees.input| > 0
    ensures var e := Process([account], payload, host);
      var s := e.submitted.value;
      var updated := AccountState(account.key, Greeting(p.name));
      && e.accounts == [updated]
      && s.tx.version == 2 && s.tx.lockTime == 0
      && s.tx.input == host.anchor(updated).inputs + [fees.input[0]]
      && s.tx.output == host.anchor(updated).outputs
      && s.request.inputsToSign == [InputToSign(0, account.key)]
      && s.request.txBytes == host.serializeTx(s.tx)
      && e.outcome == Returned(host.submit([updated], s.request))
  {
  }

  /** End to end: a 5-byte buffer and the name "Bob" with a one-input fee
      transaction. The buffer is grown to 9 bytes and becomes "Hello Bob",
      and the submitted transaction ends with the fee input. */
  lemma HelloBob(key: Pubkey, data: seq<byte>, feeBytes: seq<byte>, fees: Transaction, host: Host)
    requires |data| == 5 && |feeBytes| < Borsh.U32_LIMIT
    requires host.deserializeTx(feeBytes) == Some(fees) && |fees.input| == 1
    requires host.reallocError(5, 9).None?
    ensures var e := Process([AccountState(key, data)], Borsh.Encode(Borsh.HelloWorldParams(Ascii("Bob"), feeBytes)).value, host);
      var updated := AccountState(key, Ascii("Hello Bob"));
      && e.accounts == [updated]
      && |e.accounts[0].data| == 9
      && e.submitted.Some?
      && e.submitted.value.tx.input == host.anchor(updated).inputs + fees.input
      && e.outcome == Returned(host.submit([updated], e.submitted.value.request))
  {
    var p := Borsh.HelloWorldParams(Ascii("Bob"), feeBytes);
    Borsh.RoundTrip(p);
    var payload := Borsh.Encode(p).value;
    GreetingExamples();
    GreetingStored(AccountState(key, data), payload, host, p, fees);
    SubmissionShape(AccountState(key, data), payload, host, p, fees);
    assert fees.input == [fees.input[0]];
  }

  /** The hazard in practice: once an invocation greeting an account as
      "Alice" has succeeded (11 bytes stored, request accepted by the host),
      greeting it as "Bob" (9 bytes) panics, and the buffer keeps "Hello Alice". */
  lemma ShorterNameAfterLongerPanics(key: Pubkey, data: seq<byte>, feeBytes: seq<byte>, fees: Transaction, host: Host)
    requires |data| <= 11 && |feeBytes| < Borsh.U32_LIMIT
    requires host.deserializeTx(feeBytes) == Some(fees)
    requires |data| < 11 ==> host.reallocError(|data|, 11).None?
    requires |fees.input| > 0
    requires var greeted := AccountState(key, Ascii("Hello Alice"));
      host.submit([greeted], SigningRequest(AssembleTx(host.anchor(greeted), fees.input[0]), key, host)) == Ok
    ensures var first := Process([AccountState(key, data)], Borsh.Encode(Borsh.HelloWorldParams(Ascii("Alice"), feeBytes)).value, host);
      var second := Process(first.accounts, Borsh.Encode(Borsh.HelloWorldParams(Ascii("Bob"), feeBytes)).value, host);
      && first.outcome == Returned(Ok)
      && first.accounts == [AccountState(key, Ascii("Hello Alice"))]
      && second.outcome == Panicked(BufferLengthMismatch)
      && second.accounts == first.accounts
      && second.submitted == None
  {
    var alice := Borsh.HelloWorldParams(Ascii("Alice"), feeBytes);
    var bob := Borsh.HelloWorldParams(Ascii("Bob"), feeBytes);
    Borsh.RoundTrip(alice);
    Borsh.RoundTrip(bob);
    GreetingExamples();
    GreetingStored(AccountState(key, data), Borsh.Encode(alice).value, host, alice, fees);
    SubmissionShape(AccountState(key, data), Borsh.Encode(alice).value, host, alice, fees);
    LongerBufferPanics(AccountState(key, Ascii("Hello Alice")), Borsh.Encode(bob).value, host, bob);
  }
}
