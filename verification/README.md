# Hello-world instruction handler, modelled in Dafny

This project models the on-chain program of the `helloworld` example: its one
instruction handler `process_instruction` and the Borsh wire format of its
parameters `HelloWorldParams { name, tx_hex }`.

The handler does these steps in order:
1. It rejects an account list whose length is not 1 with `Custom(501)`.
2. It decodes the payload and then the fee transaction carried in `tx_hex`.
3. It builds the greeting `"Hello " + name`.
4. It grows the account's buffer (zero-filled) only when the greeting is longer.
5. It overwrites the buffer with the greeting.
6. It builds a version-2, lock-time-0 transaction. Its inputs are those of the
   state transition, then the first input of the fee transaction.
7. It asks the host to have input 0 signed by the account's key.

Files:
- `common.dfy`: bytes, `Option`, zero-filled buffers, ASCII literals as bytes.
- `borsh.dfy`: u32 little-endian length prefixes and the `HelloWorldParams`
  codec, with its round trip in both directions.
- `bitcoin.dfy`: the transaction fields the handler touches.
- `runtime.dfy`: program errors, signing requests and the host services.
  The host services are a record of function values (`Host`), so every
  property holds for every host. `AccountInfo` is a class whose `data`
  buffer `Realloc` and `CopyFromSlice` change in place.
- `helloworld.dfy`: the pure steps and `Process`, which specifies one
  invocation. `ProcessInstruction` is the imperative handler, proved equal
  to `Process`. The lemmas about `Process` follow.

A panic in the source (an `unwrap` on a bad payload or fee transaction,
`copy_from_slice` on a buffer of the wrong length, `input[0]` on an empty
input list) is the outcome `Panicked(reason)`, not a precondition.
`Process` reports the buffers as they are at the point of the panic.

Behaviour worth noting:
- A payload or fee transaction that does not decode makes the source panic
  through `unwrap` (lib.rs:49, 52); no error value is returned.
- A fee transaction with no inputs panics at `input[0]` (lib.rs:84). This
  comes after the greeting is written (lib.rs:72), so the write has already
  happened (`GreetingStored`).
- A 5-byte buffer greeted as "Bob" is grown to the 9 bytes of "Hello Bob" (`HelloBob`).
- A buffer longer than the greeting is never shrunk, so `copy_from_slice`
  panics (`LongerBufferPanics`). An account greeted once as "Alice" can
  therefore never be greeted as "Bob" (`ShorterNameAfterLongerPanics`).

## Model

| member | source | states |
|---|---|---|
| Borsh.FromToLE | examples/helloworld/program/src/lib.rs:102-108 | reading back the k little-endian bytes of a number below 256^k gives the number |
| Borsh.ToFromLE | examples/helloworld/program/src/lib.rs:102-108 | writing the value of a byte string in the same width gives the bytes back |
| Borsh.DecodeEncodedField | examples/helloworld/program/src/lib.rs:105-107 | a length-prefixed field reads back as itself whatever follows it |
| Borsh.EncodeDecodedField | examples/helloworld/program/src/lib.rs:105-107 | whatever reads as a field is exactly that field's encoding followed by the rest, and its length fits a u32 |
| Borsh.RoundTrip | examples/helloworld/program/src/lib.rs:102-108 | serialization succeeds exactly when both lengths fit a u32, and decoding its output gives back the same `name` and `tx_hex` |
| Borsh.Canonical | examples/helloworld/program/src/lib.rs:102-108 | every payload that decodes is exactly the serialization of its decoded value (no trailing bytes, one encoding per value) |
| Borsh.FieldOrder | examples/helloworld/program/src/lib.rs:103-108 | the encoding is the u32 length of `name`, `name`, the u32 length of `tx_hex`, `tx_hex`, and nothing else |
| Runtime.ResizedShape | examples/helloworld/program/src/lib.rs:60 | a zero-initialising realloc gives length exactly `newLen`, keeps the old bytes that fit and zero-fills the rest |
| Runtime.AddStateTransition | examples/helloworld/program/src/lib.rs:83 | the anchoring step only appends inputs and outputs; version, lock time and the existing inputs and outputs are kept |
| Runtime.AccountInfo.Realloc | examples/helloworld/program/src/lib.rs:60 | the buffer is resized and zero-filled if and only if the runtime allows it; otherwise its error is returned and the buffer is untouched |
| Runtime.AccountInfo.CopyFromSlice | examples/helloworld/program/src/lib.rs:68-72 | the write succeeds if and only if the lengths are equal, and then the buffer equals the source; otherwise (the panic) the buffer is untouched |
| HelloWorld.GreetingLayout | examples/helloworld/program/src/lib.rs:55 | the greeting is the 6 bytes of "Hello " followed by the name, so its length is 6 + \|name\| |
| HelloWorld.GreetingExamples | examples/helloworld/program/src/lib.rs:55 | the greeting for "Alice" is "Hello Alice" and for "Bob" is "Hello Bob" |
| HelloWorld.ReconcileGrowsOnlyWhenLonger | examples/helloworld/program/src/lib.rs:57-61 | a resize is requested if and only if the greeting is strictly longer; it grows to exactly the greeting's length with zeros; otherwise the buffer is unchanged; a refusal happens only on a requested resize |
| HelloWorld.WriteSucceedsIffNotLonger | examples/helloworld/program/src/lib.rs:58-72 | after the resize guard the write succeeds if and only if the original buffer was at most the greeting's length, and then the buffer is the greeting byte for byte |
| HelloWorld.AssembledShape | examples/helloworld/program/src/lib.rs:74-84 | the built transaction has version 2, lock time 0, the anchoring inputs followed by exactly the fee input, and the anchoring outputs |
| HelloWorld.ProcessInstruction | examples/helloworld/program/src/lib.rs:28-99 | the in-place handler's outcome, final account buffers and submission are exactly those `Process` specifies for the accounts' old states |
| HelloWorld.WrongAccountCountRejected | examples/helloworld/program/src/lib.rs:34-36 | any account count other than 1 returns `Custom(501)` with no buffer changed and nothing submitted |
| HelloWorld.KeysPreserved | examples/helloworld/program/src/lib.rs:28-99 | an invocation keeps the number of accounts and every account's key |
| HelloWorld.MalformedInputsChangeNothing | examples/helloworld/program/src/lib.rs:49-52 | a payload or fee transaction that does not decode panics before any buffer change or submission |
| HelloWorld.ReallocRefusalReturned | examples/helloworld/program/src/lib.rs:59-61 | a refused resize returns the runtime's error with the buffer unchanged and nothing submitted |
| HelloWorld.LongerBufferPanics | examples/helloworld/program/src/lib.rs:58-72 | a buffer strictly longer than the greeting makes `copy_from_slice` panic; the buffer is unchanged and nothing is submitted |
| HelloWorld.GreetingStored | examples/helloworld/program/src/lib.rs:49-84 | with decodable inputs, a buffer no longer than the greeting and an allowed resize, the buffer becomes exactly "Hello " + name (6 + \|name\| bytes); a request is submitted if and only if the fee transaction has an input, otherwise the handler panics after the write |
| HelloWorld.SubmissionShape | examples/helloworld/program/src/lib.rs:74-98 | a submitted transaction has version 2, lock time 0, inputs = anchoring inputs + [fee input 0], the anchoring outputs; the request signs input 0 with the account key only; the result is the host's answer |
| HelloWorld.HelloBob | examples/helloworld/program/src/lib.rs:28-99 | a 5-byte buffer and name "Bob" with a one-input fee transaction: the buffer becomes the 9 bytes "Hello Bob" and the submitted inputs end with the fee input |
| HelloWorld.ShorterNameAfterLongerPanics | examples/helloworld/program/src/lib.rs:55-72 | when an "Alice" invocation succeeds (buffer "Hello Alice", request accepted), a following "Bob" invocation panics in `copy_from_slice`, leaving "Hello Alice" and submitting nothing |

## Left out

- `get_bitcoin_block_height` and `get_account_script_pubkey` (lib.rs:39, 64): their results are only logged and never steer control flow.
- All `msg!` logging (lib.rs:40, 46, 65, 95): output only.
- `next_account_info(...)?` (lib.rs:44): after the length check it cannot fail, so the model takes the only account directly.
- The `entrypoint!` macro (lib.rs:19) and the `RefCell` borrow checks with `unwrap` (lib.rs:58, 70-71): dispatch plumbing, and borrow checks that cannot fail in this single-borrow sequential flow.
- Bitcoin consensus encoding and decoding (lib.rs:52, 88): a library wire format, modelled as the host functions `deserializeTx` (partial) and `serializeTx` (opaque bytes).
- The internals of `add_state_transition` (lib.rs:83): a host encoder, modelled as `Host.anchor`, whose inputs and outputs are appended.
- The runtime's rules for `realloc` (size limits and similar): modelled as the host's verdict `reallocError`. The `zero_init = false` mode is not modelled because the handler always passes `true`.
- `set_transaction_to_sign` (lib.rs:98): modelled as the host's answer `submit`. Its internals are not part of this model.
- UTF-8 validity of `name`: the name is a byte string. Borsh's `String` decoding also rejects invalid UTF-8 (a panic through `unwrap`), and the model's `Decode` accepts it.
- The runtime's rollback of account changes after a panic or an error: `Process` reports the buffers at the point of failure.
