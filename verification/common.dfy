/** Small vocabulary shared by the rest of the model: bytes, optional values,
    zero-filled buffers and ASCII text as bytes. */
module Common {

  /** An unsigned 8-bit value, the element type of every buffer in the model. */
  newtype byte = x: int | 0 <= x < 256

  datatype Option<T> = None | Some(value: T)

  /** `n` zero bytes: what the runtime writes into a buffer's newly grown region. */
  function Zeros(n: nat): (z: seq<byte>)
    ensures |z| == n
    ensures forall i :: 0 <= i < n ==> z[i] == 0
  {
    seq(n, _ => 0)
  }

  /** The bytes of a string literal whose characters are all single-byte. */
  function Ascii(s: string): (b: seq<byte>)
    requires forall i :: 0 <= i < |s| ==> s[i] as int < 256
    ensures |b| == |s|
    ensures forall i :: 0 <= i < |s| ==> b[i] as int == s[i] as int
  {
    seq(|s|, i requires 0 <= i < |s| => s[i] as int as byte)
  }
}
