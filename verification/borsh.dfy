/** The Borsh wire format of `HelloWorldParams`: each field in declaration
    order, a `String` or `Vec<u8>` as its length in four little-endian bytes
    (a u32) followed by its bytes. Decoding a whole payload (`from_slice`)
    fails on a truncated field and on bytes left over after the last field. */
module Borsh {
  import opened Common

  /** One more than the largest u32. */
  const U32_LIMIT: nat := 0x1_0000_0000

  function Pow256(k: nat): (p: nat)
    ensures p > 0
  {
    if k == 0 then 1 else 256 * Pow256(k - 1)
  }

  /** The number whose little-endian bytes are `b`; it fits in `|b|` bytes. */
  function FromLE(b: seq<byte>): (n: nat)
    ensures n < Pow256(|b|)
  {
    if b == [] then 0 else b[0] as nat + 256 * FromLE(b[1..])
  }

  /** The `k` little-endian bytes of `n`. */
  function ToLE(n: nat, k: nat): (b: seq<byte>)
    requires n < Pow256(k)
    ensures |b| == k
  {
    if k == 0 then [] else [(n % 256) as byte] + ToLE(n / 256, k - 1)
  }

  /** Reading back the bytes of a number gives the number. */
  lemma {:induction false} FromToLE(n: nat, k: nat)
    requires n < Pow256(k)
    ensures FromLE(ToLE(n, k)) == n
  {
    if k > 0 {
      FromToLE(n / 256, k - 1);
      assert ToLE(n, k)[1..] == ToLE(n / 256, k - 1);
    }
  }

  /** Writing the number of some bytes gives those bytes back: the
      little-endian form of a number of a fixed width is unique. */
  lemma {:induction false} ToFromLE(b: seq<byte>)
    ensures ToLE(FromLE(b), |b|) == b
  {
    if b != [] {
      ToFromLE(b[1..]);
      var n := FromLE(b);
      assert n % 256 == b[0] as int && n / 256 == FromLE(b[1..]);
    }
  }

  lemma U32Width()
    ensures Pow256(4) == U32_LIMIT
  {
  }

  /** A length-prefixed field: its length as a u32, then its bytes. */
  function EncodeField(v: seq<byte>): (b: seq<byte>)
    requires |v| < U32_LIMIT
  {
    U32Width();
    ToLE(|v|, 4) + v
  }

  /** Reads one length-prefixed field from the front of `s`, giving the field
      and the bytes after it; None when the prefix or the field is cut short. */
  function DecodeField(s: seq<byte>): Option<(seq<byte>, seq<byte>)>
  {
    if |s| < 4 then None
    else
      var n := FromLE(s[..4]);
      if |s| - 4 < n then None else Some((s[4..4 + n], s[4 + n..]))
  }

  /** A field reads back as itself, whatever follows it. */
  lemma DecodeEncodedField(v: seq<byte>, rest: seq<byte>)
    requires |v| < U32_LIMIT
    ensures DecodeField(EncodeField(v) + rest) == Some((v, rest))
  {
    U32Width();
    var s := EncodeField(v) + rest;
    assert s[..4] == ToLE(|v|, 4);
    FromToLE(|v|, 4);
    assert s[4..4 + |v|] == v;
    assert s[4 + |v|..] == rest;
  }

  /** What `DecodeField` reads is exactly an encoded field followed by the rest. */
  lemma EncodeDecodedField(s: seq<byte>, v: seq<byte>, rest: seq<byte>)
    requires DecodeField(s) == Some((v, rest))
    ensures |v| < U32_LIMIT
    ensures EncodeField(v) + rest == s
  {
    U32Width();
    ToFromLE(s[..4]);
    assert s == s[..4] + s[4..4 + |v|] + s[4 + |v|..];
  }

  /** `HelloWorldParams { name, tx_hex }`; the name is kept as bytes. */
  datatype HelloWorldParams = HelloWorldParams(name: seq<byte>, txHex: seq<byte>)

  /** Borsh can serialize a value only when every length fits in a u32. */
  predicate Encodable(p: HelloWorldParams)
  {
    |p.name| < U32_LIMIT && |p.txHex| < U32_LIMIT
  }

  /** Serialization: `name` first, then `tx_hex`; None on a length overflow. */
  function Encode(p: HelloWorldParams): Option<seq<byte>>
  {
    if Encodable(p) then Some(EncodeField(p.name) + EncodeField(p.txHex)) else None
  }

  /** `borsh::from_slice`: both fields in order, with no bytes left over. */
  function Decode(s: seq<byte>): Option<HelloWorldParams>
  {
    match DecodeField(s)
    case None => None
    case Some((name, rest)) =>
      match DecodeField(rest)
      case None => None
      case Some((txHex, tail)) =>
        if tail == [] then Some(HelloWorldParams(name, txHex)) else None
  }

  /** Round trip: every value that serializes decodes back to itself. */
  lemma RoundTrip(p: HelloWorldParams)
    ensures Encode(p).Some? <==> Encodable(p)
    ensures Encode(p).Some? ==> Decode(Encode(p).value) == Some(p)
  {
    if Encodable(p) {
      var b := Encode(p).value;
      DecodeEncodedField(p.name, EncodeField(p.txHex));
      assert b == EncodeField(p.name) + EncodeField(p.txHex);
      DecodeEncodedField(p.txHex, []);
      assert EncodeField(p.txHex) + [] == EncodeField(p.txHex);
    }
  }

  /** The encoding is canonical: a payload that decodes is exactly the
      serialization of what it decodes to. */
  lemma Canonical(s: seq<byte>)
    requires Decode(s).Some?
    ensures Encode(Decode(s).value) == Some(s)
  {
    var p := Decode(s).value;
    var (name, rest) := DecodeField(s).value;
    var (txHex, tail) := DecodeField(rest).value;
    EncodeDecodedField(s, name, rest);
    EncodeDecodedField(rest, txHex, tail);
    assert tail == [];
    assert rest == EncodeField(txHex);
  }

  /** Field order: the u32 length of `name`, the name, the u32 length of
      `tx_hex`, then `tx_hex`, with nothing after it. */
  lemma FieldOrder(p: HelloWorldParams)
    requires Encodable(p)
    ensures var b := Encode(p).value;
      && |b| == 8 + |p.name| + |p.txHex|
      && FromLE(b[..4]) == |p.name|
      && b[4..4 + |p.name|] == p.name
      && FromLE(b[4 + |p.name|..8 + |p.name|]) == |p.txHex|
      && b[8 + |p.name|..] == p.txHex
  {
    U32Width();
    var b := Encode(p).value;
    var n := |p.name|;
    FromToLE(n, 4);
    FromToLE(|p.txHex|, 4);
    assert b[..4] == ToLE(n, 4);
    assert b[4 + n..8 + n] == ToLE(|p.txHex|, 4);
  }
}
