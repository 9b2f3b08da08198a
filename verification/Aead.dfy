/** The two data-path ciphers and the cryptographic primitives, taken as ideal:
    functions with the correctness laws the protocol relies on. */
module Aead {
  import opened Words
  import opened Bytes
  import opened Results

  datatype AeadAlgo = ChaCha20Poly1305 | Aegis256X2 {

    function AsU8(): byte {
      match this
      case ChaCha20Poly1305 => 0x01
      case Aegis256X2 => 0x02
    }

    function NonceLen(): nat {
      match this
      case ChaCha20Poly1305 => 12
      case Aegis256X2 => 32
    }

    function TagLen(): nat {
      match this
      case ChaCha20Poly1305 => 16
      case Aegis256X2 => 32
    }
  }

  function FromU8(v: byte): Result<AeadAlgo> {
    if v == 0x01 then Ok(ChaCha20Poly1305)
    else if v == 0x02 then Ok(Aegis256X2)
    else Err(HandshakeError("aead"))
  }

  function Negotiate(local: AeadAlgo, peer: AeadAlgo): AeadAlgo {
    if local == Aegis256X2 && peer == Aegis256X2 then Aegis256X2 else ChaCha20Poly1305
  }

  /** AEGIS exactly when both sides prefer it; so both ends choose alike. */
  lemma NegotiateIff(a: AeadAlgo, b: AeadAlgo)
    ensures Negotiate(a, b) == Aegis256X2 <==> a == Aegis256X2 && b == Aegis256X2
    ensures Negotiate(a, b) == Negotiate(b, a)
  {}

  lemma AlgoIff(v: byte, a: AeadAlgo)
    ensures FromU8(v) == Ok(a) <==> a.AsU8() == v
    ensures FromU8(v).Ok? <==> v == 1 || v == 2
    ensures a.AsU8() == (if a == Aegis256X2 then 2 else 1)
    ensures a.NonceLen() == (if a == Aegis256X2 then 32 else 12) && a.TagLen() == (if a == Aegis256X2 then 32 else 16)
  {}

  const ZERO32: bytes := seq(32, _ => 0)

  /** A keyed 32-byte MAC (HMAC-SHA256). */
  type Mac = f: (bytes, bytes) -> bytes | forall k, m :: |f(k, m)| == 32
    ghost witness (k: bytes, m: bytes) => ZERO32

  /** The two directions of one AEAD. `open` returns nothing when the tag fails. */
  datatype Cipher = Cipher(
    seal: (AeadAlgo, bytes, bytes, bytes, bytes) -> bytes,
    open: (AeadAlgo, bytes, bytes, bytes, bytes) -> Option<bytes>)
  {
    /** What was sealed opens again under the same key, nonce and associated data,
        and sealing adds exactly one tag. */
    ghost predicate Correct() {
      forall algo, key, nonce, aad, plain ::
        var ct := seal(algo, key, nonce, aad, plain);
        && |ct| == |plain| + algo.TagLen()
        && open(algo, key, nonce, aad, ct) == Some(plain)
    }
  }
}
