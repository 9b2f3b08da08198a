/** The hybrid authenticator: several signature schemes in a fixed order, all of which
    must verify. */
module HybridAuths {
  import opened Bytes
  import opened Results

  /** One scheme, with the length it announces for its signatures. */
  datatype Leg = Leg(sigLen: nat, sign: bytes -> Result<bytes>, verify: (bytes, bytes) -> bool)

  /** Where leg k's part of the signature starts. */
  function Offset(legs: seq<Leg>, k: nat): nat
    requires k <= |legs|
  {
    if k == 0 then 0 else Offset(legs, k - 1) + legs[k - 1].sigLen
  }

  /** Leg k verifies its own part of the signature, which is there in full. */
  predicate LegVerifies(legs: seq<Leg>, k: nat, hash: bytes, signature: bytes)
    requires k < |legs|
  {
    && Offset(legs, k + 1) <= |signature|
    && legs[k].verify(hash, signature[Offset(legs, k)..Offset(legs, k + 1)])
  }

  function Parts(legs: seq<Leg>, hash: bytes): seq<bytes>
    requires forall k | 0 <= k < |legs| :: legs[k].sign(hash).Ok?
  {
    seq(|legs|, k requires 0 <= k < |legs| => legs[k].sign(hash).value)
  }

  method Sign(legs: seq<Leg>, hash: bytes) returns (r: Result<bytes>)
    ensures r.Ok? <==> forall k | 0 <= k < |legs| :: legs[k].sign(hash).Ok?
    ensures r.Ok? ==> r.value == Concat(Parts(legs, hash))
  {
    var out: bytes := [];
    for k := 0 to |legs|
      invariant forall j | 0 <= j < k :: legs[j].sign(hash).Ok?
      invariant out == Concat(Parts(legs[..k], hash))
    {
      var part := legs[k].sign(hash);
      if part.Err? {
        return part;
      }
      ConcatOne(Parts(legs[..k], hash), part.value);
      assert Parts(legs[..k + 1], hash) == Parts(legs[..k], hash) + [part.value];
      out := out + part.value;
    }
    assert legs[..|legs|] == legs;
    return Ok(out);
  }

  method Verify(legs: seq<Leg>, hash: bytes, signature: bytes) returns (ok: bool)
    ensures ok <==> forall k | 0 <= k < |legs| :: LegVerifies(legs, k, hash, signature)
  {
    var offset := 0;
    for k := 0 to |legs|
      invariant offset == Offset(legs, k) <= |signature|
      invariant forall j | 0 <= j < k :: LegVerifies(legs, j, hash, signature)
    {
      var len := legs[k].sigLen;
      if offset + len > |signature| || !legs[k].verify(hash, signature[offset..offset + len]) {
        assert !LegVerifies(legs, k, hash, signature);
        return false;
      }
      offset := offset + len;
    }
    return true;
  }

  /** The legs keep to their announced lengths. */
  predicate FixedLength(legs: seq<Leg>, hash: bytes) {
    forall k | 0 <= k < |legs| :: legs[k].sign(hash).Ok? && |legs[k].sign(hash).value| == legs[k].sigLen
  }

  predicate VerifiesOwn(leg: Leg, hash: bytes) {
    leg.sign(hash).Ok? && leg.verify(hash, leg.sign(hash).value)
  }

  lemma {:induction false} PartAt(legs: seq<Leg>, hash: bytes, k: nat, n: nat)
    requires FixedLength(legs, hash) && k < n <= |legs|
    ensures |Concat(Parts(legs[..n], hash))| == Offset(legs, n)
    ensures Offset(legs, k + 1) <= Offset(legs, n)
    ensures Concat(Parts(legs[..n], hash))[Offset(legs, k)..Offset(legs, k + 1)] == legs[k].sign(hash).value
  {
    var before := Parts(legs[..n - 1], hash);
    var last := legs[n - 1].sign(hash).value;
    assert Parts(legs[..n], hash) == before + [last];
    ConcatOne(before, last);
    if k < n - 1 {
      PartAt(legs, hash, k, n - 1);
    } else if n > 1 {
      PartAt(legs, hash, 0, n - 1);
    }
  }

  /** With fixed-length legs the slices fall where the parts were put: what was signed
      verifies exactly when every leg verifies its own signature, and bytes after the last
      part change nothing. */
  lemma SignThenVerify(legs: seq<Leg>, hash: bytes, extra: bytes)
    requires FixedLength(legs, hash)
    ensures (forall k | 0 <= k < |legs| :: LegVerifies(legs, k, hash, Concat(Parts(legs, hash)) + extra))
       <==> (forall k | 0 <= k < |legs| :: VerifiesOwn(legs[k], hash))
  {
    var signature := Concat(Parts(legs, hash)) + extra;
    if forall k | 0 <= k < |legs| :: LegVerifies(legs, k, hash, signature) {
      forall k | 0 <= k < |legs| ensures VerifiesOwn(legs[k], hash) {
        LegReadsItsOwn(legs, hash, extra, k);
      }
    } else {
      var k :| 0 <= k < |legs| && !LegVerifies(legs, k, hash, signature);
      LegReadsItsOwn(legs, hash, extra, k);
      assert !VerifiesOwn(legs[k], hash);
    }
  }

  lemma LegReadsItsOwn(legs: seq<Leg>, hash: bytes, extra: bytes, k: nat)
    requires FixedLength(legs, hash) && k < |legs|
    ensures LegVerifies(legs, k, hash, Concat(Parts(legs, hash)) + extra) <==> VerifiesOwn(legs[k], hash)
  {
    assert legs[..|legs|] == legs;
    PartAt(legs, hash, k, |legs|);
    assert (Concat(Parts(legs, hash)) + extra)[Offset(legs, k)..Offset(legs, k + 1)] == legs[k].sign(hash).value;
  }
}
