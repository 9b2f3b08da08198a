/** The two directions of a session, and the seals of both ends together. */
module Directions {
  import opened Words
  import opened Bytes
  import opened Aead
  import opened Obf
  import opened Sessions
  import opened Senders
  import opened DataPlane

  /** Labels derive keys of their own. */
  ghost predicate SeparatesLabels(kdf: Kdf) {
    forall salt, ikm, a, b | a != b :: kdf(salt, ikm, a) != kdf(salt, ikm, b)
  }

  function Derived(kdf: Kdf, shared: bytes, info: string): bytes {
    kdf("Chameleon-PQ-v1-directional", shared, info)
  }

  /** The initiator sends with the A->B keys and salt 1 and receives with the B->A keys and
      salt 2; the responder the reverse. Under a key derivation that separates labels the
      keys of the two directions differ, and header keys differ from packet keys. */
  lemma DirectionKeys(kdf: Kdf, id: u32, shared: bytes, algo: AeadAlgo)
    ensures var i, r := DeriveSession(kdf, id, shared, true, algo), DeriveSession(kdf, id, shared, false, algo);
            && i.txKey == r.rxKey == Derived(kdf, shared, "key-A->B") && i.rxKey == r.txKey == Derived(kdf, shared, "key-B->A")
            && i.txObf == r.rxObf == Derived(kdf, shared, "obf-A->B") && i.rxObf == r.txObf == Derived(kdf, shared, "obf-B->A")
            && i.txSalt == r.rxSalt == [1, 0, 0, 0] && i.rxSalt == r.txSalt == [2, 0, 0, 0]
            && i.id == r.id == id && i.algo == r.algo == algo
            && (SeparatesLabels(kdf) ==>
                  i.txKey != i.rxKey && i.txObf != i.rxObf && i.txKey != i.txObf && i.rxKey != i.rxObf)
  {
    assert "key-A->B"[4] != "key-B->A"[4] && "obf-A->B"[4] != "obf-B->A"[4];
    assert "key-A->B"[0] != "obf-A->B"[0] && "key-B->A"[0] != "obf-B->A"[0];
  }

  /** No nonce of one direction is a nonce of the other, whatever the keys are. */
  lemma NoncesOfDirectionsDiffer(kdf: Kdf, id: u32, shared: bytes, algo: AeadAlgo, c: u64, d: u64)
    ensures var i, r := DeriveSession(kdf, id, shared, true, algo), DeriveSession(kdf, id, shared, false, algo);
            Nonce(algo, i.txSalt, c) != Nonce(algo, r.txSalt, d)
  {
    var i, r := DeriveSession(kdf, id, shared, true, algo), DeriveSession(kdf, id, shared, false, algo);
    assert Nonce(algo, i.txSalt, c)[0] == 1 && Nonce(algo, r.txSalt, d)[0] == 2;
  }

  /** A nonce is the salt, the counter in little-endian, and zeros up to the cipher's length. */
  lemma NonceBytes(algo: AeadAlgo, salt: bytes, c: u64, k: nat)
    requires |salt| == 4 && k < algo.NonceLen()
    ensures Nonce(algo, salt, c)[k] == if k < 4 then salt[k] else if k < 12 then LE(c, 8)[k - 4] else 0
  {}

  /** The secrets of the sessions two ends share, and which end was initiator in each. */
  datatype Pair = Pair(mac: Mac, rekeyAt: u64, kdf: Kdf, id: nat -> u32, shared: nat -> bytes,
                       algo: nat -> AeadAlgo, initiator: nat -> bool)

  /** One end: it plays the initiator where `initiator` says so, the other end elsewhere. */
  ghost function EndOf(p: Pair, first: bool): (cfg: Senders.Config)
    ensures cfg.Valid()
  {
    var keys := (s: nat) => DeriveSession(p.kdf, p.id(s), p.shared(s), p.initiator(s) == first, p.algo(s));
    assert forall s: nat :: WellSalted(keys(s)) by {
      forall s: nat ensures WellSalted(keys(s)) {
        assert keys(s) == DeriveSession(p.kdf, p.id(s), p.shared(s), p.initiator(s) == first, p.algo(s));
      }
    }
    Config(p.mac, p.rekeyAt, keys)
  }

  lemma EndsNoncesDiffer(p: Pair, s: nat, c: u64, d: u64)
    ensures var ka, kb := EndOf(p, true).keys(s), EndOf(p, false).keys(s);
            && WellSalted(ka) && WellSalted(kb)
            && Nonce(ka.algo, ka.txSalt, c) != Nonce(kb.algo, kb.txSalt, d)
  {
    if p.initiator(s) {
      NoncesOfDirectionsDiffer(p.kdf, p.id(s), p.shared(s), p.algo(s), c, d);
    } else {
      NoncesOfDirectionsDiffer(p.kdf, p.id(s), p.shared(s), p.algo(s), d, c);
    }
  }

  /** Over any two runs, one at each end: no two seals of a session, of one end or of both,
      share a nonce; so no key ever meets a nonce twice even if both directions had one key. */
  lemma NoNonceTwiceBothEnds(p: Pair, a: seq<System>, b: seq<System>)
    requires IsRun(EndOf(p, true), a) && IsRun(EndOf(p, false), b)
    requires NoWrap(Last(a).sender) && NoWrap(Last(b).sender)
    ensures var la, lb := Last(a).sender.log, Last(b).sender.log;
            && (forall k, l | 0 <= k < l < |la| && la[k].session == la[l].session :: la[k].nonce != la[l].nonce)
            && (forall k, l | 0 <= k < l < |lb| && lb[k].session == lb[l].session :: lb[k].nonce != lb[l].nonce)
            && (forall k, l | 0 <= k < |la| && 0 <= l < |lb| && la[k].session == lb[l].session :: la[k].nonce != lb[l].nonce)
  {
    CountersNeverReused(EndOf(p, true), a);
    CountersNeverReused(EndOf(p, false), b);
    RunKeepsInv(EndOf(p, true), a);
    RunKeepsInv(EndOf(p, false), b);
    var la, lb := Last(a).sender.log, Last(b).sender.log;
    forall k, l | 0 <= k < |la| && 0 <= l < |lb| && la[k].session == lb[l].session
      ensures la[k].nonce != lb[l].nonce
    {
      NonceOf(EndOf(p, true), Last(a).sender, k);
      NonceOf(EndOf(p, false), Last(b).sender, l);
      EndsNoncesDiffer(p, la[k].session, la[k].counter, lb[l].counter);
    }
  }

  lemma NonceOf(cfg: Senders.Config, s: Sender, k: nat)
    requires cfg.Valid() && Inv(cfg, s) && k < |s.log|
    ensures var keys := cfg.keys(s.log[k].session); s.log[k].nonce == Nonce(keys.algo, keys.txSalt, s.log[k].counter)
  {
    assert SealOk(cfg, s.batches, s.log[k]);
  }
}
