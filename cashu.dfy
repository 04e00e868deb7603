/** Locking Cashu proofs to a public key (pay-to-public-key): every proof object gets
    a `p2pk` property holding the key. A proof is a JavaScript object, modelled as its
    own properties in order. */
module Cashu {
  import opened Wrappers
  import opened Json

  type Proof = seq<Field>

  const P2pkKey: string := "p2pk"

  /** `{...proof, p2pk: pubkey}`. */
  function LockProof(proof: Proof, pubkey: string): (r: Proof)
    ensures Get(r, P2pkKey) == Some(JStr(pubkey))
  {
    WithProperty(proof, P2pkKey, JStr(pubkey))
  }

  /** `lockProofs(proofs, pubkey)`: one locked proof per input proof, in the same order. */
  function LockProofs(proofs: seq<Proof>, pubkey: string): (r: seq<Proof>)
    ensures |r| == |proofs|
    ensures forall i :: 0 <= i < |r| ==> r[i] == LockProof(proofs[i], pubkey)
  {
    if proofs == [] then [] else [LockProof(proofs[0], pubkey)] + LockProofs(proofs[1..], pubkey)
  }

  /** Every locked proof names the key, every other property reads as in the
      corresponding input proof, and the properties keep their order. */
  lemma LockedProofs(proofs: seq<Proof>, pubkey: string, i: nat, q: string)
    requires i < |proofs|
    ensures Get(LockProofs(proofs, pubkey)[i], P2pkKey) == Some(JStr(pubkey))
    ensures q != P2pkKey ==> Get(LockProofs(proofs, pubkey)[i], q) == Get(proofs[i], q)
    ensures Keys(LockProofs(proofs, pubkey)[i]) ==
      if Get(proofs[i], P2pkKey).Some? then Keys(proofs[i]) else Keys(proofs[i]) + [P2pkKey]
  {
    GetWithProperty(proofs[i], P2pkKey, JStr(pubkey), P2pkKey);
    GetWithProperty(proofs[i], P2pkKey, JStr(pubkey), q);
    KeysWithProperty(proofs[i], P2pkKey, JStr(pubkey));
  }

  /** Locking again replaces the key: only the last lock is kept. */
  lemma {:induction false} Relock(proofs: seq<Proof>, a: string, b: string)
    ensures LockProofs(LockProofs(proofs, a), b) == LockProofs(proofs, b)
  {
    var twice := LockProofs(LockProofs(proofs, a), b);
    forall i | 0 <= i < |proofs| ensures twice[i] == LockProofs(proofs, b)[i] {
      WithPropertyTwice(proofs[i], P2pkKey, JStr(a), JStr(b));
    }
  }

  /** Locking twice to the same key is locking once. */
  lemma LockIdempotent(proofs: seq<Proof>, pubkey: string)
    ensures LockProofs(LockProofs(proofs, pubkey), pubkey) == LockProofs(proofs, pubkey)
  {
    Relock(proofs, pubkey, pubkey);
  }
}
