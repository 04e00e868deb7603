/** The cryptographic primitives the services call, as uninterpreted functions: the
    model never computes a curve point, a hash or a cipher text. What the services
    rely on is collected in `Sound`, which the round-trip theorems take as a
    precondition. */
module Crypto {
  import opened Wrappers
  import opened Hex

  /** - `pub`: secp256k1 `getPublicKey`, hex private key to hex public key.
      - `sign`: secp256k1 signing of a hex digest with a hex private key.
      - `sha256`: SHA-256 of a byte string.
      - `ecdh`: the NIP-04 shared secret of a private and a public key.
      - `cipher`: AES-256-CBC under a shared secret and an initialisation vector,
        giving the NIP-04 payload text (cipher text and vector, both in base64).
      - `decipher`: reading a payload back; `None` where `nip04.decrypt` throws. */
  datatype Primitives = Primitives(
    pub: string -> string,
    sign: (string, string) -> string,
    sha256: seq<byte> -> seq<byte>,
    ecdh: (string, string) -> seq<byte>,
    cipher: (seq<byte>, seq<byte>, string) -> string,
    decipher: (seq<byte>, string) -> Option<string>)

  /** The two facts NIP-04 rests on: both ends of a conversation derive the same
      secret, and deciphering under the secret that enciphered gives the text back. */
  ghost predicate Sound(p: Primitives) {
    && (forall a: string, b: string {:trigger p.ecdh(a, p.pub(b))} ::
          p.ecdh(a, p.pub(b)) == p.ecdh(b, p.pub(a)))
    && (forall k: seq<byte>, iv: seq<byte>, m: string {:trigger p.cipher(k, iv, m)} ::
          p.decipher(k, p.cipher(k, iv, m)) == Some(m))
  }

  /** `nip04.encrypt(priv, pub, text)` with `iv` as the random initialisation vector. */
  function Nip04Encrypt(p: Primitives, priv: string, pub: string, iv: seq<byte>, text: string)
    : (r: string)
    ensures Sound(p) ==> p.decipher(p.ecdh(priv, pub), r) == Some(text)
  {
    p.cipher(p.ecdh(priv, pub), iv, text)
  }

  /** `nip04.decrypt(priv, pub, payload)`; `None` where it throws. */
  function Nip04Decrypt(p: Primitives, priv: string, pub: string, payload: string)
    : (r: Option<string>)
    ensures Sound(p) ==> forall iv, text ::
      payload == p.cipher(p.ecdh(priv, pub), iv, text) ==> r == Some(text)
  {
    p.decipher(p.ecdh(priv, pub), payload)
  }

  /** Whatever `a` encrypts for `b`'s public key, `b` decrypts with `a`'s public key. */
  lemma Nip04RoundTrip(p: Primitives, a: string, b: string, iv: seq<byte>, text: string)
    requires Sound(p)
    ensures Nip04Decrypt(p, b, p.pub(a), Nip04Encrypt(p, a, p.pub(b), iv, text)) == Some(text)
  {
    assert p.ecdh(b, p.pub(a)) == p.ecdh(a, p.pub(b));
  }

  /** `Sound` can be met, so the theorems that assume it are not vacuous: the
      identity cipher over a constant secret satisfies it. */
  lemma SoundSatisfiable()
    ensures Sound(Primitives(
      k => k, (d, k) => d, b => b, (a, b) => [], (k, iv, m) => m, (k, c) => Some(c)))
  {
  }
}
