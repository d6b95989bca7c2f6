/**
 The cryptographic primitives ryke takes from foreign libraries, as a table of
 functions. Nothing is known about a table except what `Lawful` says; in
 particular nothing about forgery or collisions. Every theorem of the model holds
 for every lawful table.
 */
module Primitives {
  import opened Common

  type Password = string

  datatype Table = Table(
    hmacSha256: (Bytes, Bytes) -> Bytes,                    // key, data
    hmacSha1: (Bytes, Bytes) -> Bytes,
    sha256: Bytes -> Bytes,
    sha1: Bytes -> Bytes,
    gcmSeal: (Bytes, Bytes, Bytes, Bytes) -> Bytes,         // key, nonce, aad, plaintext
    gcmOpen: (Bytes, Bytes, Bytes, Bytes) -> Option<Bytes>, // key, nonce, aad, ciphertext and tag
    cbcEncrypt: (Bytes, Bytes, Bytes) -> Bytes,             // key, iv, plaintext
    cbcDecrypt: (Bytes, Bytes, Bytes) -> Bytes,
    x25519Public: Bytes -> Bytes,
    x25519Shared: (Bytes, Bytes) -> Bytes,
    ntResponse: (Bytes, Bytes, Bytes, Password) -> Bytes,   // authenticator challenge, peer challenge, user, password
    authenticatorResponse: (Password, Bytes, Bytes, Bytes, Bytes) -> Bytes,
    mschapMsk: (Password, Bytes) -> Bytes)                  // password, NT-response

  ghost predicate FixedLengths(t: Table) {
    && (forall k, d {:trigger t.hmacSha256(k, d)} :: |t.hmacSha256(k, d)| == 32)
    && (forall k, d {:trigger t.hmacSha1(k, d)} :: |t.hmacSha1(k, d)| == 20)
    && (forall d {:trigger t.sha256(d)} :: |t.sha256(d)| == 32)
    && (forall d {:trigger t.sha1(d)} :: |t.sha1(d)| == 20)
    && (forall a, p, u, w {:trigger t.ntResponse(a, p, u, w)} :: |t.ntResponse(a, p, u, w)| == 24)
    && (forall w, n, p, a, u {:trigger t.authenticatorResponse(w, n, p, a, u)} ::
          |t.authenticatorResponse(w, n, p, a, u)| == 42)
  }

  ghost predicate AeadInverse(t: Table) {
    forall k, n, a, p {:trigger t.gcmSeal(k, n, a, p)} ::
      && |t.gcmSeal(k, n, a, p)| == |p| + 16
      && t.gcmOpen(k, n, a, t.gcmSeal(k, n, a, p)) == Some(p)
  }

  ghost predicate CbcInverse(t: Table) {
    forall k, iv, p {:trigger t.cbcEncrypt(k, iv, p)} :: |k| == 32 && |iv| == 16 && |p| % 16 == 0 ==>
      && |t.cbcEncrypt(k, iv, p)| == |p|
      && t.cbcDecrypt(k, iv, t.cbcEncrypt(k, iv, p)) == p
  }

  ghost predicate X25519Commutes(t: Table) {
    && (forall a {:trigger t.x25519Public(a)} :: |t.x25519Public(a)| == 32)
    && (forall a, b {:trigger t.x25519Shared(a, t.x25519Public(b))} :: |a| == |b| == 32 ==>
          t.x25519Shared(a, t.x25519Public(b)) == t.x25519Shared(b, t.x25519Public(a)))
  }

  ghost predicate Lawful(t: Table) {
    FixedLengths(t) && AeadInverse(t) && CbcInverse(t) && X25519Commutes(t)
  }

  /** One lawful table, so that the assumptions are consistent. */
  function Toy(): Table {
    Table(
      (k, d) => Zeros(32), (k, d) => Zeros(20), d => Zeros(32), d => Zeros(20),
      (k, n, a, p) => p + Zeros(16),
      (k, n, a, ct) => if |ct| < 16 then None else Some(ct[..|ct| - 16]),
      (k, iv, p) => p, (k, iv, ct) => ct,
      a => Zeros(32), (a, b) => Zeros(32),
      (a, p, u, w) => Zeros(24), (w, n, p, a, u) => Zeros(42), (w, n) => Zeros(64))
  }

  lemma ToyIsLawful()
    ensures Lawful(Toy())
  {
    forall p: Bytes ensures (p + Zeros(16))[..|p + Zeros(16)| - 16] == p {
    }
  }

  type Crypto = t: Table | Lawful(t) ghost witness (ToyIsLawful(); Toy())
}
