/** The primitives both halves of the system call into without defining
    them: SHA-256 (FIPS 180-4), Ed25519 (RFC 8032) and the byte encoding of
    text. They are values of `Suite`, passed as parameters, and the
    properties the proofs rely on are predicates on a suite that lemmas take
    as hypotheses. */
module Primitives {
  import opened Numbers

  /** `utf8` turns text into the bytes that are hashed or signed;
      `publicKey(sk)` is the verifying key of signing key `sk`;
      `sign(sk, m)` is a detached signature of `m`; `verify(pk, m, sig)` is
      the detached verification (`sodium_crypto_sign_verify_detached`,
      `VerifyingKey::verify`); `isValidKey(pk)` says whether 32 bytes decode
      to a curve point (`VerifyingKey::from_bytes` succeeds). */
  datatype Suite = Suite(
    utf8: string -> Bytes,
    sha256: Bytes -> Bytes,
    publicKey: Bytes -> Bytes,
    sign: (Bytes, Bytes) -> Bytes,
    verify: (Bytes, Bytes, Bytes) -> bool,
    isValidKey: Bytes -> bool)

  const DIGEST_LEN := 32
  const PUBLIC_KEY_LEN := 32
  const SIGNATURE_LEN := 64

  /** Output sizes, correctness of honest signatures and the injectivity of
      the text encoding. */
  ghost predicate Sound(p: Suite) {
    (forall m :: |p.sha256(m)| == DIGEST_LEN)
    && (forall sk :: |p.publicKey(sk)| == PUBLIC_KEY_LEN && p.isValidKey(p.publicKey(sk)))
    && (forall sk, m :: |p.sign(sk, m)| == SIGNATURE_LEN)
    && (forall sk, m :: p.verify(p.publicKey(sk), m, p.sign(sk, m)))
    && (forall s, t :: p.utf8(s) == p.utf8(t) ==> s == t)
  }

  /** A signature made over one digest does not verify for any other
      message under the signer's key. Restricted to 32-byte digests, which
      is what every signature in the system is made over; over unbounded
      messages the statement would contradict 64-byte signatures. */
  ghost predicate Unforgeable(p: Suite) {
    forall sk, d, d2 :: |d| == DIGEST_LEN && d != d2 ==> !p.verify(p.publicKey(sk), d2, p.sign(sk, d))
  }

  /** Two particular messages whose digests differ: collision resistance
      stated for the pair a proof needs, never for all messages. */
  predicate NoCollision(p: Suite, a: Bytes, b: Bytes) {
    p.sha256(a) != p.sha256(b)
  }
}
