/** Ed25519 signatures over a boot manifest (`provider::signing`). The
    signed message is the SHA-256 digest of the manifest's JSON text with
    its signature list emptied; a signature names its signer by the hex of
    the verifying key. The JSON serializer is a parameter `ser`: its field
    order follows the map of artifacts, which is not modelled. */
module ManifestSigning {
  import opened Wrappers
  import opened Numbers
  import opened Strings
  import opened Primitives
  import opened FileSystems
  import Hex
  import Digests
  import opened ProviderManifest

  const ED25519 := "ed25519"
  const OPEN_FAILED := "Failed to open file"
  const INVALID_HASH_FORMAT := "Invalid hash format"
  const INVALID_SIGNATURE_HEX := "Invalid signature hex encoding"
  /** The prefix of the error for a signature that is not 64 bytes; the
      signature library's own text after it is not modelled. */
  const INVALID_SIGNATURE_FORMAT := "Invalid signature format: "

  function NoSignatureFor(keyIdHex: string): string {
    "No signature found for key " + keyIdHex
  }

  /** `compute_file_hash`: the file read in chunks and hashed. */
  method ComputeFileHash(p: Suite, fs: FileSystem, path: Path) returns (r: Result<string, string>)
    ensures !fs.IsFile(path) ==> r == Err(OPEN_FAILED)
    ensures fs.IsFile(path) ==> r == Ok(Digests.TaggedDigest(p, fs.files[path]))
  {
    if !fs.IsFile(path) {
      return Err(OPEN_FAILED);
    }
    var h := Digests.HashInChunks(p, fs.files[path]);
    return Ok(h);
  }

  /** The manifest as it is hashed: without signatures. */
  function Unsigned(m: BootManifest): BootManifest {
    m.(signatures := [])
  }

  /** `compute_manifest_hash`. */
  function ComputeManifestHash(p: Suite, ser: BootManifest -> Bytes, m: BootManifest): (h: string)
    ensures StartsWith(h, Digests.SHA256_PREFIX)
    ensures Hex.Decode(h[|Digests.SHA256_PREFIX|..]) == Some(p.sha256(ser(Unsigned(m))))
  {
    Digests.TaggedDigest(p, ser(Unsigned(m)))
  }

  /** The hash does not depend on the signatures. */
  lemma {:induction false} ManifestHashIgnoresSignatures(p: Suite, ser: BootManifest -> Bytes, m: BootManifest,
                                                         sigs: seq<Signature>)
    ensures ComputeManifestHash(p, ser, m.(signatures := sigs)) == ComputeManifestHash(p, ser, m)
  {
    assert Unsigned(m.(signatures := sigs)) == Unsigned(m);
  }

  /** The digest bytes that are signed: the hash text without its prefix,
      decoded from hex. */
  function HashBytes(p: Suite, ser: BootManifest -> Bytes, m: BootManifest): (r: Result<Bytes, string>)
    ensures r == Ok(p.sha256(ser(Unsigned(m))))
  {
    var hash := ComputeManifestHash(p, ser, m);
    var hex := match StripPrefix(hash, Digests.SHA256_PREFIX) case Some(rest) => rest case None => hash;
    match Hex.Decode(hex)
    case Some(bytes) => Ok(bytes)
    case None => Err(INVALID_HASH_FORMAT)
  }

  /** `key_id`: the verifying key as lowercase hex. */
  function KeyId(p: Suite, sk: Bytes): (id: string)
    ensures Hex.Decode(id) == Some(p.publicKey(sk))
    ensures Sound(p) ==> |id| == 64
  {
    Hex.DecodeEncode(p.publicKey(sk));
    Hex.Encode(p.publicKey(sk))
  }

  /** `sign_manifest`, with the clock's RFC 3339 text as `signedAt`: one
      signature is appended and nothing else changes. */
  function SignManifest(p: Suite, ser: BootManifest -> Bytes, m: BootManifest, sk: Bytes, signedAt: string)
    : (r: Result<BootManifest, string>)
    ensures r.Ok?
    ensures r.value.(signatures := m.signatures) == m
    ensures |r.value.signatures| == |m.signatures| + 1
    ensures r.value.signatures[..|m.signatures|] == m.signatures
    ensures var s := r.value.signatures[|m.signatures|];
            && s.algorithm == ED25519 && s.keyId == KeyId(p, sk) && s.signedAt == signedAt
            && Hex.Decode(s.signature) == Some(p.sign(sk, p.sha256(ser(Unsigned(m)))))
  {
    match HashBytes(p, ser, m)
    case Err(e) => Err(e)
    case Ok(hashBytes) =>
      var signature := p.sign(sk, hashBytes);
      Hex.DecodeEncode(signature);
      var sig := Signature(ED25519, KeyId(p, sk), Hex.Encode(signature), signedAt);
      assert (m.signatures + [sig])[..|m.signatures|] == m.signatures;
      Ok(m.(signatures := m.signatures + [sig]))
  }

  /** The first signature with the given key id (`iter().find`). */
  function FindByKeyId(sigs: seq<Signature>, id: string): (r: Option<Signature>)
    ensures r.None? <==> forall k :: 0 <= k < |sigs| ==> sigs[k].keyId != id
    ensures r.Some? ==> exists k :: 0 <= k < |sigs| && sigs[k] == r.value && r.value.keyId == id
                                    && forall j :: 0 <= j < k ==> sigs[j].keyId != id
  {
    if |sigs| == 0 then None
    else if sigs[0].keyId == id then Some(sigs[0])
    else
      var rest := FindByKeyId(sigs[1..], id);
      assert forall k :: 1 <= k < |sigs| ==> sigs[k] == sigs[1..][k - 1];
      if rest.Some? then
        var k :| 0 <= k < |sigs[1..]| && sigs[1..][k] == rest.value && rest.value.keyId == id
                 && forall j :: 0 <= j < k ==> sigs[1..][j].keyId != id;
        assert sigs[k + 1] == rest.value && forall j :: 0 <= j < k + 1 ==> sigs[j].keyId != id;
        rest
      else rest
  }

  /** `verify_manifest_signature`: `Ok(true)` or `Ok(false)` is the
      verdict on the first signature under the key; a missing signature or
      one that is not 64 bytes of hex is an error. */
  function VerifyManifestSignature(p: Suite, ser: BootManifest -> Bytes, m: BootManifest, pk: Bytes)
    : (r: Result<bool, string>)
    ensures FindByKeyId(m.signatures, Hex.Encode(pk)).None? <==> r == Err(NoSignatureFor(Hex.Encode(pk)))
    ensures r.Ok? <==>
              && FindByKeyId(m.signatures, Hex.Encode(pk)).Some?
              && Hex.Decode(FindByKeyId(m.signatures, Hex.Encode(pk)).value.signature).Some?
              && |Hex.Decode(FindByKeyId(m.signatures, Hex.Encode(pk)).value.signature).value| == SIGNATURE_LEN
    ensures r.Ok? ==>
              r.value == p.verify(pk, p.sha256(ser(Unsigned(m))),
                                  Hex.Decode(FindByKeyId(m.signatures, Hex.Encode(pk)).value.signature).value)
  {
    var keyIdHex := Hex.Encode(pk);
    match FindByKeyId(m.signatures, keyIdHex)
    case None => Err(NoSignatureFor(keyIdHex))
    case Some(sig) =>
      match HashBytes(p, ser, m)
      case Err(e) => Err(e)
      case Ok(hashBytes) =>
        match Hex.Decode(sig.signature)
        case None => Err(INVALID_SIGNATURE_HEX)
        case Some(sigBytes) =>
          if |sigBytes| != SIGNATURE_LEN then Err(INVALID_SIGNATURE_FORMAT)
          else Ok(p.verify(pk, hashBytes, sigBytes))
  }

  /** The signature just appended is the one found under its key when no
      earlier signature carries that key id. */
  lemma {:induction false} AppendedSignatureFound(sigs: seq<Signature>, sig: Signature)
    requires forall k :: 0 <= k < |sigs| ==> sigs[k].keyId != sig.keyId
    ensures FindByKeyId(sigs + [sig], sig.keyId) == Some(sig)
  {
    var all := sigs + [sig];
    assert all[|sigs|].keyId == sig.keyId;
    var k :| 0 <= k < |all| && all[k] == FindByKeyId(all, sig.keyId).value && all[k].keyId == sig.keyId
             && forall j :: 0 <= j < k ==> all[j].keyId != sig.keyId;
    assert k == |sigs|;
  }

  /** A manifest signed with a key verifies under that key's verifying key. */
  lemma SignThenVerify(p: Suite, ser: BootManifest -> Bytes, m: BootManifest, sk: Bytes, signedAt: string)
    requires Sound(p)
    requires forall k :: 0 <= k < |m.signatures| ==> m.signatures[k].keyId != KeyId(p, sk)
    ensures VerifyManifestSignature(p, ser, SignManifest(p, ser, m, sk, signedAt).value, p.publicKey(sk)) == Ok(true)
  {
    var signed := SignManifest(p, ser, m, sk, signedAt).value;
    var sig := signed.signatures[|m.signatures|];
    assert signed.signatures == m.signatures + [sig];
    AppendedSignatureFound(m.signatures, sig);
    assert Unsigned(signed) == Unsigned(m);
  }

  /** A signed manifest changed anywhere outside its signatures, so that
      the digest of its unsigned text differs, no longer verifies. */
  lemma TamperedManifestRejected(p: Suite, ser: BootManifest -> Bytes, m: BootManifest, sk: Bytes, signedAt: string,
                                 tampered: BootManifest)
    requires Sound(p) && Unforgeable(p)
    requires forall k :: 0 <= k < |m.signatures| ==> m.signatures[k].keyId != KeyId(p, sk)
    requires tampered.signatures == SignManifest(p, ser, m, sk, signedAt).value.signatures
    requires NoCollision(p, ser(Unsigned(m)), ser(Unsigned(tampered)))
    ensures VerifyManifestSignature(p, ser, tampered, p.publicKey(sk)) == Ok(false)
  {
    var signed := SignManifest(p, ser, m, sk, signedAt).value;
    var sig := signed.signatures[|m.signatures|];
    assert signed.signatures == m.signatures + [sig];
    AppendedSignatureFound(m.signatures, sig);
    assert |p.sha256(ser(Unsigned(m)))| == DIGEST_LEN;
  }

  /** A manifest without a signature under a key is an error for that key,
      however it was signed otherwise. */
  lemma WrongKeyIsError(p: Suite, ser: BootManifest -> Bytes, m: BootManifest, sk: Bytes, signedAt: string, other: Bytes)
    requires forall k :: 0 <= k < |m.signatures| ==> m.signatures[k].keyId != Hex.Encode(other)
    requires Hex.Encode(other) != KeyId(p, sk)
    ensures VerifyManifestSignature(p, ser, SignManifest(p, ser, m, sk, signedAt).value, other).Err?
  {
    var signed := SignManifest(p, ser, m, sk, signedAt).value;
    assert forall k :: 0 <= k < |signed.signatures| ==> signed.signatures[k].keyId != Hex.Encode(other) by {
      forall k | 0 <= k < |signed.signatures| ensures signed.signatures[k].keyId != Hex.Encode(other) {
        if k < |m.signatures| {
          assert signed.signatures[k] == signed.signatures[..|m.signatures|][k];
        }
      }
    }
  }
}
