/** The boot-time manifest checker (`phase-verify`): rollback protection
    against a cached manifest version, the choice and parsing of the
    verifying key, a search for the first signature entry that verifies,
    and the update of the cached version. The manifest arrives already
    parsed; files are parameters (their contents, or a read failure), and so
    is the lossy UTF-8 decoder of the key file. */
module PhaseVerify {
  import opened Wrappers
  import opened Numbers
  import opened Strings
  import opened Primitives
  import Hex
  import Base64

  const VERIFIED := "VERIFIED"
  const FAILED := "FAILED"
  const NO_KEY_ID := "N/A"
  const NONE_KEY_ID := "none"
  const NO_KEY_AVAILABLE := "No verification key available"
  const NO_VALID_SIGNATURE := "No valid signature found"
  const KEY_READ_FAILED := "Failed to read key file: "
  /** The error of a version file that exists but cannot be read; the
      operating system's text is not modelled. */
  const VERSION_READ_FAILED := "Failed to read cached version"
  /** The error of a failed write of the version file; the operating
      system's text is not modelled. */
  const VERSION_WRITE_FAILED := "Failed to write cached version"
  const INVALID_KEY_LENGTH := "Invalid key length"
  const UNRECOGNIZED_KEY := "Could not parse public key (expected 32 bytes raw, 64 hex chars, or base64)"
  const INVALID_SIGNATURE_LENGTH := "Invalid signature length"
  /** The bytes of the placeholder that stands for a missing embedded key. */
  const PLACEHOLDER: Bytes := [80, 76, 65, 67, 69, 72, 79, 76, 68, 69, 82]

  function RollbackDetected(manifestVersion: nat, cached: nat): string {
    "Rollback detected: manifest v" + NatToDecimal(manifestVersion) + " < cached v" + NatToDecimal(cached)
  }

  // ---------------------------------------------------------------- keys

  predicate IsAscii(s: string) { forall i :: 0 <= i < |s| ==> s[i] < 128 as char }

  /** What the key proofs assume of the text encoding: lossy decoding of
      encoded text gives the text back, and ASCII text takes one byte per
      character. */
  ghost predicate TextCodec(p: Suite, lossy: Bytes -> string) {
    && (forall s :: lossy(p.utf8(s)) == s)
    && (forall s :: IsAscii(s) ==> |p.utf8(s)| == |s|)
  }

  /** Why `parse_public_key` refused a key. The texts of the curve and hex
      libraries are not modelled. */
  datatype KeyError = NotACurvePoint | InvalidHex | InvalidKeyLength | Unrecognized

  function KeyErrorText(e: KeyError): string {
    match e
    case NotACurvePoint => "Invalid verifying key"
    case InvalidHex => "Invalid hex key"
    case InvalidKeyLength => INVALID_KEY_LENGTH
    case Unrecognized => UNRECOGNIZED_KEY
  }

  /** A 32-byte key, accepted when it is a point of the curve. */
  function FromBytes(p: Suite, key: Bytes): (r: Result<Bytes, KeyError>)
    requires |key| == PUBLIC_KEY_LEN
    ensures r.Ok? <==> p.isValidKey(key)
    ensures r.Ok? ==> r.value == key
    ensures r.Err? ==> r.error == NotACurvePoint
  {
    if p.isValidKey(key) then Ok(key) else Err(NotACurvePoint)
  }

  /** `parse_public_key`: 32 bytes are a raw key; otherwise the file is
      read as text and trimmed, and a text of 64 bytes must be hex, with no
      second chance as base64; any other text must be base64 of 32 bytes. */
  function ParseKey(p: Suite, lossy: Bytes -> string, bytes: Bytes): (r: Result<Bytes, KeyError>)
    ensures r.Ok? ==> |r.value| == PUBLIC_KEY_LEN && p.isValidKey(r.value)
    ensures |bytes| == PUBLIC_KEY_LEN ==> r == FromBytes(p, bytes)
    ensures |bytes| != PUBLIC_KEY_LEN && |p.utf8(RustTrim(lossy(bytes)))| == 64 ==>
              if Hex.Decode(RustTrim(lossy(bytes))).None? then r == Err(InvalidHex)
              else r.Ok? ==> Hex.Decode(RustTrim(lossy(bytes))) == Some(r.value)
    ensures |bytes| != PUBLIC_KEY_LEN && |p.utf8(RustTrim(lossy(bytes)))| != 64 ==>
              var decoded := Base64.Decode(RustTrim(lossy(bytes)));
              if decoded.Some? && |decoded.value| == PUBLIC_KEY_LEN then r == FromBytes(p, decoded.value)
              else r == Err(Unrecognized)
  {
    if |bytes| == PUBLIC_KEY_LEN then FromBytes(p, bytes)
    else
      var text := RustTrim(lossy(bytes));
      if |p.utf8(text)| == 64 then
        match Hex.Decode(text)
        case None => Err(InvalidHex)
        case Some(decoded) =>
          if |decoded| != PUBLIC_KEY_LEN then Err(InvalidKeyLength) else FromBytes(p, decoded)
      else
        match Base64.Decode(text)
        case Some(decoded) => if |decoded| == PUBLIC_KEY_LEN then FromBytes(p, decoded) else Err(Unrecognized)
        case None => Err(Unrecognized)
  }

  /** A signer's verifying key stored raw is parsed as itself. */
  lemma RawKeyParses(p: Suite, lossy: Bytes -> string, sk: Bytes)
    requires Sound(p)
    ensures ParseKey(p, lossy, p.publicKey(sk)) == Ok(p.publicKey(sk))
  {
  }

  lemma LowerHexIsAscii(s: string)
    requires Hex.AllLowerHex(s)
    ensures IsAscii(s) && (|s| > 0 ==> !IsRustWhitespace(s[0]) && !IsRustWhitespace(s[|s| - 1]))
  {
  }

  /** A valid key stored as one line of lowercase hex is parsed as itself. */
  lemma {:induction false} HexKeyFileParses(p: Suite, lossy: Bytes -> string, key: Bytes)
    requires TextCodec(p, lossy)
    requires |key| == PUBLIC_KEY_LEN && p.isValidKey(key)
    ensures ParseKey(p, lossy, p.utf8(Hex.Encode(key) + "\n")) == Ok(key)
  {
    var hex := Hex.Encode(key);
    LowerHexIsAscii(hex);
    assert IsAscii(hex + "\n");
    assert |p.utf8(hex + "\n")| == 65;
    assert lossy(p.utf8(hex + "\n")) == hex + "\n";
    RustTrimLineEnd(hex);
    assert |p.utf8(hex)| == 64;
    Hex.DecodeEncode(key);
  }

  lemma Base64IsAscii(s: string)
    requires forall i :: 0 <= i < |s| ==> Base64.IsBase64Char(s[i]) || s[i] == '='
    ensures IsAscii(s) && (|s| > 0 ==> !IsRustWhitespace(s[0]) && !IsRustWhitespace(s[|s| - 1]))
  {
  }

  /** A valid key stored as one line of base64 is parsed as itself. */
  lemma {:induction false} Base64KeyFileParses(p: Suite, lossy: Bytes -> string, key: Bytes)
    requires TextCodec(p, lossy)
    requires |key| == PUBLIC_KEY_LEN && p.isValidKey(key)
    ensures ParseKey(p, lossy, p.utf8(Base64.Encode(key) + "\n")) == Ok(key)
  {
    var text := Base64.Encode(key);
    Base64.EncodeAlphabet(key);
    Base64.EncodeLength(key);
    Base64IsAscii(text);
    assert IsAscii(text + "\n");
    assert |p.utf8(text + "\n")| == 45;
    assert lossy(p.utf8(text + "\n")) == text + "\n";
    RustTrimLineEnd(text);
    assert |p.utf8(text)| == 44;
    Base64.DecodeEncode(key);
  }

  // ---------------------------------------------------------- signatures

  /** Why `verify_signature` could not reach a verdict. The base64
      library's texts are not modelled. */
  datatype SignatureError = InvalidDataEncoding | InvalidSignatureEncoding | InvalidSignatureLength

  /** `verify_signature`: the signed data and the signature are base64; the
      signature must be 64 bytes; the verdict is on the SHA-256 digest of
      the data. */
  function VerifySignature(p: Suite, dataB64: string, sigB64: string, key: Bytes): (r: Result<bool, SignatureError>)
    ensures Base64.Decode(dataB64).None? ==> r == Err(InvalidDataEncoding)
    ensures Base64.Decode(dataB64).Some? && Base64.Decode(sigB64).None? ==> r == Err(InvalidSignatureEncoding)
    ensures r.Ok? <==>
              && Base64.Decode(dataB64).Some? && Base64.Decode(sigB64).Some?
              && |Base64.Decode(sigB64).value| == SIGNATURE_LEN
    ensures r.Ok? ==>
              r.value == p.verify(key, p.sha256(Base64.Decode(dataB64).value), Base64.Decode(sigB64).value)
  {
    match Base64.Decode(dataB64)
    case None => Err(InvalidDataEncoding)
    case Some(data) =>
      match Base64.Decode(sigB64)
      case None => Err(InvalidSignatureEncoding)
      case Some(sig) =>
        if |sig| != SIGNATURE_LEN then Err(InvalidSignatureLength)
        else Ok(p.verify(key, p.sha256(data), sig))
  }

  /** A signature over the digest of the data, made with the key's signing
      key, verifies. */
  lemma SignedDataVerifies(p: Suite, data: Bytes, sk: Bytes)
    requires Sound(p)
    ensures VerifySignature(p, Base64.Encode(data), Base64.Encode(p.sign(sk, p.sha256(data))), p.publicKey(sk))
         == Ok(true)
  {
    Base64.DecodeEncode(data);
    Base64.DecodeEncode(p.sign(sk, p.sha256(data)));
  }

  /** A signature made over other data whose digest differs does not
      verify. */
  lemma OtherDataRejected(p: Suite, data: Bytes, other: Bytes, sk: Bytes)
    requires Sound(p) && Unforgeable(p)
    requires NoCollision(p, other, data)
    ensures VerifySignature(p, Base64.Encode(data), Base64.Encode(p.sign(sk, p.sha256(other))), p.publicKey(sk))
         == Ok(false)
  {
    Base64.DecodeEncode(data);
    Base64.DecodeEncode(p.sign(sk, p.sha256(other)));
    assert |p.sha256(other)| == DIGEST_LEN;
  }

  datatype ManifestSignature = ManifestSignature(keyid: string, sig: string)

  /** The fields of the manifest that the checker reads. */
  datatype Manifest = Manifest(manifestVersion: u64, channel: string, arch: string,
                               signatures: seq<ManifestSignature>, signedData: string)

  /** The position of the first entry whose signature verifies. */
  function FirstVerified(p: Suite, data: string, sigs: seq<ManifestSignature>, key: Bytes): (r: Option<nat>)
    ensures r.None? <==> forall k :: 0 <= k < |sigs| ==> VerifySignature(p, data, sigs[k].sig, key) != Ok(true)
    ensures r.Some? ==> r.value < |sigs| && VerifySignature(p, data, sigs[r.value].sig, key) == Ok(true)
    ensures r.Some? ==> forall k :: 0 <= k < r.value ==> VerifySignature(p, data, sigs[k].sig, key) != Ok(true)
  {
    if |sigs| == 0 then None
    else
      var before := FirstVerified(p, data, sigs[..|sigs| - 1], key);
      assert forall k :: 0 <= k < |sigs| - 1 ==> sigs[..|sigs| - 1][k] == sigs[k];
      if before.Some? then before
      else if VerifySignature(p, data, sigs[|sigs| - 1].sig, key) == Ok(true) then Some(|sigs| - 1)
      else None
  }

  /** The loop of `main` over the signature entries: entries that fail or
      do not verify are skipped, and the first that verifies ends the
      search and names the key id. */
  method FindVerified(p: Suite, data: string, sigs: seq<ManifestSignature>, key: Bytes)
    returns (verified: bool, keyid: string)
    ensures verified <==> FirstVerified(p, data, sigs, key).Some?
    ensures verified ==> keyid == sigs[FirstVerified(p, data, sigs, key).value].keyid
    ensures !verified ==> keyid == ""
  {
    verified := false;
    keyid := "";
    var i := 0;
    while i < |sigs|
      invariant 0 <= i <= |sigs|
      invariant FirstVerified(p, data, sigs[..i], key).None?
      invariant keyid == ""
    {
      assert sigs[..i + 1][..i] == sigs[..i];
      if VerifySignature(p, data, sigs[i].sig, key) == Ok(true) {
        verified := true;
        keyid := sigs[i].keyid;
        FirstVerifiedExtends(p, data, sigs, key, i);
        return;
      }
      i := i + 1;
    }
    assert sigs[..i] == sigs;
  }

  /** Once no entry before `i` verifies and entry `i` does, `i` is the
      first. */
  lemma FirstVerifiedExtends(p: Suite, data: string, sigs: seq<ManifestSignature>, key: Bytes, i: nat)
    requires i < |sigs| && FirstVerified(p, data, sigs[..i], key).None?
    requires VerifySignature(p, data, sigs[i].sig, key) == Ok(true)
    ensures FirstVerified(p, data, sigs, key) == Some(i)
  {
    var r := FirstVerified(p, data, sigs, key);
    forall k | 0 <= k < i ensures VerifySignature(p, data, sigs[k].sig, key) != Ok(true) {
      assert sigs[..i][k] == sigs[k];
    }
  }

  // ---------------------------------------------------------------- main

  /** The cached version file: missing, present but unreadable, or its
      text. */
  datatype VersionFile = Missing | Unreadable | Contents(text: string)

  /** Where the verifying key comes from: the `--key` file (its bytes, or a
      read failure) or the key compiled into the program. */
  datatype KeySource = KeyFile(contents: Option<Bytes>) | Embedded

  datatype Options = Options(checkVersion: Option<VersionFile>, updateVersion: bool, key: KeySource)

  datatype VerificationResult = VerificationResult(status: string, manifestVersion: u64, channel: string,
                                                   arch: string, keyId: string, error: Option<string>)

  /** How `main` ends: a reported result with its exit code, or an error
      propagated out of `main` (exit code 1). */
  datatype Outcome = Reported(exitCode: nat, result: VerificationResult) | Aborted(message: string)

  /** The cached version: the file's trimmed text as a `u64`, or 0 when it
      does not parse. */
  function CachedVersion(text: string): (v: nat)
    ensures ParseU64(RustTrim(text)).Some? ==> v == ParseU64(RustTrim(text)).value
    ensures ParseU64(RustTrim(text)).None? ==> v == 0
  {
    match ParseU64(RustTrim(text))
    case Some(v) => v
    case None => 0
  }

  function Failure(m: Manifest, keyId: string, error: string): Outcome {
    Reported(1, VerificationResult(FAILED, m.manifestVersion, m.channel, m.arch, keyId, Some(error)))
  }

  predicate IsPlaceholder(key: Bytes) {
    |key| == 0 || key == PLACEHOLDER
  }

  /** The checks that end `main` before the key is parsed: an unreadable
      version file, a rollback, an unreadable key file, and a missing
      embedded key, in that order. */
  function EarlyStop(m: Manifest, opts: Options, embedded: Bytes): (r: Option<Outcome>)
    ensures r.None? ==> opts.key.KeyFile? ==> opts.key.contents.Some?
  {
    if opts.checkVersion == Some(Unreadable) then Some(Aborted(VERSION_READ_FAILED))
    else if opts.checkVersion.Some? && opts.checkVersion.value.Contents?
            && m.manifestVersion < CachedVersion(opts.checkVersion.value.text) then
      Some(Failure(m, NO_KEY_ID, RollbackDetected(m.manifestVersion, CachedVersion(opts.checkVersion.value.text))))
    else if opts.key == KeyFile(None) then Some(Aborted(KEY_READ_FAILED))
    else if opts.key.Embedded? && IsPlaceholder(embedded) then Some(Failure(m, NO_KEY_ID, NO_KEY_AVAILABLE))
    else None
  }

  /** The rest of `main`, with the key's bytes: parse the key, look for a
      verifying entry, and write the version when asked to. */
  function Conclude(p: Suite, lossy: Bytes -> string, m: Manifest, opts: Options, bytes: Bytes,
                    writeSucceeds: bool): (Outcome, Option<string>)
  {
    match ParseKey(p, lossy, bytes)
    case Err(e) => (Aborted(KeyErrorText(e)), None)
    case Ok(key) =>
      match FirstVerified(p, m.signedData, m.signatures, key)
      case None => (Failure(m, NONE_KEY_ID, NO_VALID_SIGNATURE), None)
      case Some(i) =>
        var verified := Reported(0, VerificationResult(VERIFIED, m.manifestVersion, m.channel, m.arch,
                                                       m.signatures[i].keyid, None));
        if opts.updateVersion && opts.checkVersion.Some? then
          if writeSucceeds then (verified, Some(NatToDecimal(m.manifestVersion)))
          else (Aborted(VERSION_WRITE_FAILED), None)
        else (verified, None)
  }

  /** Everything `main` decides once the manifest is parsed, as a function
      of its inputs: the outcome and the text written to the version file,
      if any. `writeSucceeds` is the fate of that write. */
  function Decide(p: Suite, lossy: Bytes -> string, m: Manifest, opts: Options, embedded: Bytes,
                  writeSucceeds: bool): (Outcome, Option<string>)
  {
    match EarlyStop(m, opts, embedded)
    case Some(stop) => (stop, None)
    case None =>
      Conclude(p, lossy, m, opts, if opts.key.KeyFile? then opts.key.contents.value else embedded, writeSucceeds)
  }

  /** `main` after the manifest is parsed: the rollback check, the key, the
      signature loop, and the version update. */
  method Run(p: Suite, lossy: Bytes -> string, m: Manifest, opts: Options, embedded: Bytes, writeSucceeds: bool)
    returns (outcome: Outcome, written: Option<string>)
    ensures (outcome, written) == Decide(p, lossy, m, opts, embedded, writeSucceeds)
  {
    written := None;
    if opts.checkVersion.Some? {
      match opts.checkVersion.value {
        case Missing =>
        case Unreadable =>
          return Aborted(VERSION_READ_FAILED), None;
        case Contents(text) =>
          var cached := CachedVersion(text);
          if m.manifestVersion < cached {
            return Failure(m, NO_KEY_ID, RollbackDetected(m.manifestVersion, cached)), None;
          }
      }
    }
    var bytes: Bytes;
    match opts.key {
      case KeyFile(contents) =>
        if contents.None? {
          return Aborted(KEY_READ_FAILED), None;
        }
        bytes := contents.value;
      case Embedded =>
        if |embedded| == 0 || embedded == PLACEHOLDER {
          return Failure(m, NO_KEY_ID, NO_KEY_AVAILABLE), None;
        }
        bytes := embedded;
    }
    var parsed := ParseKey(p, lossy, bytes);
    if parsed.Err? {
      return Aborted(KeyErrorText(parsed.error)), None;
    }
    var verified, keyid := FindVerified(p, m.signedData, m.signatures, parsed.value);
    if verified {
      if opts.updateVersion && opts.checkVersion.Some? {
        if !writeSucceeds {
          return Aborted(VERSION_WRITE_FAILED), None;
        }
        written := Some(NatToDecimal(m.manifestVersion));
      }
      outcome := Reported(0, VerificationResult(VERIFIED, m.manifestVersion, m.channel, m.arch, keyid, None));
    } else {
      outcome := Failure(m, NONE_KEY_ID, NO_VALID_SIGNATURE);
    }
  }

  // -------------------------------------------------------------- lemmas

  lemma RollbackTextDiffers(mv: nat, cached: nat)
    ensures RollbackDetected(mv, cached) != NO_KEY_AVAILABLE
    ensures RollbackDetected(mv, cached) != NO_VALID_SIGNATURE
  {
    assert RollbackDetected(mv, cached)[0] == 'R';
  }

  /** The rollback check refuses a manifest exactly when the cached version
      file is readable and holds a larger version; equal versions pass, and
      so does any version when the file does not parse. */
  lemma RollbackRefusedIff(p: Suite, lossy: Bytes -> string, m: Manifest, opts: Options, embedded: Bytes,
                           writeSucceeds: bool, text: string)
    requires opts.checkVersion == Some(Contents(text))
    ensures var out := Decide(p, lossy, m, opts, embedded, writeSucceeds).0;
            (out.Reported? && out.result.error == Some(RollbackDetected(m.manifestVersion, CachedVersion(text))))
            <==> m.manifestVersion < CachedVersion(text)
  {
    RollbackTextDiffers(m.manifestVersion, CachedVersion(text));
  }

  /** Without a `--key`, an empty or placeholder embedded key fails the
      check once the rollback check has passed, whatever the signatures. */
  lemma PlaceholderKeyFails(p: Suite, lossy: Bytes -> string, m: Manifest, opts: Options, embedded: Bytes,
                            writeSucceeds: bool)
    requires opts.key == Embedded && IsPlaceholder(embedded)
    requires opts.checkVersion.None? || opts.checkVersion == Some(Missing)
    ensures Decide(p, lossy, m, opts, embedded, writeSucceeds) == (Failure(m, NO_KEY_ID, NO_KEY_AVAILABLE), None)
  {
  }

  /** Once the key is read and parsed, the manifest is verified exactly
      when some signature entry verifies, and the key id reported is that
      of the first such entry. */
  lemma VerifiedIffSomeEntryVerifies(p: Suite, lossy: Bytes -> string, m: Manifest, opts: Options,
                                     keyBytes: Bytes, writeSucceeds: bool, key: Bytes)
    requires opts.checkVersion.None? || opts.checkVersion == Some(Missing)
    requires opts.key == KeyFile(Some(keyBytes)) && ParseKey(p, lossy, keyBytes) == Ok(key)
    requires !opts.updateVersion
    ensures var out := Decide(p, lossy, m, opts, [], writeSucceeds).0;
            && (out.Reported? && out.result.status == VERIFIED
                <==> exists k :: 0 <= k < |m.signatures| && VerifySignature(p, m.signedData, m.signatures[k].sig, key) == Ok(true))
            && (out.Reported? && out.result.status == VERIFIED ==>
                  out.result.keyId == m.signatures[FirstVerified(p, m.signedData, m.signatures, key).value].keyid)
  {
    var r := FirstVerified(p, m.signedData, m.signatures, key);
    assert VERIFIED != FAILED;
    if r.Some? {
      assert VerifySignature(p, m.signedData, m.signatures[r.value].sig, key) == Ok(true);
    }
  }

  /** The cached version is written only after a successful verification
      with both `--update-version` and `--check-version`, and what is
      written is the manifest's version, which a later run reads back. */
  lemma VersionUpdateRule(p: Suite, lossy: Bytes -> string, m: Manifest, opts: Options, embedded: Bytes,
                          writeSucceeds: bool)
    ensures var (out, written) := Decide(p, lossy, m, opts, embedded, writeSucceeds);
            && (written.Some? <==>
                  out.Reported? && out.result.status == VERIFIED && opts.updateVersion && opts.checkVersion.Some?)
            && (written.Some? ==> CachedVersion(written.value) == m.manifestVersion)
  {
    var (out, written) := Decide(p, lossy, m, opts, embedded, writeSucceeds);
    assert VERIFIED != FAILED;
    if written.Some? {
      WrittenIsVersion(p, lossy, m, opts, embedded, writeSucceeds);
      DecimalReadsBack(m.manifestVersion);
    }
  }

  /** A version written in decimal reads back as itself. */
  lemma DecimalReadsBack(n: nat)
    requires IsU64(n)
    ensures CachedVersion(NatToDecimal(n)) == n
  {
    var s := NatToDecimal(n);
    assert !IsRustWhitespace(s[0]) && !IsRustWhitespace(s[|s| - 1]) by {
      assert IsDigit(s[0]) && IsDigit(s[|s| - 1]);
    }
    TrimUnchanged(s, IsRustWhitespace);
    ParseU64OfDecimal(n);
  }

  /** The only text ever written is the manifest's version in decimal. */
  lemma WrittenIsVersion(p: Suite, lossy: Bytes -> string, m: Manifest, opts: Options, embedded: Bytes,
                         writeSucceeds: bool)
    requires Decide(p, lossy, m, opts, embedded, writeSucceeds).1.Some?
    ensures Decide(p, lossy, m, opts, embedded, writeSucceeds).1.value == NatToDecimal(m.manifestVersion)
  {
  }

  /** After an update, the same file refuses every older manifest and
      accepts the same version again. */
  lemma UpdateBlocksRollback(p: Suite, lossy: Bytes -> string, m: Manifest, opts: Options, embedded: Bytes,
                             writeSucceeds: bool, older: Manifest)
    requires Decide(p, lossy, m, opts, embedded, writeSucceeds).1.Some?
    ensures var text := Decide(p, lossy, m, opts, embedded, writeSucceeds).1.value;
            && (older.manifestVersion < m.manifestVersion ==>
                  Decide(p, lossy, older, opts.(checkVersion := Some(Contents(text))), embedded, writeSucceeds).0
                  == Failure(older, NO_KEY_ID, RollbackDetected(older.manifestVersion, m.manifestVersion)))
            && CachedVersion(text) == m.manifestVersion
  {
    WrittenIsVersion(p, lossy, m, opts, embedded, writeSucceeds);
    var text := NatToDecimal(m.manifestVersion);
    DecimalReadsBack(m.manifestVersion);
    if older.manifestVersion < m.manifestVersion {
      var opts' := opts.(checkVersion := Some(Contents(text)));
      assert EarlyStop(older, opts', embedded)
          == Some(Failure(older, NO_KEY_ID, RollbackDetected(older.manifestVersion, m.manifestVersion)));
    }
  }
}
