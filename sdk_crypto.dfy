/** The SDK's signature checks (`Plasm\Crypto`): the canonical receipt
    message, and hex-encoded Ed25519 verification over the SHA-256 digest of
    a message, with the key and signature formats checked first. */
module SdkCrypto {
  import opened Wrappers
  import opened Numbers
  import opened Strings
  import Hex
  import opened Json
  import opened Primitives
  import opened PhpErrors
  import opened SdkReceipt

  const NO_PUBLIC_KEY := "Receipt has no public key"
  const NO_SIGNATURE := "Receipt has no signature"
  const BAD_PUBLIC_KEY := "Invalid public key format"
  const BAD_SIGNATURE := "Invalid signature format"

  /** `getCanonicalMessage`: `sprintf("%s|%s|%d|%d|%d", …)` over the
      version, module hash, exit code, wall time and timestamp. */
  function CanonicalMessage(version: string, moduleHash: string, exitCode: int, wallTimeMs: int, timestamp: int)
    : (msg: string)
    ensures msg == Join([version, moduleHash, IntToDecimal(exitCode), IntToDecimal(wallTimeMs),
                         IntToDecimal(timestamp)], "|")
  {
    JoinFive(version, moduleHash, IntToDecimal(exitCode), IntToDecimal(wallTimeMs), IntToDecimal(timestamp));
    version + "|" + moduleHash + "|" + IntToDecimal(exitCode) + "|" + IntToDecimal(wallTimeMs)
      + "|" + IntToDecimal(timestamp)
  }

  /** The canonical message of a receipt: its key and signature take no
      part in it. */
  function ReceiptMessage(r: Receipt): string
  {
    CanonicalMessage(r.version, r.moduleHash, r.exitCode, r.wallTimeMs, r.timestamp)
  }

  /** No `%d` text holds the separator. */
  lemma DecimalHasNoBar(i: int)
    ensures '|' !in IntToDecimal(i)
  {
    var d := NatToDecimal(if i >= 0 then i else -i);
    assert forall k :: 0 <= k < |d| ==> d[k] != '|';
    if i < 0 {
      assert forall k :: 0 <= k < |IntToDecimal(i)| ==> IntToDecimal(i)[k] == '-' || IntToDecimal(i)[k] == d[k - 1];
    }
  }

  /** When neither text field holds `|`, splitting the message on `|`
      gives back exactly the five fields. */
  lemma {:induction false} CanonicalMessageFields(version: string, moduleHash: string, exitCode: int, wallTimeMs: int, timestamp: int)
    requires '|' !in version && '|' !in moduleHash
    ensures Split(CanonicalMessage(version, moduleHash, exitCode, wallTimeMs, timestamp), '|')
         == [version, moduleHash, IntToDecimal(exitCode), IntToDecimal(wallTimeMs), IntToDecimal(timestamp)]
  {
    var parts := [version, moduleHash, IntToDecimal(exitCode), IntToDecimal(wallTimeMs), IntToDecimal(timestamp)];
    DecimalHasNoBar(exitCode);
    DecimalHasNoBar(wallTimeMs);
    DecimalHasNoBar(timestamp);
    JoinFive(version, moduleHash, IntToDecimal(exitCode), IntToDecimal(wallTimeMs), IntToDecimal(timestamp));
    assert forall k :: 0 <= k < |parts| ==> '|' !in parts[k];
    SplitJoin(parts, '|');
  }

  lemma JoinFive(a: string, b: string, c: string, d: string, e: string)
    ensures Join([a, b, c, d, e], "|") == a + "|" + b + "|" + c + "|" + d + "|" + e
  {
    var parts := [a, b, c, d, e];
    assert Join(parts[4..], "|") == e;
    assert Join(parts[3..], "|") == d + "|" + e;
    assert Join(parts[2..], "|") == c + "|" + d + "|" + e;
    assert Join(parts[1..], "|") == b + "|" + c + "|" + d + "|" + e;
  }

  /** Under the same condition two receipts have the same message only if
      they agree on all five fields. */
  lemma CanonicalMessageInjective(r1: Receipt, r2: Receipt)
    requires '|' !in r1.version && '|' !in r1.moduleHash
    requires '|' !in r2.version && '|' !in r2.moduleHash
    requires ReceiptMessage(r1) == ReceiptMessage(r2)
    ensures r1.version == r2.version && r1.moduleHash == r2.moduleHash
    ensures r1.exitCode == r2.exitCode && r1.wallTimeMs == r2.wallTimeMs && r1.timestamp == r2.timestamp
  {
    CanonicalMessageFields(r1.version, r1.moduleHash, r1.exitCode, r1.wallTimeMs, r1.timestamp);
    CanonicalMessageFields(r2.version, r2.moduleHash, r2.exitCode, r2.wallTimeMs, r2.timestamp);
    IntToDecimalInjective(r1.exitCode, r2.exitCode);
    IntToDecimalInjective(r1.wallTimeMs, r2.wallTimeMs);
    IntToDecimalInjective(r1.timestamp, r2.timestamp);
  }

  /** The format does not escape `|`: moving it between the version and the
      module hash leaves the message, and so any signature over it,
      unchanged. */
  lemma CanonicalMessageAmbiguous()
    ensures CanonicalMessage("0.1|a", "b", 0, 0, 0) == CanonicalMessage("0.1", "a|b", 0, 0, 0)
  {
  }

  /** PHP `empty()` of a string: the empty string and "0". */
  predicate PhpEmpty(s: string) { s == "" || s == "0" }

  /** Hex text that decodes to exactly `n` bytes. */
  predicate IsHexOfLength(s: string, n: nat) {
    |s| == 2 * n && Hex.AllHex(s)
  }

  /** `verifySignature($message, $signatureHex, $pubkeyHex)`: the key must
      be hex for 32 bytes, checked first, then the signature hex for 64
      bytes; a well-formed pair answers whether the signature verifies over
      SHA-256 of the message. */
  function VerifySignature(p: Suite, message: string, signatureHex: string, pubkeyHex: string): (r: Result<bool, Thrown>)
    ensures r == Err(RuntimeException(BAD_PUBLIC_KEY)) <==> !IsHexOfLength(pubkeyHex, PUBLIC_KEY_LEN)
    ensures r == Err(RuntimeException(BAD_SIGNATURE))
        <==> IsHexOfLength(pubkeyHex, PUBLIC_KEY_LEN) && !IsHexOfLength(signatureHex, SIGNATURE_LEN)
    ensures r.Ok? <==> IsHexOfLength(pubkeyHex, PUBLIC_KEY_LEN) && IsHexOfLength(signatureHex, SIGNATURE_LEN)
    ensures r.Ok? ==>
              && Hex.Decode(pubkeyHex).Some? && Hex.Decode(signatureHex).Some?
              && r.value == p.verify(Hex.Decode(pubkeyHex).value, p.sha256(p.utf8(message)),
                                     Hex.Decode(signatureHex).value)
  {
    Hex.DecodeSucceeds(pubkeyHex);
    Hex.DecodeSucceeds(signatureHex);
    var pub := Hex.Decode(pubkeyHex);
    var sig := Hex.Decode(signatureHex);
    if pub.None? || |pub.value| != PUBLIC_KEY_LEN then Err(RuntimeException(BAD_PUBLIC_KEY))
    else if sig.None? || |sig.value| != SIGNATURE_LEN then Err(RuntimeException(BAD_SIGNATURE))
    else Ok(p.verify(pub.value, p.sha256(p.utf8(message)), sig.value))
  }

  /** The hex signature `verifySignature` accepts for `message` under the
      signing key `sk`: made over the digest, not over the message. */
  function SignatureHexFor(p: Suite, sk: Bytes, message: string): string
  {
    Hex.Encode(p.sign(sk, p.sha256(p.utf8(message))))
  }

  /** A signature made over the message's digest verifies. */
  lemma SignedMessageVerifies(p: Suite, sk: Bytes, message: string)
    requires Sound(p)
    ensures VerifySignature(p, message, SignatureHexFor(p, sk, message), Hex.Encode(p.publicKey(sk))) == Ok(true)
  {
    var sig := p.sign(sk, p.sha256(p.utf8(message)));
    var pub := p.publicKey(sk);
    Hex.DecodeEncode(sig);
    Hex.DecodeEncode(pub);
    Hex.DecodeSucceeds(Hex.Encode(sig));
    Hex.DecodeSucceeds(Hex.Encode(pub));
  }

  /** A well-formed signature over another message's digest is answered
      with `false`, not with an exception. */
  lemma OtherMessageFails(p: Suite, sk: Bytes, signed: string, message: string)
    requires Sound(p) && Unforgeable(p)
    requires NoCollision(p, p.utf8(signed), p.utf8(message))
    ensures VerifySignature(p, message, SignatureHexFor(p, sk, signed), Hex.Encode(p.publicKey(sk))) == Ok(false)
  {
    var sig := p.sign(sk, p.sha256(p.utf8(signed)));
    var pub := p.publicKey(sk);
    Hex.DecodeEncode(sig);
    Hex.DecodeEncode(pub);
    Hex.DecodeSucceeds(Hex.Encode(sig));
    Hex.DecodeSucceeds(Hex.Encode(pub));
  }

  /** `verifyReceipt` as written: it asks the receipt for `getNodePubkey()`,
      which `Receipt` does not define, so the call throws before any check
      runs. The remaining steps (`getSignature`, `getVersion`,
      `getModuleHash`) are unreachable and fail the same way. The getter
      calls have no side effects, so their outcomes are named up front and
      consulted in the source's order. */
  function VerifyReceiptAsWritten(p: Suite, r: Receipt): (v: Result<bool, Thrown>)
  {
    var getPubkey := CallGetter(r, "getNodePubkey");
    var getSignature := CallGetter(r, "getSignature");
    var getVersion := CallGetter(r, "getVersion");
    var getModuleHash := CallGetter(r, "getModuleHash");
    match getPubkey
    case Err(e) => Err(e)
    case Ok(pubkey) =>
      if PhpEmpty(Interpolate(pubkey)) then Err(RuntimeException(NO_PUBLIC_KEY))
      else
        match getSignature
        case Err(e) => Err(e)
        case Ok(signature) =>
          if PhpEmpty(Interpolate(signature)) then Err(RuntimeException(NO_SIGNATURE))
          else
            match (getVersion, getModuleHash)
            case (Err(e), _) => Err(e)
            case (_, Err(e)) => Err(e)
            case (Ok(version), Ok(moduleHash)) =>
              VerifySignature(p, CanonicalMessage(Interpolate(version), Interpolate(moduleHash),
                                                  r.exitCode, r.wallTimeMs, r.timestamp),
                              Interpolate(signature), Interpolate(pubkey))
  }

  /** Every receipt, signed or not, makes `verifyReceipt` throw. */
  lemma VerifyReceiptAsWrittenThrows(p: Suite, r: Receipt)
    ensures VerifyReceiptAsWritten(p, r) == Err(UndefinedMethod("getNodePubkey"))
  {
  }

  /** `verifyReceipt` as intended, reading the receipt's own fields: an
      empty key, then an empty signature, are reported before the format
      checks and the verification of `verifySignature` over the canonical
      message. */
  function VerifyReceipt(p: Suite, r: Receipt): (v: Result<bool, Thrown>)
    ensures PhpEmpty(r.nodePubkey) ==> v == Err(RuntimeException(NO_PUBLIC_KEY))
    ensures !PhpEmpty(r.nodePubkey) && PhpEmpty(r.signature) ==> v == Err(RuntimeException(NO_SIGNATURE))
    ensures !PhpEmpty(r.nodePubkey) && !PhpEmpty(r.signature)
        ==> v == VerifySignature(p, ReceiptMessage(r), r.signature, r.nodePubkey)
  {
    if PhpEmpty(r.nodePubkey) then Err(RuntimeException(NO_PUBLIC_KEY))
    else if PhpEmpty(r.signature) then Err(RuntimeException(NO_SIGNATURE))
    else VerifySignature(p, ReceiptMessage(r), r.signature, r.nodePubkey)
  }

  /** A receipt whose key and signature were filled in by the holder of
      `sk`, signing the canonical message, verifies. */
  lemma SignedReceiptVerifies(p: Suite, sk: Bytes, r: Receipt)
    requires Sound(p)
    ensures VerifyReceipt(p, r.(nodePubkey := Hex.Encode(p.publicKey(sk)),
                                signature := SignatureHexFor(p, sk, ReceiptMessage(r)))) == Ok(true)
  {
    var signed := r.(nodePubkey := Hex.Encode(p.publicKey(sk)),
                     signature := SignatureHexFor(p, sk, ReceiptMessage(r)));
    assert ReceiptMessage(signed) == ReceiptMessage(r);
    assert |signed.nodePubkey| == 64 && |signed.signature| == 128;
    SignedMessageVerifies(p, sk, ReceiptMessage(r));
  }

  /** Changing the exit code, wall time or timestamp of a signed receipt
      makes it fail verification (given that the two messages' digests
      differ). */
  lemma TamperedReceiptFails(p: Suite, sk: Bytes, r: Receipt, forged: Receipt)
    requires Sound(p) && Unforgeable(p)
    requires NoCollision(p, p.utf8(ReceiptMessage(r)), p.utf8(ReceiptMessage(forged)))
    requires forged.nodePubkey == Hex.Encode(p.publicKey(sk))
    requires forged.signature == SignatureHexFor(p, sk, ReceiptMessage(r))
    ensures VerifyReceipt(p, forged) == Ok(false)
  {
    assert |forged.nodePubkey| == 64 && |forged.signature| == 128;
    OtherMessageFails(p, sk, ReceiptMessage(r), ReceiptMessage(forged));
  }

  /** A mock receipt from local execution fails the format check: its key
      "local_execution" is not hex. */
  lemma MockReceiptRejected(p: Suite, moduleHash: string, exitCode: int, wallTimeMs: int, now: int)
    ensures VerifyReceipt(p, CreateMock(moduleHash, exitCode, wallTimeMs, now)) == Err(RuntimeException(BAD_PUBLIC_KEY))
  {
    var r := CreateMock(moduleHash, exitCode, wallTimeMs, now);
    assert !Hex.IsHexChar(r.nodePubkey[0]);
  }
}
