/** The SDK's execution receipt (`Plasm\Receipt`): an immutable record of
    seven fields, built from a decoded JSON array by a private constructor,
    written back out as JSON, and "verified" only for local execution. */
module SdkReceipt {
  import opened Wrappers
  import opened Json
  import opened PhpErrors
  import PhpNumbers

  const RECEIPT_VERSION := "0.1"
  /** The `node_pubkey` of a receipt made for local execution. */
  const LOCAL_EXECUTION := "local_execution"
  /** The `signature` of a receipt made for local execution. */
  const UNSIGNED := "unsigned"
  const NOT_IMPLEMENTED := "Signature verification not yet implemented"

  /** Fields are assigned once, in the constructor; no method changes them. */
  datatype Receipt = Receipt(
    version: string,
    moduleHash: string,
    exitCode: int,
    wallTimeMs: int,
    timestamp: int,
    nodePubkey: string,
    signature: string)
  {
    /** `isSuccess()`: the module exited with status 0. */
    predicate IsSuccess()
      ensures IsSuccess() <==> CallGetter(this, "getExitCode") == Ok(JInt(0))
    {
      exitCode == 0
    }
  }

  /** The private constructor over `$data`: a parameter typed `array`, five
      required fields read as `$data['key']` (a missing key reads as null)
      and two optional ones read with `?? ''`, each converted to the
      property's type. */
  function Construct(data: Json): (r: Result<Receipt, Thrown>)
    ensures !(data.JObject? || data.JArray?) ==> r == Err(TypeError)
    ensures r.Ok? ==>
              && PhpToString(PhpRead(data, "version")) == Some(r.value.version)
              && PhpToString(PhpRead(data, "module_hash")) == Some(r.value.moduleHash)
              && PhpToInt(PhpRead(data, "exit_code")) == Some(r.value.exitCode)
              && PhpToInt(PhpRead(data, "wall_time_ms")) == Some(r.value.wallTimeMs)
              && PhpToInt(PhpRead(data, "timestamp")) == Some(r.value.timestamp)
    ensures r.Ok? && data.JObject? && Count(data.members, "node_pubkey") == 0 ==> r.value.nodePubkey == ""
    ensures r.Ok? && data.JObject? && Count(data.members, "signature") == 0 ==> r.value.signature == ""
    ensures PhpRead(data, "version") == JNull ==> r == Err(TypeError)
  {
    if !(data.JObject? || data.JArray?) then Err(TypeError)
    else
      var version := PhpToString(PhpRead(data, "version"));
      var moduleHash := PhpToString(PhpRead(data, "module_hash"));
      var exitCode := PhpToInt(PhpRead(data, "exit_code"));
      var wallTimeMs := PhpToInt(PhpRead(data, "wall_time_ms"));
      var timestamp := PhpToInt(PhpRead(data, "timestamp"));
      var nodePubkey := PhpToString(PhpGetOr(data, "node_pubkey", JString("")));
      var signature := PhpToString(PhpGetOr(data, "signature", JString("")));
      if version.None? || moduleHash.None? || exitCode.None? || wallTimeMs.None?
        || timestamp.None? || nodePubkey.None? || signature.None? then Err(TypeError)
      else Ok(Receipt(version.value, moduleHash.value, exitCode.value, wallTimeMs.value,
                      timestamp.value, nodePubkey.value, signature.value))
  }

  /** Numeric strings fill the `int` properties as PHP's coercion reads
      them: surrounding whitespace is skipped and `1e3` is a thousand. */
  lemma NumericStringsExample()
    ensures Construct(JObject([("version", JString("0.1")), ("module_hash", JString("sha256:ab")),
                               ("exit_code", JString(" 0")), ("wall_time_ms", JString("12 ")),
                               ("timestamp", JString("1e3"))]))
            == Ok(Receipt("0.1", "sha256:ab", 0, 12, 1000, "", ""))
  {
    var data := JObject([("version", JString("0.1")), ("module_hash", JString("sha256:ab")),
                         ("exit_code", JString(" 0")), ("wall_time_ms", JString("12 ")),
                         ("timestamp", JString("1e3"))]);
    NumericStringsRead(data);
    ConstructOfFields(data, Receipt("0.1", "sha256:ab", 0, 12, 1000, "", ""));
  }

  /** The example's fields, each read and converted. */
  lemma NumericStringsRead(data: Json)
    requires data == JObject([("version", JString("0.1")), ("module_hash", JString("sha256:ab")),
                              ("exit_code", JString(" 0")), ("wall_time_ms", JString("12 ")),
                              ("timestamp", JString("1e3"))])
    ensures PhpToString(PhpRead(data, "version")) == Some("0.1")
    ensures PhpToString(PhpRead(data, "module_hash")) == Some("sha256:ab")
    ensures PhpToInt(PhpRead(data, "exit_code")) == Some(0)
    ensures PhpToInt(PhpRead(data, "wall_time_ms")) == Some(12)
    ensures PhpToInt(PhpRead(data, "timestamp")) == Some(1000)
    ensures PhpRead(data, "node_pubkey") == JNull && PhpRead(data, "signature") == JNull
  {
    NumericStringsMembers(data);
    PhpNumbers.PaddedExamples();
    PhpNumbers.ExponentExample();
    assert PhpToInt(JString(" 0")) == Some(0);
    assert PhpToInt(JString("12 ")) == Some(12);
    assert PhpToInt(JString("1e3")) == Some(1000);
  }

  /** The example object's members, read by name. */
  lemma NumericStringsMembers(data: Json)
    requires data == JObject([("version", JString("0.1")), ("module_hash", JString("sha256:ab")),
                              ("exit_code", JString(" 0")), ("wall_time_ms", JString("12 ")),
                              ("timestamp", JString("1e3"))])
    ensures PhpRead(data, "version") == JString("0.1")
    ensures PhpRead(data, "module_hash") == JString("sha256:ab")
    ensures PhpRead(data, "exit_code") == JString(" 0")
    ensures PhpRead(data, "wall_time_ms") == JString("12 ")
    ensures PhpRead(data, "timestamp") == JString("1e3")
    ensures PhpRead(data, "node_pubkey") == JNull && PhpRead(data, "signature") == JNull
  {
    assert Count(data.members, "node_pubkey") == 0 && Count(data.members, "signature") == 0;
    assert Distinct(Keys(data.members));
    var names := ["version", "module_hash", "exit_code", "wall_time_ms", "timestamp"];
    forall i | 0 <= i < 5
      ensures PhpGet(data.members, names[i]) == Some(data.members[i].1)
    {
      DistinctKeysLookup(data.members, i);
    }
  }

  /** An object whose fields convert constructs the receipt of those values. */
  lemma ConstructOfFields(data: Json, r: Receipt)
    requires data.JObject?
    requires PhpToString(PhpRead(data, "version")) == Some(r.version)
    requires PhpToString(PhpRead(data, "module_hash")) == Some(r.moduleHash)
    requires PhpToInt(PhpRead(data, "exit_code")) == Some(r.exitCode)
    requires PhpToInt(PhpRead(data, "wall_time_ms")) == Some(r.wallTimeMs)
    requires PhpToInt(PhpRead(data, "timestamp")) == Some(r.timestamp)
    requires PhpRead(data, "node_pubkey") == JNull && r.nodePubkey == ""
    requires PhpRead(data, "signature") == JNull && r.signature == ""
    ensures Construct(data) == Ok(r)
  {
  }

  /** `Receipt::fromJson`: text that does not parse throws
      `InvalidArgumentException` before any field is read. */
  function FromJson(c: Codec, json: string): (r: Result<Receipt, Thrown>)
    ensures c.decode(json).None? ==> r.Err? && r.error.InvalidArgumentException?
    ensures c.decode(json).Some? ==> r == Construct(c.decode(json).value)
  {
    match c.decode(json)
    case None => Err(InvalidArgumentException("Invalid JSON"))
    case Some(data) => Construct(data)
  }

  const RECEIPT_KEYS: seq<string> := ["version", "module_hash", "exit_code", "wall_time_ms",
                                       "timestamp", "node_pubkey", "signature"]

  lemma ReceiptKeysDistinct()
    ensures Distinct(RECEIPT_KEYS)
  {
  }

  /** The array `toJson` encodes: the seven fields, in declaration order. */
  function ToJsonValue(r: Receipt): (v: Json)
    ensures v.JObject? && Keys(v.members) == RECEIPT_KEYS
  {
    JObject([("version", JString(r.version)), ("module_hash", JString(r.moduleHash)),
             ("exit_code", JInt(r.exitCode)), ("wall_time_ms", JInt(r.wallTimeMs)),
             ("timestamp", JInt(r.timestamp)), ("node_pubkey", JString(r.nodePubkey)),
             ("signature", JString(r.signature))])
  }

  /** `toJson` (pretty-printing is the codec's business). */
  function ToJson(c: Codec, r: Receipt): (json: string)
    ensures Faithful(c) ==> c.decode(json) == Some(ToJsonValue(r))
  {
    c.encode(ToJsonValue(r))
  }

  /** Reading each key of the array `toJson` encodes gives its field. */
  lemma {:induction false} ReadsOfToJsonValue(r: Receipt)
    ensures PhpRead(ToJsonValue(r), "version") == JString(r.version)
    ensures PhpRead(ToJsonValue(r), "module_hash") == JString(r.moduleHash)
    ensures PhpRead(ToJsonValue(r), "exit_code") == JInt(r.exitCode)
    ensures PhpRead(ToJsonValue(r), "wall_time_ms") == JInt(r.wallTimeMs)
    ensures PhpRead(ToJsonValue(r), "timestamp") == JInt(r.timestamp)
    ensures PhpGetOr(ToJsonValue(r), "node_pubkey", JString("")) == JString(r.nodePubkey)
    ensures PhpGetOr(ToJsonValue(r), "signature", JString("")) == JString(r.signature)
  {
    var v := ToJsonValue(r);
    assert PhpRead(v, "version") == JString(r.version) by { ReceiptMember(r, 0); }
    assert PhpRead(v, "module_hash") == JString(r.moduleHash) by { ReceiptMember(r, 1); }
    assert PhpRead(v, "exit_code") == JInt(r.exitCode) by { ReceiptMember(r, 2); }
    assert PhpRead(v, "wall_time_ms") == JInt(r.wallTimeMs) by { ReceiptMember(r, 3); }
    assert PhpRead(v, "timestamp") == JInt(r.timestamp) by { ReceiptMember(r, 4); }
    assert PhpRead(v, "node_pubkey") == JString(r.nodePubkey) by { ReceiptMember(r, 5); }
    assert PhpRead(v, "signature") == JString(r.signature) by { ReceiptMember(r, 6); }
  }

  /** The `i`-th key of the encoded receipt reads back its `i`-th value. */
  lemma ReceiptMember(r: Receipt, i: nat)
    requires i < |RECEIPT_KEYS|
    ensures PhpRead(ToJsonValue(r), RECEIPT_KEYS[i]) == ToJsonValue(r).members[i].1
  {
    var m := ToJsonValue(r).members;
    ReceiptKeysDistinct();
    assert Keys(m)[i] == m[i].0;
    DistinctKeysLookup(m, i);
  }

  /** `fromJson(toJson(r))` reproduces every field. */
  lemma FromJsonToJson(c: Codec, r: Receipt)
    requires Faithful(c)
    ensures FromJson(c, ToJson(c, r)) == Ok(r)
  {
    var v := ToJsonValue(r);
    assert c.decode(c.encode(v)) == Some(v);
    ReadsOfToJsonValue(r);
  }

  /** `createMock`, with `time()` passed in as `now`: version "0.1", the
      caller's hash, exit code and wall time, and the local-execution
      sentinels in place of a key and a signature. */
  function CreateMock(moduleHash: string, exitCode: int, wallTimeMs: int, now: int): (r: Receipt)
    ensures r.version == RECEIPT_VERSION && r.moduleHash == moduleHash
    ensures r.exitCode == exitCode && r.wallTimeMs == wallTimeMs && r.timestamp == now
    ensures r.nodePubkey == LOCAL_EXECUTION && r.signature == UNSIGNED
  {
    var fields := Receipt(RECEIPT_VERSION, moduleHash, exitCode, wallTimeMs, now, LOCAL_EXECUTION, UNSIGNED);
    ReadsOfToJsonValue(fields);
    Construct(ToJsonValue(fields)).value
  }

  /** A getter's name: `get` followed by the property's name. */
  predicate IsGetterName(name: string) {
    |name| > 3 && name[..3] == "get"
  }

  /** A getter call `$receipt->getX()`: of the getters, only `getExitCode`,
      `getWallTimeMs` and `getTimestamp` exist; any other getter name is a
      call to an undefined method. (The receipt's other public methods,
      `isSuccess`, `toJson` and `verify`, are `Receipt.IsSuccess`, `ToJson`
      and `Verify`.) */
  function CallGetter(r: Receipt, name: string): (v: Result<Json, Thrown>)
    requires IsGetterName(name)
    ensures v.Err? <==> name !in {"getExitCode", "getWallTimeMs", "getTimestamp"}
    ensures v.Err? ==> v.error == UndefinedMethod(name)
  {
    if name == "getExitCode" then Ok(JInt(r.exitCode))
    else if name == "getWallTimeMs" then Ok(JInt(r.wallTimeMs))
    else if name == "getTimestamp" then Ok(JInt(r.timestamp))
    else Err(UndefinedMethod(name))
  }

  /** `verify($publicKey)`: true for a local-execution receipt whatever the
      signature and the key argument; every other receipt throws, because
      signature checking is not implemented here. */
  function Verify(r: Receipt, publicKey: Option<string>): (v: Result<bool, Thrown>)
    ensures v.Ok? <==> r.nodePubkey == LOCAL_EXECUTION
    ensures v.Ok? ==> v.value
    ensures v.Err? ==> v.error == RuntimeException(NOT_IMPLEMENTED)
  {
    if r.nodePubkey == LOCAL_EXECUTION then Ok(true)
    else Err(RuntimeException(NOT_IMPLEMENTED))
  }

  /** Every mock receipt verifies, for any key argument. */
  lemma MockVerifies(moduleHash: string, exitCode: int, wallTimeMs: int, now: int, publicKey: Option<string>)
    ensures Verify(CreateMock(moduleHash, exitCode, wallTimeMs, now), publicKey) == Ok(true)
  {
  }
}
