/** The daemon's execution receipt (`wasm::receipt::Receipt`): created
    unsigned, given placeholder key and signature by `sign`, accepted by
    `verify` whatever it holds, and stored as JSON through serde. */
module WasmReceipt {
  import opened Wrappers
  import opened Numbers
  import opened Json

  const RECEIPT_VERSION := "0.1"
  const PLACEHOLDER_PUBKEY := "placeholder_pubkey"
  const PLACEHOLDER_SIGNATURE := "placeholder_signature"
  const DESERIALIZE_FAILED := "Failed to deserialize receipt: "

  /** The seven fields, as one value. */
  datatype ReceiptData = ReceiptData(
    version: string,
    moduleHash: string,
    exitCode: u32,
    wallTimeMs: u64,
    timestamp: u64,
    nodePubkey: string,
    signature: string)

  const RECEIPT_FIELDS: seq<string> := ["version", "module_hash", "exit_code", "wall_time_ms",
                                         "timestamp", "node_pubkey", "signature"]

  /** The derived `Serialize`: one member per field, in declaration order. */
  function Encode(d: ReceiptData): (v: Json)
    ensures v.JObject? && Keys(v.members) == RECEIPT_FIELDS
  {
    JObject([("version", JString(d.version)), ("module_hash", JString(d.moduleHash)),
             ("exit_code", JInt(d.exitCode)), ("wall_time_ms", JInt(d.wallTimeMs)),
             ("timestamp", JInt(d.timestamp)), ("node_pubkey", JString(d.nodePubkey)),
             ("signature", JString(d.signature))])
  }

  /** The derived `Deserialize`: an object in which every field occurs once
      with a value of its type, other members being ignored, or an array of
      the seven values in declaration order. */
  function Decode(v: Json): (r: Option<ReceiptData>)
    ensures var o := SerdeStruct(v, RECEIPT_FIELDS);
            r.Some? <==>
              && SerdeString(o, "version").Some? && SerdeString(o, "module_hash").Some?
              && SerdeU32(o, "exit_code").Some? && SerdeU64(o, "wall_time_ms").Some?
              && SerdeU64(o, "timestamp").Some? && SerdeString(o, "node_pubkey").Some?
              && SerdeString(o, "signature").Some?
    ensures var o := SerdeStruct(v, RECEIPT_FIELDS);
            r.Some? ==>
              && SerdeString(o, "module_hash") == Some(r.value.moduleHash)
              && SerdeU32(o, "exit_code") == Some(r.value.exitCode as nat)
              && SerdeU64(o, "wall_time_ms") == Some(r.value.wallTimeMs as nat)
    ensures r.Some? ==> v.JObject? || (v.JArray? && |v.items| == |RECEIPT_FIELDS|)
  {
    var o := SerdeStruct(v, RECEIPT_FIELDS);
    var version := SerdeString(o, "version");
    var moduleHash := SerdeString(o, "module_hash");
    var exitCode := SerdeU32(o, "exit_code");
    var wallTimeMs := SerdeU64(o, "wall_time_ms");
    var timestamp := SerdeU64(o, "timestamp");
    var nodePubkey := SerdeString(o, "node_pubkey");
    var signature := SerdeString(o, "signature");
    if version.None? || moduleHash.None? || exitCode.None? || wallTimeMs.None?
      || timestamp.None? || nodePubkey.None? || signature.None? then None
    else
      assert version.Some?;
      Some(ReceiptData(version.value, moduleHash.value, exitCode.value, wallTimeMs.value,
                       timestamp.value, nodePubkey.value, signature.value))
  }

  /** Decoding what the serializer writes gives every field back. */
  lemma DecodeEncode(d: ReceiptData)
    ensures Decode(Encode(d)) == Some(d)
  {
    EncodedTextFields(d);
    EncodedNumberFields(d);
    DecodeOfFields(Encode(d), d);
  }

  /** Each text field of the serializer's object is found under its name. */
  lemma EncodedTextFields(d: ReceiptData)
    ensures SerdeString(Encode(d), "version") == Some(d.version)
    ensures SerdeString(Encode(d), "module_hash") == Some(d.moduleHash)
    ensures SerdeString(Encode(d), "node_pubkey") == Some(d.nodePubkey)
    ensures SerdeString(Encode(d), "signature") == Some(d.signature)
  {
    FieldsDistinct();
    SerdeFieldOfDistinct(Encode(d), 0);
    SerdeFieldOfDistinct(Encode(d), 1);
    SerdeFieldOfDistinct(Encode(d), 5);
    SerdeFieldOfDistinct(Encode(d), 6);
  }

  /** Each numeric field of the serializer's object is found under its
      name. */
  lemma EncodedNumberFields(d: ReceiptData)
    ensures SerdeU32(Encode(d), "exit_code") == Some(d.exitCode as nat)
    ensures SerdeU64(Encode(d), "wall_time_ms") == Some(d.wallTimeMs as nat)
    ensures SerdeU64(Encode(d), "timestamp") == Some(d.timestamp as nat)
  {
    var v := Encode(d);
    FieldsDistinct();
    SerdeFieldOfDistinct(v, 2);
    assert SerdeField(v, "exit_code") == Some(JInt(d.exitCode));
    SerdeFieldOfDistinct(v, 3);
    assert SerdeField(v, "wall_time_ms") == Some(JInt(d.wallTimeMs));
    SerdeFieldOfDistinct(v, 4);
    assert SerdeField(v, "timestamp") == Some(JInt(d.timestamp));
  }

  /** serde also reads the positional form: the encoded values as an
      array, in declaration order, decode to the same receipt. */
  lemma DecodePositional(d: ReceiptData)
    ensures Decode(JArray(Values(Encode(d).members))) == Some(d)
  {
    SerdeStructPositional(Encode(d).members, RECEIPT_FIELDS);
    DecodeEncode(d);
  }

  lemma FieldsDistinct()
    ensures Distinct(RECEIPT_FIELDS)
  {
  }

  lemma DecodeOfFields(v: Json, d: ReceiptData)
    requires SerdeString(v, "version") == Some(d.version)
    requires SerdeString(v, "module_hash") == Some(d.moduleHash)
    requires SerdeU32(v, "exit_code") == Some(d.exitCode as nat)
    requires SerdeU64(v, "wall_time_ms") == Some(d.wallTimeMs as nat)
    requires SerdeU64(v, "timestamp") == Some(d.timestamp as nat)
    requires SerdeString(v, "node_pubkey") == Some(d.nodePubkey)
    requires SerdeString(v, "signature") == Some(d.signature)
    ensures Decode(v) == Some(d)
  {
  }

  /** `from_json`: text that is not JSON, or not a receipt, is an error
      with the deserialization prefix. */
  function FromJson(c: Codec, json: string): (r: Result<ReceiptData, string>)
    ensures r.Ok? <==> c.decode(json).Some? && Decode(c.decode(json).value).Some?
    ensures r.Ok? ==> Decode(c.decode(json).value) == Some(r.value)
    ensures r.Err? ==> r.error == DESERIALIZE_FAILED
  {
    match c.decode(json)
    case None => Err(DESERIALIZE_FAILED)
    case Some(v) =>
      match Decode(v)
      case None => Err(DESERIALIZE_FAILED)
      case Some(d) => Ok(d)
  }

  /** `from_json(to_json(r))` is `r`, with a codec that decodes what it
      encodes. */
  lemma FromJsonToJson(c: Codec, d: ReceiptData)
    requires Faithful(c)
    ensures FromJson(c, c.encode(Encode(d))) == Ok(d)
  {
    assert c.decode(c.encode(Encode(d))) == Some(Encode(d));
    DecodeEncode(d);
  }

  /** `verify`: not implemented, so every receipt is accepted under every
      key. */
  function Verify(d: ReceiptData, publicKey: Bytes): (r: Result<bool, string>)
    ensures r.Ok? && r.value
  {
    Ok(true)
  }

  class Receipt {
    var version: string
    var moduleHash: string
    var exitCode: u32
    var wallTimeMs: u64
    var timestamp: u64
    var nodePubkey: string
    var signature: string

    function Data(): ReceiptData
      reads this
    {
      ReceiptData(version, moduleHash, exitCode, wallTimeMs, timestamp, nodePubkey, signature)
    }

    /** `Receipt::new`, with the clock's Unix seconds passed in as `now`:
        version "0.1", the arguments verbatim, no key and no signature. */
    constructor New(moduleHash: string, exitCode: u32, wallTimeMs: u64, now: u64)
      ensures Data() == ReceiptData(RECEIPT_VERSION, moduleHash, exitCode, wallTimeMs, now, "", "")
    {
      version := RECEIPT_VERSION;
      this.moduleHash := moduleHash;
      this.exitCode := exitCode;
      this.wallTimeMs := wallTimeMs;
      timestamp := now;
      nodePubkey := "";
      signature := "";
    }

    /** `sign`: the key is not used; the placeholders are written and the
        other five fields stay as they were. */
    method Sign(privateKey: Bytes) returns (r: Result<(), string>)
      modifies this
      ensures r == Ok(())
      ensures Data() == old(Data()).(nodePubkey := PLACEHOLDER_PUBKEY, signature := PLACEHOLDER_SIGNATURE)
    {
      nodePubkey := PLACEHOLDER_PUBKEY;
      signature := PLACEHOLDER_SIGNATURE;
      r := Ok(());
    }

    /** `to_json` (pretty-printing is the codec's business). */
    function ToJson(c: Codec): (json: string)
      reads this
      ensures Faithful(c) ==> c.decode(json) == Some(Encode(Data()))
    {
      c.encode(Encode(Data()))
    }
  }
}
