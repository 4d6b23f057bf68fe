/** The daemon's job manifest (`wasm::manifest::JobManifest`): defaults,
    an ordered validation, and JSON through serde. */
module WasmManifest {
  import opened Wrappers
  import opened Numbers
  import opened Json

  const MANIFEST_VERSION := "0.1"
  const CPU_CORES_TOO_LOW := "cpu_cores must be at least 1"
  const MEMORY_TOO_LOW := "memory_mb must be at least 1"
  const TIMEOUT_TOO_LOW := "timeout_seconds must be at least 1"
  const DESERIALIZE_FAILED := "Failed to deserialize manifest: "

  datatype JobManifest = JobManifest(
    version: string,
    moduleHash: string,
    cpuCores: u32,
    memoryMb: u64,
    timeoutSeconds: u64)

  /** `JobManifest::new`: the hash verbatim, one core, 128 MB, 300 s. */
  function New(moduleHash: string): (m: JobManifest)
    ensures m.moduleHash == moduleHash && m.version == MANIFEST_VERSION
    ensures m.cpuCores == 1 && m.memoryMb == 128 && m.timeoutSeconds == 300
  {
    JobManifest(MANIFEST_VERSION, moduleHash, 1, 128, 300)
  }

  /** `validate`: the checks run in the order cores, memory, timeout, and
      the first that fails is reported. */
  function Validate(m: JobManifest): (r: Result<(), string>)
    ensures r.Ok? <==> m.cpuCores >= 1 && m.memoryMb >= 1 && m.timeoutSeconds >= 1
    ensures m.cpuCores < 1 ==> r == Err(CPU_CORES_TOO_LOW)
    ensures m.cpuCores >= 1 && m.memoryMb < 1 ==> r == Err(MEMORY_TOO_LOW)
    ensures m.cpuCores >= 1 && m.memoryMb >= 1 && m.timeoutSeconds < 1 ==> r == Err(TIMEOUT_TOO_LOW)
  {
    if m.cpuCores < 1 then Err(CPU_CORES_TOO_LOW)
    else if m.memoryMb < 1 then Err(MEMORY_TOO_LOW)
    else if m.timeoutSeconds < 1 then Err(TIMEOUT_TOO_LOW)
    else Ok(())
  }

  /** Every manifest `new` makes is valid, whatever the hash. */
  lemma NewIsValid(moduleHash: string)
    ensures Validate(New(moduleHash)) == Ok(())
  {
  }

  const MANIFEST_FIELDS: seq<string> := ["version", "module_hash", "cpu_cores", "memory_mb", "timeout_seconds"]

  /** The derived `Serialize`. */
  function Encode(m: JobManifest): (v: Json)
    ensures v.JObject? && Keys(v.members) == MANIFEST_FIELDS
  {
    JObject([("version", JString(m.version)), ("module_hash", JString(m.moduleHash)),
             ("cpu_cores", JInt(m.cpuCores)), ("memory_mb", JInt(m.memoryMb)),
             ("timeout_seconds", JInt(m.timeoutSeconds))])
  }

  /** The derived `Deserialize`: an object with every field once, with a
      value of its type, or an array of the five values in declaration
      order. */
  function Decode(v: Json): (r: Option<JobManifest>)
    ensures var o := SerdeStruct(v, MANIFEST_FIELDS);
            r.Some? <==>
              && SerdeString(o, "version").Some? && SerdeString(o, "module_hash").Some?
              && SerdeU32(o, "cpu_cores").Some? && SerdeU64(o, "memory_mb").Some?
              && SerdeU64(o, "timeout_seconds").Some?
    ensures var o := SerdeStruct(v, MANIFEST_FIELDS);
            r.Some? ==>
              && SerdeString(o, "module_hash") == Some(r.value.moduleHash)
              && SerdeU32(o, "cpu_cores") == Some(r.value.cpuCores as nat)
  {
    var o := SerdeStruct(v, MANIFEST_FIELDS);
    var version := SerdeString(o, "version");
    var moduleHash := SerdeString(o, "module_hash");
    var cpuCores := SerdeU32(o, "cpu_cores");
    var memoryMb := SerdeU64(o, "memory_mb");
    var timeoutSeconds := SerdeU64(o, "timeout_seconds");
    if version.None? || moduleHash.None? || cpuCores.None? || memoryMb.None? || timeoutSeconds.None? then None
    else Some(JobManifest(version.value, moduleHash.value, cpuCores.value, memoryMb.value, timeoutSeconds.value))
  }

  /** Decoding what the serializer writes gives every field back. */
  lemma DecodeEncode(m: JobManifest)
    ensures Decode(Encode(m)) == Some(m)
  {
    EncodedTextFields(m);
    EncodedNumberFields(m);
    DecodeOfFields(Encode(m), m);
  }

  /** serde also reads the positional form: the encoded values as an
      array, in declaration order, decode to the same manifest. */
  lemma DecodePositional(m: JobManifest)
    ensures Decode(JArray(Values(Encode(m).members))) == Some(m)
  {
    SerdeStructPositional(Encode(m).members, MANIFEST_FIELDS);
    DecodeEncode(m);
  }

  lemma FieldsDistinct()
    ensures Distinct(MANIFEST_FIELDS)
  {
  }

  lemma EncodedTextFields(m: JobManifest)
    ensures SerdeString(Encode(m), "version") == Some(m.version)
    ensures SerdeString(Encode(m), "module_hash") == Some(m.moduleHash)
  {
    FieldsDistinct();
    SerdeFieldOfDistinct(Encode(m), 0);
    SerdeFieldOfDistinct(Encode(m), 1);
  }

  lemma EncodedNumberFields(m: JobManifest)
    ensures SerdeU32(Encode(m), "cpu_cores") == Some(m.cpuCores as nat)
    ensures SerdeU64(Encode(m), "memory_mb") == Some(m.memoryMb as nat)
    ensures SerdeU64(Encode(m), "timeout_seconds") == Some(m.timeoutSeconds as nat)
  {
    FieldsDistinct();
    SerdeFieldOfDistinct(Encode(m), 2);
    SerdeFieldOfDistinct(Encode(m), 3);
    SerdeFieldOfDistinct(Encode(m), 4);
  }

  lemma DecodeOfFields(v: Json, m: JobManifest)
    requires SerdeString(v, "version") == Some(m.version)
    requires SerdeString(v, "module_hash") == Some(m.moduleHash)
    requires SerdeU32(v, "cpu_cores") == Some(m.cpuCores as nat)
    requires SerdeU64(v, "memory_mb") == Some(m.memoryMb as nat)
    requires SerdeU64(v, "timeout_seconds") == Some(m.timeoutSeconds as nat)
    ensures Decode(v) == Some(m)
  {
  }

  /** `to_json`; serializing a plain struct cannot fail. */
  function ToJson(c: Codec, m: JobManifest): (json: string)
    ensures Faithful(c) ==> c.decode(json) == Some(Encode(m))
  {
    c.encode(Encode(m))
  }

  /** `from_json`. */
  function FromJson(c: Codec, json: string): (r: Result<JobManifest, string>)
    ensures r.Ok? <==> c.decode(json).Some? && Decode(c.decode(json).value).Some?
    ensures r.Ok? ==> Decode(c.decode(json).value) == Some(r.value)
    ensures r.Err? ==> r.error == DESERIALIZE_FAILED
  {
    match c.decode(json)
    case None => Err(DESERIALIZE_FAILED)
    case Some(v) =>
      match Decode(v)
      case None => Err(DESERIALIZE_FAILED)
      case Some(m) => Ok(m)
  }

  /** `from_json(to_json(m))` is `m`, and validity survives the trip. */
  lemma FromJsonToJson(c: Codec, m: JobManifest)
    requires Faithful(c)
    ensures FromJson(c, ToJson(c, m)) == Ok(m)
    ensures Validate(FromJson(c, ToJson(c, m)).value) == Validate(m)
  {
    assert c.decode(c.encode(Encode(m))) == Some(Encode(m));
    DecodeEncode(m);
  }
}
