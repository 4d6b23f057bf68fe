/** The messages nodes and clients exchange (`network::protocol`): offers,
    responses, requests carrying the module as base64 text, and results. */
module Protocol {
  import opened Wrappers
  import opened Numbers
  import opened Json
  import Base64

  const EMPTY_JOB_ID := "job_id cannot be empty"
  const EMPTY_WASM := "wasm_bytes cannot be empty"
  const CPU_CORES_TOO_LOW := "cpu_cores must be at least 1"

  datatype JobRequirements = JobRequirements(
    cpuCores: u32,
    memoryMb: u64,
    timeoutSeconds: u64,
    arch: string,
    wasmRuntime: string)

  datatype JobOffer = JobOffer(jobId: string, nonce: string, moduleHash: string, requirements: JobRequirements)

  datatype RejectionReason =
    | InsufficientResources(missing: string)
    | ArchMismatch(required: string, available: string)
    | RuntimeNotSupported(required: string)
    | QueueFull
    | InvalidRequest(details: string)

  datatype JobResponse =
    | Accepted(jobId: string, estimatedStart: u64, nodePeerId: string)
    | Rejected(jobId: string, reason: RejectionReason)

  /** `JobRequest::new` is this constructor: the five arguments are stored
      as given. */
  datatype JobRequest = JobRequest(
    jobId: string,
    moduleHash: string,
    wasmBytes: Bytes,
    args: seq<string>,
    requirements: JobRequirements)

  datatype JobResult = JobResult(jobId: string, stdout: string, stderr: string, exitCode: u32, receiptJson: string)

  /** `validate`: the job id, then the module bytes, then the core count;
      the first failing check is reported. */
  function Validate(r: JobRequest): (v: Result<(), string>)
    ensures v.Ok? <==> r.jobId != "" && r.wasmBytes != [] && r.requirements.cpuCores >= 1
    ensures r.jobId == "" ==> v == Err(EMPTY_JOB_ID)
    ensures r.jobId != "" && r.wasmBytes == [] ==> v == Err(EMPTY_WASM)
    ensures r.jobId != "" && r.wasmBytes != [] && r.requirements.cpuCores < 1 ==> v == Err(CPU_CORES_TOO_LOW)
  {
    if |r.jobId| == 0 then Err(EMPTY_JOB_ID)
    else if |r.wasmBytes| == 0 then Err(EMPTY_WASM)
    else if r.requirements.cpuCores < 1 then Err(CPU_CORES_TOO_LOW)
    else Ok(())
  }

  /** The hash, the arguments, the memory, the timeout, the architecture
      and the runtime play no part in validation. */
  lemma ValidateIgnoresOtherFields(r: JobRequest, hash: string, args: seq<string>, memoryMb: u64,
                                   timeoutSeconds: u64, arch: string, runtime: string)
    ensures Validate(r.(moduleHash := hash, args := args,
                        requirements := r.requirements.(memoryMb := memoryMb, timeoutSeconds := timeoutSeconds,
                                                        arch := arch, wasmRuntime := runtime)))
            == Validate(r)
  {
  }

  // ---------------------------------------------------------------------
  // JSON through serde, with the module bytes as base64 text.

  const REQUIREMENTS_FIELDS: seq<string> := ["cpu_cores", "memory_mb", "timeout_seconds", "arch", "wasm_runtime"]
  const REQUEST_FIELDS: seq<string> := ["job_id", "module_hash", "wasm_bytes", "args", "requirements"]

  function EncodeRequirements(q: JobRequirements): (v: Json)
    ensures v.JObject? && Keys(v.members) == REQUIREMENTS_FIELDS
  {
    JObject([("cpu_cores", JInt(q.cpuCores)), ("memory_mb", JInt(q.memoryMb)),
             ("timeout_seconds", JInt(q.timeoutSeconds)), ("arch", JString(q.arch)),
             ("wasm_runtime", JString(q.wasmRuntime))])
  }

  /** The derived `Deserialize`: an object with every field once, other
      members ignored, or an array of the five values in declaration order. */
  function DecodeRequirements(v: Json): (r: Option<JobRequirements>)
    ensures var o := SerdeStruct(v, REQUIREMENTS_FIELDS);
            r.Some? <==>
              && SerdeU32(o, "cpu_cores").Some? && SerdeU64(o, "memory_mb").Some?
              && SerdeU64(o, "timeout_seconds").Some? && SerdeString(o, "arch").Some?
              && SerdeString(o, "wasm_runtime").Some?
  {
    var o := SerdeStruct(v, REQUIREMENTS_FIELDS);
    var cpuCores := SerdeU32(o, "cpu_cores");
    var memoryMb := SerdeU64(o, "memory_mb");
    var timeoutSeconds := SerdeU64(o, "timeout_seconds");
    var arch := SerdeString(o, "arch");
    var wasmRuntime := SerdeString(o, "wasm_runtime");
    if cpuCores.None? || memoryMb.None? || timeoutSeconds.None? || arch.None? || wasmRuntime.None? then None
    else Some(JobRequirements(cpuCores.value, memoryMb.value, timeoutSeconds.value, arch.value, wasmRuntime.value))
  }

  lemma DecodeEncodeRequirements(q: JobRequirements)
    ensures DecodeRequirements(EncodeRequirements(q)) == Some(q)
  {
    EncodedRequirementsFields(q);
    DecodeRequirementsOfFields(EncodeRequirements(q), q);
  }

  /** Each field of encoded requirements reads back as what was written. */
  lemma EncodedRequirementsFields(q: JobRequirements)
    ensures var v := EncodeRequirements(q);
            && SerdeU32(v, "cpu_cores") == Some(q.cpuCores as nat)
            && SerdeU64(v, "memory_mb") == Some(q.memoryMb as nat)
            && SerdeU64(v, "timeout_seconds") == Some(q.timeoutSeconds as nat)
            && SerdeString(v, "arch") == Some(q.arch)
            && SerdeString(v, "wasm_runtime") == Some(q.wasmRuntime)
  {
    var v := EncodeRequirements(q);
    RequirementsFieldsDistinct();
    SerdeFieldOfDistinct(v, 0);
    SerdeFieldOfDistinct(v, 1);
    SerdeFieldOfDistinct(v, 2);
    SerdeFieldOfDistinct(v, 3);
    SerdeFieldOfDistinct(v, 4);
  }

  lemma DecodeRequirementsOfFields(v: Json, q: JobRequirements)
    requires SerdeU32(v, "cpu_cores") == Some(q.cpuCores as nat)
    requires SerdeU64(v, "memory_mb") == Some(q.memoryMb as nat)
    requires SerdeU64(v, "timeout_seconds") == Some(q.timeoutSeconds as nat)
    requires SerdeString(v, "arch") == Some(q.arch)
    requires SerdeString(v, "wasm_runtime") == Some(q.wasmRuntime)
    ensures DecodeRequirements(v) == Some(q)
  {
  }

  /** serde also reads the positional form: the encoded values as an
      array, in declaration order, decode to the same requirements. */
  lemma DecodeRequirementsPositional(q: JobRequirements)
    ensures DecodeRequirements(JArray(Values(EncodeRequirements(q).members))) == Some(q)
  {
    SerdeStructPositional(EncodeRequirements(q).members, REQUIREMENTS_FIELDS);
    DecodeEncodeRequirements(q);
  }

  lemma RequirementsFieldsDistinct()
    ensures Distinct(REQUIREMENTS_FIELDS)
  {
  }

  lemma RequestFieldsDistinct()
    ensures Distinct(REQUEST_FIELDS)
  {
  }

  /** A `Vec<String>` as a JSON array of strings. */
  function EncodeStrings(ss: seq<string>): (items: seq<Json>)
    ensures |items| == |ss|
  {
    if |ss| == 0 then [] else [JString(ss[0])] + EncodeStrings(ss[1..])
  }

  /** Every item must be a string. */
  function DecodeStrings(items: seq<Json>): (r: Option<seq<string>>)
    ensures r.Some? ==> |r.value| == |items|
    ensures r.Some? <==> forall k :: 0 <= k < |items| ==> items[k].JString?
  {
    if |items| == 0 then Some([])
    else if !items[0].JString? then None
    else
      match DecodeStrings(items[1..])
      case None =>
        assert !(forall k :: 0 <= k < |items[1..]| ==> items[1..][k].JString?);
        None
      case Some(rest) => Some([items[0].s] + rest)
  }

  lemma {:induction false} DecodeEncodeStrings(ss: seq<string>)
    ensures DecodeStrings(EncodeStrings(ss)) == Some(ss)
  {
    if |ss| > 0 {
      DecodeEncodeStrings(ss[1..]);
      assert EncodeStrings(ss)[1..] == EncodeStrings(ss[1..]);
      assert [ss[0]] + ss[1..] == ss;
    }
  }

  /** `serde_bytes_base64::serialize` for the module and the derived
      `Serialize` for the rest. */
  function EncodeRequest(r: JobRequest): (v: Json)
    ensures v.JObject? && Keys(v.members) == REQUEST_FIELDS
  {
    JObject([("job_id", JString(r.jobId)), ("module_hash", JString(r.moduleHash)),
             ("wasm_bytes", JString(Base64.Encode(r.wasmBytes))),
             ("args", JArray(EncodeStrings(r.args))),
             ("requirements", EncodeRequirements(r.requirements))])
  }

  /** `serde_bytes_base64::deserialize`: a string that is canonical
      base64, or an error. */
  function DecodeWasmBytes(v: Json): (r: Option<Bytes>)
    ensures r.Some? ==> v.JString? && Base64.Decode(v.s) == r
  {
    match v
    case JString(s) => Base64.Decode(s)
    case _ => None
  }

  function DecodeArgs(v: Json): Option<seq<string>>
  {
    match v
    case JArray(items) => DecodeStrings(items)
    case _ => None
  }

  /** The derived `Deserialize`, with `serde_bytes_base64` for the module:
      an object with every field once, other members ignored, or an array of
      the five values in declaration order; the requirements are read the
      same way in either form. */
  function DecodeRequest(v: Json): (r: Option<JobRequest>)
    ensures var o := SerdeStruct(v, REQUEST_FIELDS);
            r.Some? ==> SerdeField(o, "wasm_bytes").Some? && DecodeWasmBytes(SerdeField(o, "wasm_bytes").value) == Some(r.value.wasmBytes)
    ensures var o := SerdeStruct(v, REQUEST_FIELDS);
            r.Some? ==> SerdeString(o, "job_id") == Some(r.value.jobId)
    ensures var o := SerdeStruct(v, REQUEST_FIELDS);
            r.Some? ==> SerdeField(o, "requirements").Some? && DecodeRequirements(SerdeField(o, "requirements").value) == Some(r.value.requirements)
    ensures var o := SerdeStruct(v, REQUEST_FIELDS);
            SerdeField(o, "wasm_bytes").None? ==> r.None?
  {
    var o := SerdeStruct(v, REQUEST_FIELDS);
    var jobId := SerdeString(o, "job_id");
    var moduleHash := SerdeString(o, "module_hash");
    var wasm := SerdeField(o, "wasm_bytes");
    var args := SerdeField(o, "args");
    var reqs := SerdeField(o, "requirements");
    if jobId.None? || moduleHash.None? || wasm.None? || args.None? || reqs.None? then None
    else
      match (DecodeWasmBytes(wasm.value), DecodeArgs(args.value), DecodeRequirements(reqs.value))
      case (Some(b), Some(a), Some(q)) => Some(JobRequest(jobId.value, moduleHash.value, b, a, q))
      case _ => None
  }

  /** A request survives serialization: in particular the module bytes come
      back from their base64 text unchanged. */
  lemma {:induction false} DecodeEncodeRequest(r: JobRequest)
    ensures DecodeRequest(EncodeRequest(r)) == Some(r)
  {
    var v := EncodeRequest(r);
    EncodedRequestFields(r);
    assert DecodeWasmBytes(JString(Base64.Encode(r.wasmBytes))) == Some(r.wasmBytes) by {
      Base64.DecodeEncode(r.wasmBytes);
    }
    assert DecodeArgs(JArray(EncodeStrings(r.args))) == Some(r.args) by {
      DecodeEncodeStrings(r.args);
    }
    DecodeEncodeRequirements(r.requirements);
    DecodeRequestOfFields(v, r);
  }

  /** serde also reads the positional form: the encoded values as an
      array, in declaration order, decode to the same request. */
  lemma DecodeRequestPositional(r: JobRequest)
    ensures DecodeRequest(JArray(Values(EncodeRequest(r).members))) == Some(r)
  {
    SerdeStructPositional(EncodeRequest(r).members, REQUEST_FIELDS);
    DecodeEncodeRequest(r);
  }

  /** Each field of an encoded request reads back as what was written. */
  lemma EncodedRequestFields(r: JobRequest)
    ensures var v := EncodeRequest(r);
            && SerdeString(v, "job_id") == Some(r.jobId)
            && SerdeString(v, "module_hash") == Some(r.moduleHash)
            && SerdeField(v, "wasm_bytes") == Some(JString(Base64.Encode(r.wasmBytes)))
            && SerdeField(v, "args") == Some(JArray(EncodeStrings(r.args)))
            && SerdeField(v, "requirements") == Some(EncodeRequirements(r.requirements))
  {
    var v := EncodeRequest(r);
    RequestFieldsDistinct();
    SerdeFieldOfDistinct(v, 0);
    SerdeFieldOfDistinct(v, 1);
    SerdeFieldOfDistinct(v, 2);
    SerdeFieldOfDistinct(v, 3);
    SerdeFieldOfDistinct(v, 4);
  }

  lemma DecodeRequestOfFields(v: Json, r: JobRequest)
    requires SerdeString(v, "job_id") == Some(r.jobId)
    requires SerdeString(v, "module_hash") == Some(r.moduleHash)
    requires SerdeField(v, "wasm_bytes").Some? && DecodeWasmBytes(SerdeField(v, "wasm_bytes").value) == Some(r.wasmBytes)
    requires SerdeField(v, "args").Some? && DecodeArgs(SerdeField(v, "args").value) == Some(r.args)
    requires SerdeField(v, "requirements").Some?
    requires DecodeRequirements(SerdeField(v, "requirements").value) == Some(r.requirements)
    ensures DecodeRequest(v) == Some(r)
  {
  }

  /** Through a codec that decodes what it encodes, the whole request comes
      back. */
  lemma RequestJsonRoundTrip(c: Codec, r: JobRequest)
    requires Faithful(c)
    ensures c.decode(c.encode(EncodeRequest(r))).Some?
    ensures DecodeRequest(c.decode(c.encode(EncodeRequest(r))).value) == Some(r)
  {
    assert c.decode(c.encode(EncodeRequest(r))) == Some(EncodeRequest(r));
    DecodeEncodeRequest(r);
  }
}
