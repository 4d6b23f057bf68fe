/** How a node runs a job it has accepted (`network::execution`): validate
    the request, check the module against its hash, run it in the sandbox,
    and answer with the output and a signed receipt. The sandbox is a
    parameter. */
module Execution {
  import opened Wrappers
  import opened Numbers
  import opened Json
  import opened Primitives
  import Hex
  import Digests
  import Strings
  import Protocol
  import WasmReceipt

  const VALIDATION_FAILED := "Job request validation failed: "
  const EXECUTION_FAILED := "WASM execution failed"
  const MEMORY_TOO_LARGE := "memory_mb too large"
  const MIB: nat := 1024 * 1024

  /** What the sandbox is asked to run, with the limits it is given. */
  datatype RuntimeCall = RuntimeCall(wasm: Bytes, args: seq<string>, memoryLimitBytes: u64, timeoutSeconds: u64)

  /** What the sandbox reports for a run that completed. */
  datatype ExecutionResult = ExecutionResult(
    moduleHash: string,
    exitCode: u32,
    wallTimeMs: u64,
    stdout: string,
    stderr: string)

  function HashMismatch(expected: string, got: string): string
  {
    "Module hash mismatch: expected " + expected + ", got " + got
  }

  /** The memory limit as the source computes it, `memory_mb * 1024 * 1024`
      on `u64`, in a build where the multiplication wraps. */
  function MemoryLimitAsWritten(memoryMb: u64): (r: u64)
    ensures memoryMb * MIB < TWO_64 ==> r == memoryMb * MIB
    ensures (r - memoryMb * MIB) % TWO_64 == 0
  {
    WrapU64(memoryMb * MIB)
  }

  /** A request for 2^44 MB is given no memory at all. */
  lemma MemoryLimitAsWrittenWraps()
    ensures MemoryLimitAsWritten(0x1000_0000_0000) == 0
  {
    assert 0x1000_0000_0000 * MIB == TWO_64;
  }

  /** The memory limit in bytes, refused when it does not fit a `u64`. */
  function MemoryLimit(memoryMb: u64): (r: Option<u64>)
    ensures r.Some? <==> memoryMb * MIB < TWO_64
  {
    if memoryMb * MIB < TWO_64 then
      var bytes: u64 := memoryMb * MIB;
      Some(bytes)
    else None
  }

  /** A limit that is given is exactly the requested number of mebibytes,
      and agrees with the wrapping computation wherever that one does not
      wrap. */
  lemma MemoryLimitExact(memoryMb: u64)
    requires MemoryLimit(memoryMb).Some?
    ensures MemoryLimit(memoryMb).value % MIB == 0
    ensures MemoryLimit(memoryMb).value / MIB == memoryMb
    ensures MemoryLimit(memoryMb).value == MemoryLimitAsWritten(memoryMb)
  {
  }

  /** The receipt written for a completed run: the sandbox's hash, exit
      code and time, the clock's seconds, and the placeholders `sign`
      writes. */
  function ReceiptFor(e: ExecutionResult, now: u64): (d: WasmReceipt.ReceiptData)
    ensures d.moduleHash == e.moduleHash && d.exitCode == e.exitCode && d.wallTimeMs == e.wallTimeMs
    ensures d.nodePubkey == WasmReceipt.PLACEHOLDER_PUBKEY && d.signature == WasmReceipt.PLACEHOLDER_SIGNATURE
  {
    WasmReceipt.ReceiptData(WasmReceipt.RECEIPT_VERSION, e.moduleHash, e.exitCode, e.wallTimeMs, now,
                            WasmReceipt.PLACEHOLDER_PUBKEY, WasmReceipt.PLACEHOLDER_SIGNATURE)
  }

  /** The receipt text in a job result reads back as that receipt. */
  lemma ResultReceiptReadsBack(c: Codec, e: ExecutionResult, now: u64)
    requires Faithful(c)
    ensures WasmReceipt.FromJson(c, c.encode(WasmReceipt.Encode(ReceiptFor(e, now)))) == Ok(ReceiptFor(e, now))
  {
    WasmReceipt.FromJsonToJson(c, ReceiptFor(e, now));
  }

  /** `compute_module_hash`: `sha256:` followed by the hex digest of the
      module, which decodes back to that digest. */
  function ComputeModuleHash(p: Suite, wasm: Bytes): (h: string)
    ensures Strings.StartsWith(h, Digests.SHA256_PREFIX)
    ensures Hex.Decode(h[|Digests.SHA256_PREFIX|..]) == Some(p.sha256(wasm))
  {
    Digests.TaggedDigest(p, wasm)
  }

  /** A request whose hash names other content than its module is turned
      away. */
  lemma TamperedModuleRejected(p: Suite, request: Protocol.JobRequest, original: Bytes)
    requires request.moduleHash == Digests.TaggedDigest(p, original)
    requires p.sha256(original) != p.sha256(request.wasmBytes)
    ensures ComputeModuleHash(p, request.wasmBytes) != request.moduleHash
  {
    if ComputeModuleHash(p, request.wasmBytes) == request.moduleHash {
      Digests.TaggedDigestInjective(p, original, request.wasmBytes);
    }
  }

  /** A node with its receipt-signing key. */
  datatype ExecutionHandler = ExecutionHandler(signingKey: Bytes)
  {
    /** `public_key_hex`: the verifying key as hex text. */
    function PublicKeyHex(p: Suite): (h: string)
      ensures Hex.Decode(h) == Some(p.publicKey(signingKey))
      ensures Hex.AllLowerHex(h)
    {
      Hex.DecodeEncode(p.publicKey(signingKey));
      Hex.Encode(p.publicKey(signingKey))
    }

    /** A 32-byte key gives 64 hex digits. */
    lemma PublicKeyHexLength(p: Suite)
      requires Sound(p)
      ensures |PublicKeyHex(p)| == 64
    {
    }

    /** `execute_job`, with the sandbox as `runtime` and the clock as `now`.
        `call` is what the sandbox was asked to run, if it was asked at
        all. The memory limit is the checked one (see `MemoryLimit`). */
    method ExecuteJob(p: Suite, c: Codec, request: Protocol.JobRequest,
                      runtime: RuntimeCall -> Result<ExecutionResult, string>, now: u64)
      returns (r: Result<Protocol.JobResult, string>, call: Option<RuntimeCall>)
      ensures Protocol.Validate(request).Err? ==>
                r == Err(VALIDATION_FAILED + Protocol.Validate(request).error) && call.None?
      ensures Protocol.Validate(request).Ok? && ComputeModuleHash(p, request.wasmBytes) != request.moduleHash ==>
                r == Err(HashMismatch(request.moduleHash, ComputeModuleHash(p, request.wasmBytes))) && call.None?
      ensures call.Some? <==>
                && Protocol.Validate(request).Ok?
                && ComputeModuleHash(p, request.wasmBytes) == request.moduleHash
                && MemoryLimit(request.requirements.memoryMb).Some?
      ensures call.Some? ==>
                call.value == RuntimeCall(request.wasmBytes, request.args,
                                          MemoryLimit(request.requirements.memoryMb).value,
                                          request.requirements.timeoutSeconds)
      ensures call.Some? && runtime(call.value).Err? ==> r == Err(EXECUTION_FAILED)
      ensures call.Some? && runtime(call.value).Ok? ==>
                var e := runtime(call.value).value;
                r == Ok(Protocol.JobResult(request.jobId, e.stdout, e.stderr, e.exitCode,
                                           c.encode(WasmReceipt.Encode(ReceiptFor(e, now)))))
      ensures r.Ok? ==> call.Some? && r.value.jobId == request.jobId
    {
      var valid := Protocol.Validate(request);
      if valid.Err? {
        return Err(VALIDATION_FAILED + valid.error), None;
      }
      var computedHash := ComputeModuleHash(p, request.wasmBytes);
      if computedHash != request.moduleHash {
        return Err(HashMismatch(request.moduleHash, computedHash)), None;
      }
      var limit := MemoryLimit(request.requirements.memoryMb);
      if limit.None? {
        return Err(MEMORY_TOO_LARGE), None;
      }
      var run := RuntimeCall(request.wasmBytes, request.args, limit.value, request.requirements.timeoutSeconds);
      call := Some(run);
      var outcome := runtime(run);
      if outcome.Err? {
        return Err(EXECUTION_FAILED), call;
      }
      var e := outcome.value;
      var receipt := new WasmReceipt.Receipt.New(e.moduleHash, e.exitCode, e.wallTimeMs, now);
      var _ := receipt.Sign(signingKey);
      var receiptJson := receipt.ToJson(c);
      r := Ok(Protocol.JobResult(request.jobId, e.stdout, e.stderr, e.exitCode, receiptJson));
    }
  }
}
