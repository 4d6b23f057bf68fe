/** The SDK's entry point (`Plasm\Client`): options merged over defaults,
    a transport chosen once by `mode`, and jobs bound to that transport. */
module SdkClient {
  import opened Wrappers
  import opened Numbers
  import opened Json
  import opened Primitives
  import opened PhpErrors
  import SdkManifest
  import Digests
  import LocalTransport
  import SdkReceipt
  import SdkResult

  const DEFAULT_MODE := "local"
  const REMOTE_MODE := "remote"
  const REMOTE_NOT_IMPLEMENTED := "Remote transport not yet implemented (Milestone 2+)"
  const INVALID_MODE := "Invalid mode: "

  /** The option array's defaults. */
  const DEFAULT_OPTIONS: map<string, Json> :=
    map["mode" := JString(DEFAULT_MODE), "plasmd_path" := JString(LocalTransport.DEFAULT_PLASMD_PATH)]

  /** The transport is the only one the SDK has: a local transport. */
  datatype Client = Client(transport: LocalTransport.Transport, options: map<string, Json>)

  /** `array_merge($defaults, $options)` for string keys: every key of
      either, the caller's value where both have one. */
  function MergeOptions(options: map<string, Json>): (merged: map<string, Json>)
    ensures merged.Keys == DEFAULT_OPTIONS.Keys + options.Keys
    ensures forall k :: k in options ==> merged[k] == options[k]
    ensures forall k :: k in DEFAULT_OPTIONS && k !in options ==> merged[k] == DEFAULT_OPTIONS[k]
  {
    DEFAULT_OPTIONS + options
  }

  /** The constructor: `mode` is compared by identity with `'local'` and
      `'remote'`; a local transport takes `plasmd_path` through a `string`
      parameter, so a path that does not convert is a `TypeError`. */
  function New(options: map<string, Json>): (r: Result<Client, Thrown>)
    ensures var mode := MergeOptions(options)["mode"];
            && (mode == JString(DEFAULT_MODE) ==>
                  && (r.Ok? <==> PhpToString(MergeOptions(options)["plasmd_path"]).Some?)
                  && (r.Ok? ==> r.value.transport.plasmdPath == PhpToString(MergeOptions(options)["plasmd_path"]).value)
                  && (r.Err? ==> r.error == TypeError))
            && (mode == JString(REMOTE_MODE) ==> r == Err(RuntimeException(REMOTE_NOT_IMPLEMENTED)))
            && (mode != JString(DEFAULT_MODE) && mode != JString(REMOTE_MODE) ==>
                  r == Err(InvalidArgumentException(INVALID_MODE + Interpolate(mode))))
    ensures r.Ok? ==> r.value.options == MergeOptions(options)
  {
    var merged := MergeOptions(options);
    var mode := merged["mode"];
    if mode == JString(DEFAULT_MODE) then
      match PhpToString(merged["plasmd_path"])
      case Some(path) => Ok(Client(LocalTransport.Transport(path), merged))
      case None => Err(TypeError)
    else if mode == JString(REMOTE_MODE) then Err(RuntimeException(REMOTE_NOT_IMPLEMENTED))
    else Err(InvalidArgumentException(INVALID_MODE + Interpolate(mode)))
  }

  /** With no options the client runs `plasmd` locally. */
  lemma NewWithDefaults()
    ensures New(map[]) == Ok(Client(LocalTransport.Transport(LocalTransport.DEFAULT_PLASMD_PATH), DEFAULT_OPTIONS))
  {
    assert MergeOptions(map[]) == DEFAULT_OPTIONS;
  }

  /** A caller's `plasmd_path` is the path the transport runs, and the mode
      defaults to local. */
  lemma NewWithPath(path: string)
    ensures New(map["plasmd_path" := JString(path)]).Ok?
    ensures New(map["plasmd_path" := JString(path)]).value.transport == LocalTransport.Transport(path)
  {
    var options := map["plasmd_path" := JString(path)];
    assert MergeOptions(options)["mode"] == JString(DEFAULT_MODE);
    assert MergeOptions(options)["plasmd_path"] == JString(path);
  }

  /** Any mode other than the two names is refused, whatever else the
      options hold. */
  lemma NewRefusesUnknownMode(options: map<string, Json>, mode: string)
    requires mode != DEFAULT_MODE && mode != REMOTE_MODE
    ensures New(options["mode" := JString(mode)]) == Err(InvalidArgumentException(INVALID_MODE + mode))
  {
    assert MergeOptions(options["mode" := JString(mode)])["mode"] == JString(mode);
  }

  /** A job (`Plasm\Job`): the transport it will run on, the module path
      and the manifest built from the module file. */
  class Job {
    const transport: LocalTransport.Transport
    const wasmPath: string
    const manifest: SdkManifest.Manifest

    constructor (transport: LocalTransport.Transport, wasmPath: string, manifest: SdkManifest.Manifest)
      ensures this.transport == transport && this.wasmPath == wasmPath && this.manifest == manifest
    {
      this.transport := transport;
      this.wasmPath := wasmPath;
      this.manifest := manifest;
    }

    /** `withCpu`: the job's manifest gets the core count; nothing else
        changes. */
    method WithCpu(cores: int)
      modifies manifest
      ensures manifest.Data() == old(manifest.Data()).(cpuCores := cores)
    {
      manifest.SetCpuCores(cores);
    }

    /** `withMemory`: the job's manifest gets the memory limit. */
    method WithMemory(memoryMb: int)
      modifies manifest
      ensures manifest.Data() == old(manifest.Data()).(memoryMb := memoryMb)
    {
      manifest.SetMemoryMb(memoryMb);
    }

    /** `withTimeout`: the job's manifest gets the timeout. */
    method WithTimeout(timeoutSeconds: int)
      modifies manifest
      ensures manifest.Data() == old(manifest.Data()).(timeoutSeconds := timeoutSeconds)
    {
      manifest.SetTimeoutSeconds(timeoutSeconds);
    }

    /** `submit` (and `wait`, which only calls it): the job's module runs on
        its transport with its manifest. The process and the clocks are
        parameters. A start failure throws; otherwise the result carries
        the module's extracted output and a local receipt for the manifest's
        module hash and the exit status. */
    method Submit(input: Option<string>, proc: LocalTransport.Process, wallTimeMs: int, now: int)
      returns (r: Result<SdkResult.Result, Thrown>)
      ensures !proc.started ==> r == Err(RuntimeException(LocalTransport.START_FAILED))
      ensures proc.started ==>
                && r.Ok?
                && r.value.stdout == LocalTransport.ExtractedText(proc.output)
                && r.value.stderr == proc.errors
                && r.value.receipt == SdkReceipt.CreateMock(manifest.moduleHash, proc.exitStatus, wallTimeMs, now)
    {
      var result, _ := transport.Execute(wasmPath, manifest, input, proc, wallTimeMs, now);
      return result;
    }
  }

  /** `createJob`: the job runs on the client's transport; the manifest
      comes from the module path, which must exist as a file or a
      directory. */
  method CreateJob(client: Client, p: Suite, files: map<string, Bytes>, dirs: set<string>, wasmPath: string)
    returns (r: Result<Job, Thrown>)
    ensures wasmPath !in files && wasmPath !in dirs ==>
              r == Err(InvalidArgumentException(SdkManifest.WASM_NOT_FOUND + wasmPath))
    ensures wasmPath in files || wasmPath in dirs ==>
              && r.Ok? && fresh(r.value) && fresh(r.value.manifest)
              && r.value.transport == client.transport
              && r.value.wasmPath == wasmPath
    ensures wasmPath in files ==>
              r.value.manifest.Data() == SdkManifest.Defaults(Digests.TaggedDigest(p, files[wasmPath]))
    ensures wasmPath !in files && wasmPath in dirs ==>
              r.value.manifest.Data() == SdkManifest.Defaults(Digests.TaggedDigest(p, []))
  {
    var manifest := SdkManifest.Manifest.FromWasmFile(p, files, dirs, wasmPath);
    if manifest.Err? {
      return Err(manifest.error);
    }
    var job := new Job(client.transport, wasmPath, manifest.value);
    return Ok(job);
  }
}
