/** The SDK's job manifest (`Plasm\Manifest`): a module hash and the
    resources a job asks for, with defaults, built from a WASM file or from
    JSON, written back out as JSON, and adjusted in place by setters. */
module SdkManifest {
  import opened Wrappers
  import opened Numbers
  import opened Strings
  import opened Json
  import opened Primitives
  import opened PhpErrors
  import Digests

  const DEFAULT_VERSION := "0.1"
  const DEFAULT_CPU_CORES := 1
  const DEFAULT_MEMORY_MB := 128
  const DEFAULT_TIMEOUT_SECONDS := 300

  const WASM_NOT_FOUND := "WASM file not found: "
  /** The message of a JSON syntax error; the decoder's own error text that
      follows it is not modelled. */
  const INVALID_JSON := "Invalid JSON: "

  /** The five properties of a manifest, as one value. */
  datatype ManifestData = ManifestData(
    version: string,
    moduleHash: string,
    cpuCores: int,
    memoryMb: int,
    timeoutSeconds: int)

  /** A freshly constructed manifest: the given hash and the property
      defaults. */
  function Defaults(moduleHash: string): ManifestData
  {
    ManifestData(DEFAULT_VERSION, moduleHash, DEFAULT_CPU_CORES, DEFAULT_MEMORY_MB, DEFAULT_TIMEOUT_SECONDS)
  }

  /** `fromJson` after the text has decoded: `module_hash` is required (a
      missing one reads as null, which the `string` parameter refuses);
      every other property takes its default when its key is missing or
      null, and is otherwise converted to the property's type. */
  function Parse(data: Json): (r: Result<ManifestData, Thrown>)
    ensures r.Err? ==> r.error == TypeError
    ensures PhpRead(data, "module_hash") == JNull ==> r.Err?
    ensures r.Ok? ==> PhpToString(PhpRead(data, "module_hash")) == Some(r.value.moduleHash)
    ensures r.Ok? ==>
              && (PhpRead(data, "version") == JNull ==> r.value.version == DEFAULT_VERSION)
              && (PhpRead(data, "version") != JNull ==> PhpToString(PhpRead(data, "version")) == Some(r.value.version))
    ensures r.Ok? ==>
              && (PhpRead(data, "cpu_cores") == JNull ==> r.value.cpuCores == DEFAULT_CPU_CORES)
              && (PhpRead(data, "cpu_cores") != JNull ==> PhpToInt(PhpRead(data, "cpu_cores")) == Some(r.value.cpuCores))
    ensures r.Ok? ==>
              && (PhpRead(data, "memory_mb") == JNull ==> r.value.memoryMb == DEFAULT_MEMORY_MB)
              && (PhpRead(data, "memory_mb") != JNull ==> PhpToInt(PhpRead(data, "memory_mb")) == Some(r.value.memoryMb))
    ensures r.Ok? ==>
              && (PhpRead(data, "timeout_seconds") == JNull ==> r.value.timeoutSeconds == DEFAULT_TIMEOUT_SECONDS)
              && (PhpRead(data, "timeout_seconds") != JNull ==> PhpToInt(PhpRead(data, "timeout_seconds")) == Some(r.value.timeoutSeconds))
  {
    var moduleHash := PhpToString(PhpRead(data, "module_hash"));
    var version := PhpToString(PhpGetOr(data, "version", JString(DEFAULT_VERSION)));
    var cpuCores := PhpToInt(PhpGetOr(data, "cpu_cores", JInt(DEFAULT_CPU_CORES)));
    var memoryMb := PhpToInt(PhpGetOr(data, "memory_mb", JInt(DEFAULT_MEMORY_MB)));
    var timeoutSeconds := PhpToInt(PhpGetOr(data, "timeout_seconds", JInt(DEFAULT_TIMEOUT_SECONDS)));
    if moduleHash.None? || version.None? || cpuCores.None? || memoryMb.None? || timeoutSeconds.None? then
      Err(TypeError)
    else
      Ok(ManifestData(version.value, moduleHash.value, cpuCores.value, memoryMb.value, timeoutSeconds.value))
  }

  /** `fromJson` on text: a syntax error throws `InvalidArgumentException`
      before any property is read. */
  function ParseJson(c: Codec, json: string): (r: Result<ManifestData, Thrown>)
    ensures c.decode(json).None? ==> r.Err? && r.error.InvalidArgumentException? && StartsWith(r.error.message, INVALID_JSON)
    ensures c.decode(json).Some? ==> r == Parse(c.decode(json).value)
  {
    match c.decode(json)
    case None => Err(InvalidArgumentException(INVALID_JSON))
    case Some(data) => Parse(data)
  }

  /** The array `toJson` encodes. */
  function Encode(d: ManifestData): (v: Json)
    ensures v.JObject? && Keys(v.members) == MANIFEST_KEYS
  {
    JObject([("version", JString(d.version)), ("module_hash", JString(d.moduleHash)),
             ("cpu_cores", JInt(d.cpuCores)), ("memory_mb", JInt(d.memoryMb)),
             ("timeout_seconds", JInt(d.timeoutSeconds))])
  }

  const MANIFEST_KEYS: seq<string> := ["version", "module_hash", "cpu_cores", "memory_mb", "timeout_seconds"]

  lemma ManifestKeysDistinct()
    ensures Distinct(MANIFEST_KEYS)
  {
  }

  /** Reading back the array `toJson` encodes gives every property. */
  lemma {:induction false} ParseEncode(d: ManifestData)
    ensures Parse(Encode(d)) == Ok(d)
  {
    var v := Encode(d);
    var m := v.members;
    ManifestKeysDistinct();
    assert PhpRead(v, "version") == JString(d.version) by { DistinctKeysLookup(m, 0); }
    assert PhpRead(v, "module_hash") == JString(d.moduleHash) by { DistinctKeysLookup(m, 1); }
    assert PhpRead(v, "cpu_cores") == JInt(d.cpuCores) by { DistinctKeysLookup(m, 2); }
    assert PhpRead(v, "memory_mb") == JInt(d.memoryMb) by { DistinctKeysLookup(m, 3); }
    assert PhpRead(v, "timeout_seconds") == JInt(d.timeoutSeconds) by { DistinctKeysLookup(m, 4); }
    ParsePresent(v, d);
  }

  /** Every property present with a value of its own type is taken as it
      is. */
  lemma ParsePresent(data: Json, d: ManifestData)
    requires PhpRead(data, "version") == JString(d.version)
    requires PhpRead(data, "module_hash") == JString(d.moduleHash)
    requires PhpRead(data, "cpu_cores") == JInt(d.cpuCores)
    requires PhpRead(data, "memory_mb") == JInt(d.memoryMb)
    requires PhpRead(data, "timeout_seconds") == JInt(d.timeoutSeconds)
    ensures Parse(data) == Ok(d)
  {
  }

  /** `fromJson($m->toJson())` gives a manifest equal to `$m` in every
      property, when the codec decodes what it encodes. */
  lemma ParseJsonOfEncoding(c: Codec, d: ManifestData)
    requires Faithful(c)
    ensures ParseJson(c, c.encode(Encode(d))) == Ok(d)
  {
    assert c.decode(c.encode(Encode(d))) == Some(Encode(d));
    ParseEncode(d);
  }

  /** A JSON object holding only `module_hash` gives the constructor's
      defaults. */
  lemma ParseHashOnly(h: string)
    ensures Parse(JObject([("module_hash", JString(h))])) == Ok(Defaults(h))
  {
    var m := [("module_hash", JString(h))];
    assert PhpGet(m[..0], "version") == None;
    assert PhpGet(m[..0], "cpu_cores") == None;
    assert PhpGet(m[..0], "memory_mb") == None;
    assert PhpGet(m[..0], "timeout_seconds") == None;
  }

  class Manifest {
    var version: string
    /** Assigned by the constructor only. */
    const moduleHash: string
    var cpuCores: int
    var memoryMb: int
    var timeoutSeconds: int

    function Data(): ManifestData
      reads this
    {
      ManifestData(version, moduleHash, cpuCores, memoryMb, timeoutSeconds)
    }

    /** The private constructor: the hash, and the declared defaults. */
    constructor (moduleHash: string)
      ensures Data() == Defaults(moduleHash)
    {
      this.moduleHash := moduleHash;
      version := DEFAULT_VERSION;
      cpuCores := DEFAULT_CPU_CORES;
      memoryMb := DEFAULT_MEMORY_MB;
      timeoutSeconds := DEFAULT_TIMEOUT_SECONDS;
    }

    /** `fromWasmFile`, with the file system as a map from file path to
        contents and a set of directory paths. `file_exists` holds for
        both, so only a path that is neither throws. Reading a directory
        gives PHP's empty string (with a notice, which is not modelled), so
        its manifest carries the digest of no bytes; a file's carries the
        digest of its contents. */
    static method FromWasmFile(p: Suite, files: map<string, Bytes>, dirs: set<string>, path: string)
      returns (r: Result<Manifest, Thrown>)
      ensures path !in files && path !in dirs ==> r == Err(InvalidArgumentException(WASM_NOT_FOUND + path))
      ensures path in files || path in dirs ==> r.Ok? && fresh(r.value)
      ensures path in files ==> r.value.Data() == Defaults(Digests.TaggedDigest(p, files[path]))
      ensures path !in files && path in dirs ==> r.value.Data() == Defaults(Digests.TaggedDigest(p, []))
    {
      if path !in files && path !in dirs {
        return Err(InvalidArgumentException(WASM_NOT_FOUND + path));
      }
      var wasmBytes := if path in files then files[path] else [];
      var hash := Digests.TaggedDigest(p, wasmBytes);
      var m := new Manifest(hash);
      return Ok(m);
    }

    /** `fromJson`: the object is constructed from `module_hash` and its
        other properties are then assigned one by one; whichever step
        throws, the caller gets the exception and no manifest. */
    static method FromJson(c: Codec, json: string) returns (r: Result<Manifest, Thrown>)
      ensures r.Ok? <==> ParseJson(c, json).Ok?
      ensures r.Ok? ==> fresh(r.value) && ParseJson(c, json) == Ok(r.value.Data())
      ensures r.Err? ==> ParseJson(c, json) == Err(r.error)
    {
      var decoded := c.decode(json);
      if decoded.None? {
        return Err(InvalidArgumentException(INVALID_JSON));
      }
      var data := decoded.value;
      var moduleHash := PhpToString(PhpRead(data, "module_hash"));
      if moduleHash.None? {
        return Err(TypeError);
      }
      var m := new Manifest(moduleHash.value);
      var version := PhpToString(PhpGetOr(data, "version", JString(DEFAULT_VERSION)));
      if version.None? {
        return Err(TypeError);
      }
      m.version := version.value;
      var cpuCores := PhpToInt(PhpGetOr(data, "cpu_cores", JInt(DEFAULT_CPU_CORES)));
      if cpuCores.None? {
        return Err(TypeError);
      }
      m.cpuCores := cpuCores.value;
      var memoryMb := PhpToInt(PhpGetOr(data, "memory_mb", JInt(DEFAULT_MEMORY_MB)));
      if memoryMb.None? {
        return Err(TypeError);
      }
      m.memoryMb := memoryMb.value;
      var timeoutSeconds := PhpToInt(PhpGetOr(data, "timeout_seconds", JInt(DEFAULT_TIMEOUT_SECONDS)));
      if timeoutSeconds.None? {
        return Err(TypeError);
      }
      m.timeoutSeconds := timeoutSeconds.value;
      return Ok(m);
    }

    /** `toJson` (pretty-printing is the codec's business). */
    function ToJson(c: Codec): (json: string)
      reads this
      ensures Faithful(c) ==> c.decode(json) == Some(Encode(Data()))
    {
      c.encode(Encode(Data()))
    }

    method SetCpuCores(cores: int)
      modifies this
      ensures Data() == old(Data()).(cpuCores := cores)
    {
      cpuCores := cores;
    }

    method SetMemoryMb(mb: int)
      modifies this
      ensures Data() == old(Data()).(memoryMb := mb)
    {
      memoryMb := mb;
    }

    method SetTimeoutSeconds(seconds: int)
      modifies this
      ensures Data() == old(Data()).(timeoutSeconds := seconds)
    {
      timeoutSeconds := seconds;
    }
  }
}
