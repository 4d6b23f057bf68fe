/** The provider's HTTP handlers (`provider::server`): byte ranges of an
    artifact, the status and headers of an artifact response, the health
    answer, and the status of a manifest request that fails. Routing, the
    socket and the streaming of the body are not modelled; a response is a
    status, a header map and a body. */
module ProviderServer {
  import opened Wrappers
  import opened Numbers
  import opened Strings
  import opened Primitives
  import opened FileSystems
  import Artifacts
  import Metrics
  import Generator
  import ProviderManifest
  import ManifestSigning

  const OCTET_STREAM := "application/octet-stream"
  const RANGE_PREFIX := "bytes="
  const NO_ARTIFACTS_MARKER := "No artifacts found"

  const OK: nat := 200
  const PARTIAL_CONTENT: nat := 206
  const BAD_REQUEST: nat := 400
  const NOT_FOUND: nat := 404
  const RANGE_NOT_SATISFIABLE: nat := 416
  const INTERNAL_SERVER_ERROR: nat := 500
  const SERVICE_UNAVAILABLE: nat := 503

  datatype Body = Empty | Content(data: Bytes) | Stream(data: Bytes)

  /** A response; header names are lower case. */
  datatype Response = Response(status: nat, headers: map<string, string>, body: Body)

  /** The `(StatusCode, &str)` error of a handler. */
  datatype Rejection = Rejection(status: nat, message: string)

  /** `parse_range`: `bytes=S-E` or `bytes=S-`, inclusive bounds, within
      the file. */
  function ParseRange(header: string, fileSize: u64): (r: Option<(u64, u64)>)
    ensures r.Some? ==> r.value.0 <= r.value.1 < fileSize
    ensures !StartsWith(header, RANGE_PREFIX) ==> r.None?
  {
    match StripPrefix(header, RANGE_PREFIX)
    case None => None
    case Some(spec) =>
      var parts := Split(spec, '-');
      if |parts| != 2 then None
      else if parts[1] == "" then
        match ParseU64(parts[0])
        case None => None
        case Some(start) => if start < fileSize then Some((start, fileSize - 1)) else None
      else
        match ParseU64(parts[0])
        case None => None
        case Some(start) =>
          match ParseU64(parts[1])
          case None => None
          case Some(end) => if start <= end && end < fileSize then Some((start, end)) else None
  }

  /** Splitting on the one `-` between two dash-free texts. */
  lemma {:induction false} SplitAtDash(x: string, y: string)
    requires '-' !in x && '-' !in y
    ensures Split(x + "-" + y, '-') == [x, y]
  {
    var s := x + "-" + y;
    assert s[|x|] == '-';
    assert s[..|x|] == x;
    assert IndexOf(s, '-') == |x|;
    assert s[|x| + 1..] == y;
  }

  lemma DecimalHasNoDash(n: nat)
    ensures '-' !in NatToDecimal(n)
  {
  }

  /** `bytes=S-` is the range from `S` to the last byte, if `S` is inside
      the file. */
  lemma ParseRangeOpenEnded(start: u64, fileSize: u64)
    ensures ParseRange(RANGE_PREFIX + NatToDecimal(start) + "-", fileSize) ==
            if start < fileSize then Some((start, fileSize - 1)) else None
  {
    var d := NatToDecimal(start);
    var spec := d + "-" + "";
    assert RANGE_PREFIX + d + "-" == RANGE_PREFIX + spec;
    StripRangePrefix(spec);
    DecimalHasNoDash(start);
    SplitAtDash(d, "");
    ParseU64OfDecimal(start);
  }

  /** `bytes=S-E` is exactly the range `S..=E` when `S <= E` and `E` is
      inside the file, and nothing otherwise. */
  lemma ParseRangeClosed(start: u64, end: u64, fileSize: u64)
    ensures ParseRange(RANGE_PREFIX + NatToDecimal(start) + "-" + NatToDecimal(end), fileSize) ==
            if start <= end < fileSize then Some((start, end)) else None
  {
    var d1, d2 := NatToDecimal(start), NatToDecimal(end);
    var spec := d1 + "-" + d2;
    assert RANGE_PREFIX + d1 + "-" + d2 == RANGE_PREFIX + spec;
    StripRangePrefix(spec);
    DecimalHasNoDash(start);
    DecimalHasNoDash(end);
    SplitAtDash(d1, d2);
    ParseU64OfDecimal(start);
    ParseU64OfDecimal(end);
    assert d2 != "" by {
      assert |NatToDecimal(end)| > 0;
    }
  }

  lemma StripRangePrefix(spec: string)
    ensures StripPrefix(RANGE_PREFIX + spec, RANGE_PREFIX) == Some(spec)
  {
    assert (RANGE_PREFIX + spec)[..|RANGE_PREFIX|] == RANGE_PREFIX;
    assert (RANGE_PREFIX + spec)[|RANGE_PREFIX|..] == spec;
  }

  /** A range text with no `-` or with more than one (several ranges,
      say) is refused. */
  lemma ParseRangeNeedsOneDash(header: string, fileSize: u64)
    requires StartsWith(header, RANGE_PREFIX)
    requires CountChar(header[|RANGE_PREFIX|..], '-') != 1
    ensures ParseRange(header, fileSize).None?
  {
    SplitCount(header[|RANGE_PREFIX|..], '-');
  }

  /** A suffix range `bytes=-N` (and `bytes=-`) is refused: the empty start
      does not parse. */
  lemma SuffixRangeRefused(n: string, fileSize: u64)
    requires '-' !in n
    ensures ParseRange(RANGE_PREFIX + "-" + n, fileSize).None?
  {
    var h := RANGE_PREFIX + "-" + n;
    SplitAtDash("", n);
    assert h[|RANGE_PREFIX|..] == "" + "-" + n;
  }

  lemma Decimal1023()
    ensures NatToDecimal(1023) == "1023"
  {
    assert NatToDecimal(10) == "10";
    assert NatToDecimal(102) == "102";
  }

  lemma Decimal1024()
    ensures NatToDecimal(1024) == "1024"
  {
    assert NatToDecimal(10) == "10";
    assert NatToDecimal(102) == "102";
  }

  /** The source's example of a closed range. */
  lemma ParseRangeClosedExample()
    ensures ParseRange("bytes=0-1023", 10000) == Some((0, 1023))
  {
    Decimal1023();
    assert "bytes=0-1023" == RANGE_PREFIX + NatToDecimal(0) + "-" + NatToDecimal(1023);
    ParseRangeClosed(0, 1023, 10000);
  }

  /** The source's example of an open-ended range: to the end of the file. */
  lemma ParseRangeOpenExample()
    ensures ParseRange("bytes=1024-", 10000) == Some((1024, 9999))
  {
    Decimal1024();
    assert "bytes=1024-" == RANGE_PREFIX + NatToDecimal(1024) + "-";
    ParseRangeOpenEnded(1024, 10000);
  }

  /** The source's example of a multi-range text, refused for its
      second dash. */
  lemma ParseRangeMultipleDashesRefused()
    ensures ParseRange("bytes=0-500-1000", 10000) == None
  {
    var spec := "0" + "-" + "500" + "-" + "1000";
    assert "bytes=0-500-1000" == RANGE_PREFIX + spec;
    StripRangePrefix(spec);
    TwoDashes("0", "500", "1000");
    ParseRangeNeedsOneDash(RANGE_PREFIX + spec, 10000);
  }

  lemma TwoDashes(x: string, y: string, z: string)
    requires '-' !in x && '-' !in y && '-' !in z
    ensures CountChar(x + "-" + y + "-" + z, '-') == 2
  {
    CountCharConcat(x + "-" + y + "-", z, '-');
    CountCharConcat(x + "-" + y, "-", '-');
    CountCharConcat(x + "-", y, '-');
    CountCharConcat(x, "-", '-');
    CountCharAbsent(x, '-');
    CountCharAbsent(y, '-');
    CountCharAbsent(z, '-');
  }

  /** The source's example of parts that are not numbers. */
  lemma ParseRangeNonNumericRefused()
    ensures ParseRange("bytes=abc-def", 10000) == None
  {
    SplitAtDash("abc", "def");
    assert "bytes=abc-def"[|RANGE_PREFIX|..] == "abc" + "-" + "def";
    ParseU64Rejects("abc", 0);
  }

  /** The content type of `artifact_handler`: every name is served as
      octet stream, whichever family it belongs to. */
  function ContentType(name: string): (t: string)
    ensures t == OCTET_STREAM
  {
    if StartsWith(name, "kernel") || name == "vmlinuz" || name == "bzImage" then OCTET_STREAM
    else if StartsWith(name, "initramfs") || StartsWith(name, "initrd") then OCTET_STREAM
    else if EndsWith(name, ".img") || EndsWith(name, ".squashfs") then OCTET_STREAM
    else OCTET_STREAM
  }

  /** `HeaderValue::to_str` succeeds only for visible ASCII and tab. */
  predicate IsVisibleAscii(s: string) {
    forall i :: 0 <= i < |s| ==> s[i] == '\t' || (' ' <= s[i] <= '~')
  }

  function ContentRange(start: nat, end: nat, size: nat): string {
    "bytes " + NatToDecimal(start) + "-" + NatToDecimal(end) + "/" + NatToDecimal(size)
  }

  function UnsatisfiedRange(size: nat): string {
    "bytes */" + NatToDecimal(size)
  }

  /** The headers of a 206 answer. */
  function PartialHeaders(start: nat, end: nat, size: nat, hash: string): map<string, string>
    requires start <= end
  {
    map["content-type" := OCTET_STREAM,
        "content-length" := NatToDecimal(end - start + 1),
        "content-range" := ContentRange(start, end, size),
        "accept-ranges" := "bytes",
        "x-artifact-hash" := hash]
  }

  /** The headers of a 200 answer. */
  function FullHeaders(size: nat, hash: string): map<string, string> {
    map["content-type" := OCTET_STREAM,
        "content-length" := NatToDecimal(size),
        "accept-ranges" := "bytes",
        "x-artifact-hash" := hash]
  }

  /** The headers of a 416 answer. */
  function UnsatisfiableHeaders(size: nat): map<string, string> {
    map["content-range" := UnsatisfiedRange(size), "accept-ranges" := "bytes"]
  }

  /** The response to a request for an artifact that was found, with the
      byte counter `before` and `after` it: a malformed header is a 400, a
      range outside the file a 416 with the file's size, a satisfiable range
      a 206 with exactly those bytes, and no range a 200 streaming the whole
      file; only the bytes sent are counted. */
  ghost predicate Served(fs: FileSystem, meta: Artifacts.ArtifactMeta, range: Option<string>,
                         r: Result<Response, Rejection>, before: u64, after: u64)
  {
    && (range.Some? && !IsVisibleAscii(range.value) ==>
          r == Err(Rejection(BAD_REQUEST, "Invalid Range header")) && after == before)
    && (range.Some? && IsVisibleAscii(range.value) && ParseRange(range.value, meta.sizeBytes).None? ==>
          r == Ok(Response(RANGE_NOT_SATISFIABLE, UnsatisfiableHeaders(meta.sizeBytes), Empty)) && after == before)
    && (range.Some? && IsVisibleAscii(range.value) && ParseRange(range.value, meta.sizeBytes).Some?
        && fs.IsFile(meta.path) && ParseRange(range.value, meta.sizeBytes).value.1 < |fs.files[meta.path]| ==>
          var (start, end) := ParseRange(range.value, meta.sizeBytes).value;
          && r == Ok(Response(PARTIAL_CONTENT, PartialHeaders(start, end, meta.sizeBytes, meta.hash),
                              Content(fs.files[meta.path][start..end + 1])))
          && after == WrapU64(before + (end - start + 1)))
    && (range.None? && fs.IsFile(meta.path) ==>
          && r == Ok(Response(OK, FullHeaders(meta.sizeBytes, meta.hash), Stream(fs.files[meta.path])))
          && after == WrapU64(before + meta.sizeBytes))
  }

  /** The second half of `artifact_handler`: the answer for an artifact
      that was found, built header by header. */
  method Respond(fs: FileSystem, metrics: Metrics.ProviderMetrics, meta: Artifacts.ArtifactMeta, artifact: string,
                 range: Option<string>)
    returns (r: Result<Response, Rejection>)
    modifies metrics
    ensures metrics.requestsTotal == old(metrics.requestsTotal)
    ensures Served(fs, meta, range, r, old(metrics.bytesServedTotal), metrics.bytesServedTotal)
  {
    var fileSize := meta.sizeBytes;
    var contentType := ContentType(artifact);
    if range.Some? {
      if !IsVisibleAscii(range.value) {
        return Err(Rejection(BAD_REQUEST, "Invalid Range header"));
      }
      var parsed := ParseRange(range.value, fileSize);
      if parsed.Some? {
        var (start, end) := parsed.value;
        if !fs.IsFile(meta.path) {
          return Err(Rejection(INTERNAL_SERVER_ERROR, "Failed to open artifact"));
        }
        var content := fs.files[meta.path];
        if |content| < end + 1 {
          return Err(Rejection(INTERNAL_SERVER_ERROR, "Failed to read artifact"));
        }
        var contentLength: u64 := end - start + 1;
        var buffer := content[start..end + 1];
        metrics.AddBytesServed(contentLength);
        var headers: map<string, string> := map[];
        headers := headers["content-type" := contentType];
        headers := headers["content-length" := NatToDecimal(contentLength)];
        headers := headers["content-range" := ContentRange(start, end, fileSize)];
        headers := headers["accept-ranges" := "bytes"];
        headers := headers["x-artifact-hash" := meta.hash];
        return Ok(Response(PARTIAL_CONTENT, headers, Content(buffer)));
      } else {
        var headers: map<string, string> := map[];
        headers := headers["content-range" := UnsatisfiedRange(fileSize)];
        headers := headers["accept-ranges" := "bytes"];
        return Ok(Response(RANGE_NOT_SATISFIABLE, headers, Empty));
      }
    } else {
      if !fs.IsFile(meta.path) {
        return Err(Rejection(INTERNAL_SERVER_ERROR, "Failed to open artifact"));
      }
      var stream := fs.files[meta.path];
      metrics.AddBytesServed(fileSize);
      var headers: map<string, string> := map[];
      headers := headers["content-type" := contentType];
      headers := headers["content-length" := NatToDecimal(fileSize)];
      headers := headers["accept-ranges" := "bytes"];
      headers := headers["x-artifact-hash" := meta.hash];
      return Ok(Response(OK, headers, Stream(stream)));
    }
  }

  /** `artifact_handler`, with the `Range` header's text as `range`. The
      request is counted first; a missing artifact is a 404; only the bytes
      sent are added to the byte counter. */
  method ArtifactHandler(p: Suite, fs: FileSystem, store: Artifacts.ArtifactStore, metrics: Metrics.ProviderMetrics,
                         channel: string, arch: string, artifact: string, range: Option<string>)
    returns (r: Result<Response, Rejection>)
    modifies store, metrics
    ensures metrics.requestsTotal == WrapU64(old(metrics.requestsTotal) + 1)
    ensures var found := Artifacts.Found(p, fs, old(store.hashCache), store.baseDir, channel, arch, artifact);
            && store.hashCache == found.1
            && (found.0.None? ==>
                  r == Err(Rejection(NOT_FOUND, "Artifact not found"))
                  && metrics.bytesServedTotal == old(metrics.bytesServedTotal))
            && (found.0.Some? ==>
                  && fs.IsFile(found.0.value.path) && found.0.value.sizeBytes <= |fs.files[found.0.value.path]|
                  && Served(fs, found.0.value, range, r, old(metrics.bytesServedTotal), metrics.bytesServedTotal))
  {
    metrics.IncrementRequests();
    var found := store.GetArtifact(p, fs, channel, arch, artifact);
    if found.Err? {
      return Err(Rejection(INTERNAL_SERVER_ERROR, "Internal server error"));
    }
    if found.value.None? {
      return Err(Rejection(NOT_FOUND, "Artifact not found"));
    }
    var meta := found.value.value;
    r := Respond(fs, metrics, meta, artifact, range);
  }

  /** `health_handler`: 200 with a healthy check, 503 otherwise. */
  function HealthHandler(fs: FileSystem, artifactsDir: Path): (r: (nat, Metrics.HealthCheck))
    ensures r.1 == Metrics.PerformHealthCheck(fs, artifactsDir)
    ensures r.0 == OK <==> r.1.IsHealthy()
    ensures r.0 == OK || r.0 == SERVICE_UNAVAILABLE
  {
    var health := Metrics.PerformHealthCheck(fs, artifactsDir);
    (if health.IsHealthy() then OK else SERVICE_UNAVAILABLE, health)
  }

  /** The rejection `manifest_handler` gives for a failed generation. */
  function ManifestRejection(message: string): (r: Rejection)
    ensures ContainsStr(message, NO_ARTIFACTS_MARKER) <==> r.status == NOT_FOUND
    ensures r.status == NOT_FOUND || r.status == INTERNAL_SERVER_ERROR
  {
    if ContainsStr(message, NO_ARTIFACTS_MARKER) then Rejection(NOT_FOUND, "No artifacts found for channel/arch")
    else Rejection(INTERNAL_SERVER_ERROR, "Failed to generate manifest")
  }

  /** A text without an `N` does not contain the marker. */
  lemma NoMarkerWithoutN(s: string)
    requires 'N' !in s
    ensures !ContainsStr(s, NO_ARTIFACTS_MARKER)
  {
    forall i: nat | i <= |s| ensures !OccursAt(s, NO_ARTIFACTS_MARKER, i) {
      if i + |NO_ARTIFACTS_MARKER| <= |s| {
        assert s[i..i + |NO_ARTIFACTS_MARKER|][0] == s[i] != NO_ARTIFACTS_MARKER[0];
      }
    }
  }

  /** An empty listing is a 404; a manifest that fails to build is a 500,
      and so is a listing failure for names without an `N`. */
  lemma ManifestFailureStatus(channel: string, arch: string)
    ensures ManifestRejection(Generator.NoArtifacts(channel, arch)).status == NOT_FOUND
    ensures ManifestRejection(Generator.BUILD_FAILED).status == INTERNAL_SERVER_ERROR
    ensures 'N' !in channel && 'N' !in arch ==>
              ManifestRejection(Generator.ListFailed(channel, arch)).status == INTERNAL_SERVER_ERROR
  {
    assert OccursAt(Generator.NoArtifacts(channel, arch), NO_ARTIFACTS_MARKER, 0);
    NoMarkerWithoutN(Generator.BUILD_FAILED);
    if 'N' !in channel && 'N' !in arch {
      NoMarkerWithoutN(Generator.ListFailed(channel, arch));
    }
  }

  /** `manifest_handler`. */
  method ManifestHandler(p: Suite, ser: ProviderManifest.BootManifest -> Bytes, fs: FileSystem,
                         generator: Generator.ManifestGenerator, channel: string, arch: string,
                         now: string, inThirtyDays: string, order: seq<string>, signedAt: string)
    returns (r: Result<ProviderManifest.BootManifest, Rejection>)
    modifies generator.store
    ensures var g := Generator.Generated(p, fs, old(generator.store.hashCache), generator.store.baseDir, channel, arch,
                                         generator.defaultVersion, now, inThirtyDays, order);
            && (g.0.Err? ==> r == Err(ManifestRejection(g.0.error)))
            && (g.0.Ok? && generator.signingKey.None? ==> r == Ok(g.0.value))
            && (g.0.Ok? && generator.signingKey.Some? ==>
                  r == Ok(ManifestSigning.SignManifest(p, ser, g.0.value, generator.signingKey.value, signedAt).value))
  {
    var manifest := generator.GenerateSigned(p, ser, fs, channel, arch, now, inThirtyDays, order, signedAt);
    if manifest.Err? {
      return Err(ManifestRejection(manifest.error));
    }
    return Ok(manifest.value);
  }

  /** `default_manifest_handler`: the configured channel and architecture;
      every failure is a 500. */
  method DefaultManifestHandler(p: Suite, ser: ProviderManifest.BootManifest -> Bytes, fs: FileSystem,
                                generator: Generator.ManifestGenerator, channel: string, arch: string,
                                now: string, inThirtyDays: string, order: seq<string>, signedAt: string)
    returns (r: Result<ProviderManifest.BootManifest, Rejection>)
    modifies generator.store
    ensures var g := Generator.Generated(p, fs, old(generator.store.hashCache), generator.store.baseDir, channel, arch,
                                         generator.defaultVersion, now, inThirtyDays, order);
            && (g.0.Err? ==> r == Err(Rejection(INTERNAL_SERVER_ERROR, "Failed to generate manifest")))
            && (g.0.Ok? && generator.signingKey.None? ==> r == Ok(g.0.value))
            && (g.0.Ok? && generator.signingKey.Some? ==>
                  r == Ok(ManifestSigning.SignManifest(p, ser, g.0.value, generator.signingKey.value, signedAt).value))
  {
    var manifest := generator.GenerateSigned(p, ser, fs, channel, arch, now, inThirtyDays, order, signedAt);
    if manifest.Err? {
      return Err(Rejection(INTERNAL_SERVER_ERROR, "Failed to generate manifest"));
    }
    return Ok(manifest.value);
  }
}
