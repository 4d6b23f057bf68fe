/** `phase-fetch`: downloads the boot artifacts a verified manifest lists
    into an output directory, trying each URL several times with
    exponential back-off and accepting a download only when its size and
    SHA-256 match the manifest. The network is a parameter (`server`: the
    response the n-th download gets from a URL), and so are the digest and
    the text encoding; the output directory is a map from file names to
    contents, and the back-off sleeps are recorded instead of slept. */
module PhaseFetch {
  import opened Wrappers
  import opened Numbers
  import opened Strings
  import opened Primitives
  import Hex

  const KERNEL := "kernel"
  const INITRAMFS := "initramfs"
  const ROOTFS := "rootfs"
  const ALL := "all"
  const HASH_PREFIX_LEN := 16
  const CLIENT_FAILED := "Failed to create HTTP client"
  const REQUEST_FAILED := "HTTP request failed"
  const READ_FAILED := "Failed to read response"
  const ALL_ATTEMPTS_FAILED := "All download attempts failed"
  const SOME_ARTIFACT_FAILED := "One or more artifacts failed to download"

  function UnknownArtifact(lowered: string): string {
    "Unknown artifact: " + lowered + ". Use: kernel, initramfs, rootfs, or all"
  }

  function HttpError(status: string): string { "HTTP error: " + status }

  function SizeReported(expected: nat, reported: nat): string {
    "Size mismatch: expected " + NatToDecimal(expected) + " bytes, server reports " + NatToDecimal(reported) + " bytes"
  }

  function SizeDownloaded(expected: nat, total: nat): string {
    "Size mismatch: expected " + NatToDecimal(expected) + " bytes, downloaded " + NatToDecimal(total) + " bytes"
  }

  function HashMismatch(expected: string, computed: string): string {
    "Hash mismatch: expected " + expected + ", computed " + computed
  }

  /** One artifact of the manifest: the expected digest as bare lowercase
      hex, the expected size, and the mirrors in order of preference. */
  datatype Artifact = Artifact(hash: string, size: u64, urls: seq<string>)

  datatype Artifacts = Artifacts(kernel: Artifact, initramfs: Artifact, rootfs: Option<Artifact>)

  datatype Manifest = Manifest(version: string, manifestVersion: u64, channel: string, arch: string,
                               artifacts: Artifacts)

  /** A fetched artifact; `outputPath` is its file name in the output
      directory. */
  datatype DownloadResult = DownloadResult(artifactName: string, size: u64, hash: string, outputPath: string)

  // ---------------------------------------------------------------------
  // Choosing the artifacts

  predicate IsArtifactName(n: string) { n == KERNEL || n == INITRAMFS || n == ROOTFS }

  /** The `--artifact` argument, compared after lowering its case: `all`
      selects the three artifacts in boot order, an artifact's name selects
      that one, anything else is an error naming the lowered text. */
  function Selection(arg: string): (r: Result<seq<string>, string>)
    ensures var lowered := ToLowerForKeyword(arg);
            && (r.Ok? <==> lowered == ALL || IsArtifactName(lowered))
            && (r.Err? ==> r.error == UnknownArtifact(lowered))
            && (r.Ok? && lowered != ALL ==> r.value == [lowered])
            && (r.Ok? && lowered == ALL ==> r.value == [KERNEL, INITRAMFS, ROOTFS])
    ensures r.Ok? ==> |r.value| > 0 && (forall i :: 0 <= i < |r.value| ==> IsArtifactName(r.value[i]))
    ensures r.Ok? ==> forall i, j :: 0 <= i < j < |r.value| ==> r.value[i] != r.value[j]
  {
    var lowered := ToLowerForKeyword(arg);
    if lowered == ALL then Ok([KERNEL, INITRAMFS, ROOTFS])
    else if lowered == KERNEL then Ok([KERNEL])
    else if lowered == INITRAMFS then Ok([INITRAMFS])
    else if lowered == ROOTFS then Ok([ROOTFS])
    else Err(UnknownArtifact(lowered))
  }

  /** Capitals select the same artifacts as lower case. */
  lemma SelectionIgnoresCase()
    ensures Selection("ALL") == Ok([KERNEL, INITRAMFS, ROOTFS])
    ensures Selection("Kernel") == Ok([KERNEL])
    ensures Selection("boot") == Err(UnknownArtifact("boot"))
  {
    assert ToLowerForKeyword("ALL") == ALL;
    assert ToLowerForKeyword("Kernel") == KERNEL;
    assert ToLowerForKeyword("boot") == "boot";
  }

  /** The manifest's entry for an artifact name; only the root file system
      may be absent. */
  function Lookup(arts: Artifacts, name: string): Option<Artifact> {
    if name == KERNEL then Some(arts.kernel)
    else if name == INITRAMFS then Some(arts.initramfs)
    else if name == ROOTFS then arts.rootfs
    else None
  }

  // ---------------------------------------------------------------------
  // The announced hash prefix

  /** The hash prefix announced before a download, as written: slicing the
      first 16 characters, which panics (`None`) on a shorter hash. */
  function HashPrefixAsWritten(hash: string): (r: Option<string>)
    ensures r.Some? <==> |hash| >= HASH_PREFIX_LEN
    ensures r.Some? ==> |r.value| == HASH_PREFIX_LEN && StartsWith(hash, r.value)
  {
    if |hash| < HASH_PREFIX_LEN then None else Some(hash[..HASH_PREFIX_LEN])
  }

  /** A digest in the tagged form the provider writes, as the daemon's own
      tests spell it, makes the announcement panic before any download. */
  lemma TaggedTestHashPanics()
    ensures HashPrefixAsWritten("sha256:abc123") == None
  {
    assert |"sha256:abc123"| == 13;
  }

  /** The announcement as intended: at most the first 16 characters, so a
      short hash is announced whole instead of aborting the run. */
  function HashPrefix(hash: string): (r: string)
    ensures |r| == if |hash| < HASH_PREFIX_LEN then |hash| else HASH_PREFIX_LEN
    ensures StartsWith(hash, r)
    ensures HashPrefixAsWritten(hash).Some? ==> r == HashPrefixAsWritten(hash).value
  {
    if |hash| < HASH_PREFIX_LEN then hash else hash[..HASH_PREFIX_LEN]
  }

  // ---------------------------------------------------------------------
  // One download

  function TempName(name: string): string { name + ".tmp" }

  function HashFileName(name: string): string { name + ".sha256" }

  /** What the server does with one request. `chunks` are the successive
      reads of the body: an empty read ends it, and when the list runs out
      the next read fails if `readFails` and otherwise ends the body. */
  datatype Transfer =
    | NoClient
    | Unreachable
    | Refused(status: string)
    | Body(contentLength: Option<u64>, chunks: seq<Bytes>, readFails: bool)

  /** The bytes read before the body ends or a read fails. */
  function Received(chunks: seq<Bytes>): Bytes {
    if |chunks| == 0 || |chunks[0]| == 0 then [] else chunks[0] + Received(chunks[1..])
  }

  /** Whether the body ends without a failed read. */
  predicate ReadEnds(chunks: seq<Bytes>, readFails: bool) {
    if |chunks| == 0 then !readFails
    else if |chunks[0]| == 0 then true
    else ReadEnds(chunks[1..], readFails)
  }

  /** `download_and_verify` on the directory's contents: the result and the
      directory afterwards. A failed read leaves the partial temporary file;
      a wrong size or digest removes it; an accepted download is renamed
      over the artifact's file. */
  function Attempt(p: Suite, t: Transfer, name: string, hash: string, size: u64, files: map<string, Bytes>)
    : (Result<(), string>, map<string, Bytes>)
  {
    match t
    case NoClient => (Err(CLIENT_FAILED), files)
    case Unreachable => (Err(REQUEST_FAILED), files)
    case Refused(status) => (Err(HttpError(status)), files)
    case Body(length, chunks, readFails) =>
      if length.Some? && length.value != size then (Err(SizeReported(size, length.value)), files)
      else
        var body := Received(chunks);
        var computed := Hex.Encode(p.sha256(body));
        if !ReadEnds(chunks, readFails) then (Err(READ_FAILED), files[TempName(name) := body])
        else if |body| != size then (Err(SizeDownloaded(size, |body|)), files - {TempName(name)})
        else if computed != hash then (Err(HashMismatch(hash, computed)), files - {TempName(name)})
        else (Ok(()), (files - {TempName(name)})[name := body])
  }

  /** The artifact's file holds exactly the expected number of bytes, and
      their SHA-256 in lowercase hex is the expected hash. */
  predicate Verified(p: Suite, files: map<string, Bytes>, name: string, hash: string, size: nat) {
    name in files && |files[name]| == size && Hex.Encode(p.sha256(files[name])) == hash
  }

  /** A download is accepted exactly when the server answered with a body
      whose announced length (if any) and read length are the expected
      size and whose digest is the expected hash; then the artifact's file
      holds that body and the temporary file is gone. */
  lemma AcceptedIffVerified(p: Suite, t: Transfer, name: string, hash: string, size: u64, files: map<string, Bytes>)
    requires name != TempName(name)
    ensures var (r, after) := Attempt(p, t, name, hash, size, files);
            && (r.Ok? <==> t.Body? && (t.contentLength.None? || t.contentLength.value == size)
                           && ReadEnds(t.chunks, t.readFails) && |Received(t.chunks)| == size
                           && Hex.Encode(p.sha256(Received(t.chunks))) == hash)
            && (r.Ok? ==> Verified(p, after, name, hash, size) && after[name] == Received(t.chunks)
                          && TempName(name) !in after)
  {
  }

  /** A rejected download never touches the artifact's file, and every
      rejection after the body was read in full removes the temporary
      file. */
  lemma RejectionKeepsArtifact(p: Suite, t: Transfer, name: string, hash: string, size: u64,
                               files: map<string, Bytes>)
    requires name != TempName(name)
    ensures var (r, after) := Attempt(p, t, name, hash, size, files);
            && (r.Err? ==> (name in after <==> name in files) && (name in files ==> after[name] == files[name]))
            && ((r.Err? && t.Body? && ReadEnds(t.chunks, t.readFails)
                 && (t.contentLength.None? || t.contentLength.value == size)) ==> TempName(name) !in after)
  {
  }

  /** Only a bare lowercase hex digest can ever be accepted: a hash written
      with the provider's `sha256:` tag is rejected whatever the server
      sends, and with a 32-byte digest the hash must be 64 characters. */
  lemma AcceptedHashIsBareHex(p: Suite, t: Transfer, name: string, hash: string, size: u64,
                              files: map<string, Bytes>)
    requires Attempt(p, t, name, hash, size, files).0.Ok?
    ensures Hex.AllLowerHex(hash)
    ensures !StartsWith(hash, "sha256:")
    ensures (forall m :: |p.sha256(m)| == DIGEST_LEN) ==> |hash| == 2 * DIGEST_LEN
  {
    var computed := Hex.Encode(p.sha256(Received(t.chunks)));
    assert hash == computed;
    TaggedIsNotHex(hash);
  }

  lemma TaggedIsNotHex(s: string)
    ensures Hex.AllLowerHex(s) ==> !StartsWith(s, "sha256:")
  {
    if |s| >= 7 && Hex.AllLowerHex(s) {
      assert Hex.IsLowerHexChar(s[6]);
      assert s[..7][6] == s[6];
    }
  }

  // ---------------------------------------------------------------------
  // Retrying one artifact

  /** The downloads `fetch_artifact` may make, in order: every URL in the
      manifest's order, each `retry` times. */
  function Row(url: string, k: nat, retry: nat): (r: seq<(string, nat)>)
    ensures |r| == if k < retry then retry - k else 0
    decreases retry - k
  {
    if k >= retry then [] else [(url, k)] + Row(url, k + 1, retry)
  }

  function Schedule(urls: seq<string>, retry: nat): seq<(string, nat)> {
    if |urls| == 0 then [] else Row(urls[0], 0, retry) + Schedule(urls[1..], retry)
  }

  function Pow2(k: nat): (r: nat)
    ensures r >= 1
  {
    if k == 0 then 1 else 2 * Pow2(k - 1)
  }

  /** The wait after attempt `k` on a URL fails: `2^k` seconds (as a
      `u64`), except after that URL's last attempt. */
  function Backoff(k: nat, retry: nat): seq<nat> {
    if k + 1 < retry then [WrapU64(Pow2(k))] else []
  }

  lemma {:induction false} Pow2Add(a: nat, b: nat)
    ensures Pow2(a + b) == Pow2(a) * Pow2(b)
    decreases a
  {
    if a > 0 {
      Pow2Add(a - 1, b);
    }
  }

  lemma Pow2SixtyFour()
    ensures Pow2(64) == TWO_64
  {
    assert Pow2(1) == 2;
    Pow2Add(1, 1);
    assert Pow2(2) == 4;
    Pow2Add(2, 2);
    assert Pow2(4) == 16;
    Pow2Add(4, 4);
    assert Pow2(8) == 256;
    Pow2Add(8, 8);
    assert Pow2(16) == 0x1_0000;
    Pow2Add(16, 16);
    assert Pow2(32) == 0x1_0000_0000;
    Pow2Add(32, 32);
  }

  /** `2_u64.pow(attempt)` in a build where it wraps: the wait is `2^k`
      seconds up to attempt 63, and from attempt 64 on it is 0, so the
      retry loop no longer waits. */
  lemma BackoffWraps(k: nat, retry: nat)
    requires k + 1 < retry
    ensures k < 64 ==> Backoff(k, retry) == [Pow2(k)]
    ensures k >= 64 ==> Backoff(k, retry) == [0]
  {
    if k < 64 {
      Pow2BelowSixtyFour(k);
    } else {
      Pow2MultipleOfModulus(k);
    }
  }

  lemma {:induction false} Pow2BelowSixtyFour(k: nat)
    requires k < 64
    ensures Pow2(k) < TWO_64
    decreases 64 - k
  {
    if k == 63 {
      Pow2SixtyFour();
    } else {
      Pow2BelowSixtyFour(k + 1);
    }
  }

  lemma Pow2MultipleOfModulus(k: nat)
    requires k >= 64
    ensures Pow2(k) % TWO_64 == 0
  {
    Pow2SixtyFour();
    Pow2Add(64, k - 64);
    var x := Pow2(k - 64);
    assert Pow2(k) == TWO_64 * x;
  }

  /** The directory, the waits so far and the number of downloads started
      (the index of the next response the network gives). */
  datatype Progress = Progress(files: map<string, Bytes>, sleeps: seq<nat>, attempts: nat)

  /** `fetch_artifact` from a point of its schedule: the result and the
      progress afterwards. The first accepted download writes the hash file
      and ends the search; when the schedule runs out, the last error is
      returned, or a fixed message when there was no attempt at all. */
  function Fetch(p: Suite, server: (string, nat) -> Transfer, name: string, a: Artifact, retry: nat,
                 todo: seq<(string, nat)>, lastError: Option<string>, s: Progress)
    : (Result<DownloadResult, string>, Progress)
    decreases |todo|
  {
    if |todo| == 0 then (Err(if lastError.Some? then lastError.value else ALL_ATTEMPTS_FAILED), s)
    else
      var (url, k) := todo[0];
      var (r, files) := Attempt(p, server(url, s.attempts), name, a.hash, a.size, s.files);
      if r.Ok? then
        (Ok(DownloadResult(name, a.size, a.hash, name)),
         Progress(files[HashFileName(name) := p.utf8(a.hash)], s.sleeps, s.attempts + 1))
      else
        Fetch(p, server, name, a, retry, todo[1..], Some(r.error),
              Progress(files, s.sleeps + Backoff(k, retry), s.attempts + 1))
  }

  /** The waits a run of failed attempts adds. */
  function Waits(todo: seq<(string, nat)>, retry: nat): seq<nat> {
    if |todo| == 0 then [] else Backoff(todo[0].1, retry) + Waits(todo[1..], retry)
  }

  /** The downloads one URL may make, and the waits between them:
      1, 2, 4, … seconds, none after the last attempt. */
  function Doublings(k: nat, retry: nat): (r: seq<nat>)
    ensures |r| == if k + 1 < retry then retry - 1 - k else 0
    decreases retry - k
  {
    if k + 1 >= retry then [] else [WrapU64(Pow2(k))] + Doublings(k + 1, retry)
  }

  lemma {:induction false} RowWaits(url: string, k: nat, retry: nat)
    ensures Waits(Row(url, k, retry), retry) == Doublings(k, retry)
    decreases retry - k
  {
    if k < retry {
      RowWaits(url, k + 1, retry);
      assert Row(url, k, retry)[1..] == Row(url, k + 1, retry);
    }
  }

  /** The schedule holds `|urls| * retry` downloads. */
  lemma {:induction false} ScheduleLength(urls: seq<string>, retry: nat)
    ensures |Schedule(urls, retry)| == |urls| * retry
  {
    if |urls| > 0 {
      ScheduleLength(urls[1..], retry);
      assert |urls| * retry == retry + (|urls| - 1) * retry;
    }
  }

  lemma {:induction false} ScheduleAppend(xs: seq<string>, ys: seq<string>, retry: nat)
    ensures Schedule(xs + ys, retry) == Schedule(xs, retry) + Schedule(ys, retry)
  {
    if |xs| > 0 {
      assert (xs + ys)[0] == xs[0] && (xs + ys)[1..] == xs[1..] + ys;
      ScheduleAppend(xs[1..], ys, retry);
      var row := Row(xs[0], 0, retry);
      assert Schedule(xs + ys, retry) == row + (Schedule(xs[1..], retry) + Schedule(ys, retry));
    } else {
      assert xs + ys == ys;
    }
  }

  /** URL `u` is tried `retry` times in a row, after every earlier URL's
      attempts and before every later one's. */
  lemma ScheduleOrder(urls: seq<string>, u: nat, retry: nat)
    requires u < |urls|
    ensures Schedule(urls, retry)
         == Schedule(urls[..u], retry) + Row(urls[u], 0, retry) + Schedule(urls[u + 1..], retry)
  {
    assert urls == urls[..u] + ([urls[u]] + urls[u + 1..]);
    ScheduleAppend(urls[..u], [urls[u]] + urls[u + 1..], retry);
    ScheduleAppend([urls[u]], urls[u + 1..], retry);
    assert Schedule([urls[u]], retry) == Row(urls[u], 0, retry) + Schedule([], retry);
  }

  /** One attempt on a URL, as a step of `Fetch`: an accepted download
      ends the run, a rejected one moves on to the URL's next attempt. */
  lemma FetchRowStep(p: Suite, server: (string, nat) -> Transfer, name: string, a: Artifact, retry: nat,
                     url: string, k: nat, rest: seq<(string, nat)>, lastError: Option<string>, s: Progress)
    requires k < retry
    ensures var step := Attempt(p, server(url, s.attempts), name, a.hash, a.size, s.files);
            var todo := Row(url, k, retry) + rest;
            && (step.0.Ok? ==> Fetch(p, server, name, a, retry, todo, lastError, s)
                               == (Ok(DownloadResult(name, a.size, a.hash, name)),
                                   Progress(step.1[HashFileName(name) := p.utf8(a.hash)], s.sleeps, s.attempts + 1)))
            && (step.0.Err? ==> Fetch(p, server, name, a, retry, todo, lastError, s)
                                == Fetch(p, server, name, a, retry, Row(url, k + 1, retry) + rest, Some(step.0.error),
                                         Progress(step.1, s.sleeps + Backoff(k, retry), s.attempts + 1)))
  {
    var todo := Row(url, k, retry) + rest;
    assert todo[0] == (url, k) && todo[1..] == Row(url, k + 1, retry) + rest;
  }

  /** The schedule from URL `u` on starts with that URL's row. */
  lemma ScheduleFrom(urls: seq<string>, u: nat, retry: nat)
    requires u < |urls|
    ensures Schedule(urls[u..], retry) == Row(urls[u], 0, retry) + Schedule(urls[u + 1..], retry)
  {
    assert urls[u..][0] == urls[u] && urls[u..][1..] == urls[u + 1..];
  }

  /** Every run makes at least one download when its schedule is not empty
      and never more than the schedule holds; a failed run makes them all,
      adds exactly their waits and leaves the artifact's file as it was. */
  lemma {:induction false} FetchFailed(p: Suite, server: (string, nat) -> Transfer, name: string, a: Artifact,
                                       retry: nat, todo: seq<(string, nat)>, lastError: Option<string>, s: Progress)
    requires name != TempName(name) && name != HashFileName(name)
    ensures var (r, after) := Fetch(p, server, name, a, retry, todo, lastError, s);
            && (|todo| > 0 ==> s.attempts < after.attempts)
            && after.attempts <= s.attempts + |todo|
            && (r.Err? ==> after.attempts == s.attempts + |todo| && after.sleeps == s.sleeps + Waits(todo, retry))
            && (r.Err? ==> (name in after.files <==> name in s.files)
                           && (name in s.files ==> after.files[name] == s.files[name]))
    decreases |todo|
  {
    if |todo| > 0 {
      var (url, k) := todo[0];
      var t := server(url, s.attempts);
      RejectionKeepsArtifact(p, t, name, a.hash, a.size, s.files);
      var (d, files) := Attempt(p, t, name, a.hash, a.size, s.files);
      if d.Err? {
        FetchFailed(p, server, name, a, retry, todo[1..], Some(d.error),
                    Progress(files, s.sleeps + Backoff(k, retry), s.attempts + 1));
      }
    }
  }

  /** A successful run leaves the artifact verified on disk, its hash file
      holding the manifest's hash, and no temporary file. */
  lemma {:induction false} FetchSucceeded(p: Suite, server: (string, nat) -> Transfer, name: string, a: Artifact,
                                          retry: nat, todo: seq<(string, nat)>, lastError: Option<string>, s: Progress)
    requires name != TempName(name) && name != HashFileName(name) && TempName(name) != HashFileName(name)
    ensures var (r, after) := Fetch(p, server, name, a, retry, todo, lastError, s);
            r.Ok? ==> && r.value == DownloadResult(name, a.size, a.hash, name)
                      && Verified(p, after.files, name, a.hash, a.size)
                      && HashFileName(name) in after.files && after.files[HashFileName(name)] == p.utf8(a.hash)
                      && TempName(name) !in after.files
    decreases |todo|
  {
    if |todo| > 0 {
      var (url, k) := todo[0];
      var t := server(url, s.attempts);
      AcceptedIffVerified(p, t, name, a.hash, a.size, s.files);
      var (d, files) := Attempt(p, t, name, a.hash, a.size, s.files);
      if d.Err? {
        FetchSucceeded(p, server, name, a, retry, todo[1..], Some(d.error),
                       Progress(files, s.sleeps + Backoff(k, retry), s.attempts + 1));
      }
    }
  }

  /** The fixed message is reported exactly when no download was made:
      every download error says what went wrong with that download. */
  lemma {:induction false} DefaultErrorIffNoAttempt(p: Suite, server: (string, nat) -> Transfer, name: string,
                                                    a: Artifact, retry: nat, todo: seq<(string, nat)>,
                                                    lastError: Option<string>, s: Progress)
    requires lastError.Some? ==> lastError.value != ALL_ATTEMPTS_FAILED
    ensures var r := Fetch(p, server, name, a, retry, todo, lastError, s).0;
            r.Err? ==> (r.error == ALL_ATTEMPTS_FAILED <==> |todo| == 0 && lastError.None?)
    decreases |todo|
  {
    if |todo| > 0 {
      var (url, k) := todo[0];
      var (d, files) := Attempt(p, server(url, s.attempts), name, a.hash, a.size, s.files);
      if d.Err? {
        assert d.error[0] != ALL_ATTEMPTS_FAILED[0];
        DefaultErrorIffNoAttempt(p, server, name, a, retry, todo[1..], Some(d.error),
                                 Progress(files, s.sleeps + Backoff(k, retry), s.attempts + 1));
      }
    }
  }

  /** A run touches only the artifact's file, its temporary file and its
      hash file. */
  lemma {:induction false} FetchFrame(p: Suite, server: (string, nat) -> Transfer, name: string, a: Artifact,
                                      retry: nat, todo: seq<(string, nat)>, lastError: Option<string>, s: Progress,
                                      other: string)
    requires other != name && other != TempName(name) && other != HashFileName(name)
    ensures var after := Fetch(p, server, name, a, retry, todo, lastError, s).1;
            && (other in after.files <==> other in s.files)
            && (other in s.files ==> after.files[other] == s.files[other])
    decreases |todo|
  {
    if |todo| > 0 {
      var (url, k) := todo[0];
      var (d, files) := Attempt(p, server(url, s.attempts), name, a.hash, a.size, s.files);
      if d.Err? {
        FetchFrame(p, server, name, a, retry, todo[1..], Some(d.error),
                   Progress(files, s.sleeps + Backoff(k, retry), s.attempts + 1), other);
      }
    }
  }

  /** `fetch_artifact` as a whole: at most `|urls| * retry` downloads,
      all of them when it fails; the fixed message exactly when there was no
      URL or no retry; and, when every download failed, waits of 1, 2, 4, …
      seconds between the attempts on each URL. */
  lemma FetchArtifactRun(p: Suite, server: (string, nat) -> Transfer, name: string, a: Artifact, retry: nat,
                         s: Progress)
    requires IsArtifactName(name)
    ensures var (r, after) := Fetch(p, server, name, a, retry, Schedule(a.urls, retry), None, s);
            && after.attempts <= s.attempts + |a.urls| * retry
            && (r.Err? ==> after.attempts == s.attempts + |a.urls| * retry)
            && (r.Err? ==> (r.error == ALL_ATTEMPTS_FAILED <==> |a.urls| == 0 || retry == 0))
            && (r.Err? ==> after.sleeps == s.sleeps + Repeat(Doublings(0, retry), |a.urls|))
  {
    var todo := Schedule(a.urls, retry);
    NamesApart(name, name);
    ScheduleLength(a.urls, retry);
    FetchFailed(p, server, name, a, retry, todo, None, s);
    DefaultErrorIffNoAttempt(p, server, name, a, retry, todo, None, s);
    ScheduleWaits(a.urls, retry);
    if |a.urls| > 0 {
      assert |todo| >= |Row(a.urls[0], 0, retry)| == retry;
    }
  }

  /** `n` copies of `xs`, one after another. */
  function Repeat<T>(xs: seq<T>, n: nat): seq<T> {
    if n == 0 then [] else xs + Repeat(xs, n - 1)
  }

  lemma {:induction false} WaitsAppend(xs: seq<(string, nat)>, ys: seq<(string, nat)>, retry: nat)
    ensures Waits(xs + ys, retry) == Waits(xs, retry) + Waits(ys, retry)
  {
    if |xs| > 0 {
      assert (xs + ys)[0] == xs[0] && (xs + ys)[1..] == xs[1..] + ys;
      WaitsAppend(xs[1..], ys, retry);
    } else {
      assert xs + ys == ys;
    }
  }

  lemma {:induction false} ScheduleWaits(urls: seq<string>, retry: nat)
    ensures Waits(Schedule(urls, retry), retry) == Repeat(Doublings(0, retry), |urls|)
  {
    if |urls| > 0 {
      ScheduleWaits(urls[1..], retry);
      WaitsAppend(Row(urls[0], 0, retry), Schedule(urls[1..], retry), retry);
      RowWaits(urls[0], 0, retry);
    }
  }

  /** With the default of three attempts, a URL is retried after one and
      then two seconds. */
  lemma DefaultRetryWaits()
    ensures Doublings(0, 3) == [1, 2]
  {
    assert Pow2(1) == 2;
    assert Doublings(2, 3) == [];
  }

  // ---------------------------------------------------------------------
  // The whole run

  /** Which artifacts a run fetched, whether one failed, and whether the
      run panicked announcing a hash. */
  datatype Tally = Tally(results: seq<DownloadResult>, failed: bool, panicked: bool)

  /** The tally after one artifact's fetch ended with `r`. */
  function Record(t: Tally, r: Result<DownloadResult, string>): (t': Tally)
    ensures t'.panicked == t.panicked && t'.failed == (t.failed || r.Err?)
    ensures t'.results == if r.Ok? then t.results + [r.value] else t.results
  {
    if r.Ok? then t.(results := t.results + [r.value]) else t.(failed := true)
  }

  /** How a run announces an artifact's hash before fetching it: the
      prefix it prints, or `None` where announcing panics. */
  type Announcer = string -> Option<string>

  /** The announcement as intended: never panics. */
  function Corrected(hash: string): (r: Option<string>)
    ensures r.Some? && StartsWith(hash, r.value)
  {
    Some(HashPrefix(hash))
  }

  /** The log after announcing `hash`; nothing is printed when quiet. */
  function Announce(log: seq<string>, quiet: bool, announce: Announcer, hash: string): (log': seq<string>)
    requires quiet || announce(hash).Some?
  {
    if quiet then log else log + [announce(hash).value]
  }

  /** The loop of `main` over the selected names: an artifact the manifest
      lacks is skipped; every other one is announced unless quiet and then
      fetched, and a failure is remembered without stopping the loop. An
      announcement that panics ends the run where it stands: nothing is
      downloaded, slept or written after it. */
  function Pass(p: Suite, server: (string, nat) -> Transfer, arts: Artifacts, names: seq<string>, retry: nat,
                quiet: bool, announce: Announcer, t: Tally, s: Progress, log: seq<string>)
    : (r: (Tally, Progress, seq<string>))
    decreases |names|
  {
    if |names| == 0 || t.panicked then (t, s, log)
    else
      match Lookup(arts, names[0])
      case None => Pass(p, server, arts, names[1..], retry, quiet, announce, t, s, log)
      case Some(a) =>
        if !quiet && announce(a.hash).None? then (t.(panicked := true), s, log)
        else
          var (r, s') := Fetch(p, server, names[0], a, retry, Schedule(a.urls, retry), None, s);
          Pass(p, server, arts, names[1..], retry, quiet, announce, Record(t, r), s',
               Announce(log, quiet, announce, a.hash))
  }

  /** As written, a run that is not quiet panics exactly when a selected
      artifact the manifest has carries a hash shorter than 16 characters;
      a quiet run never panics. */
  lemma {:induction false} PanicsIffShortHash(p: Suite, server: (string, nat) -> Transfer, arts: Artifacts,
                                              names: seq<string>, retry: nat, quiet: bool, t: Tally, s: Progress,
                                              log: seq<string>)
    requires !t.panicked
    ensures Pass(p, server, arts, names, retry, quiet, HashPrefixAsWritten, t, s, log).0.panicked <==>
            !quiet && exists i :: 0 <= i < |names| && Lookup(arts, names[i]).Some?
                                  && |Lookup(arts, names[i]).value.hash| < HASH_PREFIX_LEN
    decreases |names|
  {
    if |names| > 0 {
      var rest := names[1..];
      assert forall i :: 1 <= i < |names| ==> names[i] == rest[i - 1];
      assert forall i :: 0 <= i < |rest| ==> rest[i] == names[i + 1];
      match Lookup(arts, names[0])
      case None =>
        PanicsIffShortHash(p, server, arts, rest, retry, quiet, t, s, log);
      case Some(a) =>
        if !quiet && HashPrefixAsWritten(a.hash).None? {
        } else {
          var (r, s') := Fetch(p, server, names[0], a, retry, Schedule(a.urls, retry), None, s);
          PanicsIffShortHash(p, server, arts, rest, retry, quiet, Record(t, r), s',
                             Announce(log, quiet, HashPrefixAsWritten, a.hash));
        }
    }
  }

  /** The run of the daemon's own tests: with the tagged hash
      `sha256:abc123` on the kernel, `all` panics before any download
      unless quiet. */
  lemma TaggedTestRunPanics(p: Suite, server: (string, nat) -> Transfer, arts: Artifacts, retry: nat,
                            s: Progress, log: seq<string>)
    requires arts.kernel.hash == "sha256:abc123"
    ensures var (t, s', log') := Pass(p, server, arts, [KERNEL, INITRAMFS, ROOTFS], retry, false, HashPrefixAsWritten,
                                      Tally([], false, false), s, log);
            t.panicked && t.results == [] && s' == s && log' == log
  {
    TaggedTestHashPanics();
  }

  /** With the corrected announcement no run panics. */
  lemma {:induction false} CorrectedNeverPanics(p: Suite, server: (string, nat) -> Transfer, arts: Artifacts,
                                                names: seq<string>, retry: nat, quiet: bool, t: Tally, s: Progress,
                                                log: seq<string>)
    requires !t.panicked
    ensures !Pass(p, server, arts, names, retry, quiet, Corrected, t, s, log).0.panicked
    decreases |names|
  {
    if |names| > 0 {
      match Lookup(arts, names[0])
      case None =>
        CorrectedNeverPanics(p, server, arts, names[1..], retry, quiet, t, s, log);
      case Some(a) =>
        var (r, s') := Fetch(p, server, names[0], a, retry, Schedule(a.urls, retry), None, s);
        CorrectedNeverPanics(p, server, arts, names[1..], retry, quiet, Record(t, r), s',
                             Announce(log, quiet, Corrected, a.hash));
    }
  }

  /** How a run ends: with `main`'s result, or in a panic. */
  datatype RunOutcome = Finished(result: Result<seq<DownloadResult>, string>) | Panicked

  /** The run's verdict. */
  function Outcome(t: Tally): (o: RunOutcome)
    ensures o.Panicked? <==> t.panicked
    ensures o == Finished(Ok(t.results)) <==> !t.panicked && !t.failed
    ensures o == Finished(Err(SOME_ARTIFACT_FAILED)) <==> !t.panicked && t.failed
  {
    if t.panicked then Panicked
    else if t.failed then Finished(Err(SOME_ARTIFACT_FAILED)) else Finished(Ok(t.results))
  }

  /** The results a run without failures reports: one per selected name
      the manifest has, in order. */
  function Expected(arts: Artifacts, names: seq<string>): seq<DownloadResult> {
    if |names| == 0 then []
    else match Lookup(arts, names[0])
      case None => Expected(arts, names[1..])
      case Some(a) => [DownloadResult(names[0], a.size, a.hash, names[0])] + Expected(arts, names[1..])
  }

  /** The artifacts' names are not one another's temporary or hash file. */
  lemma NamesApart(n: string, m: string)
    requires IsArtifactName(n) && IsArtifactName(m)
    ensures n != TempName(m) && n != HashFileName(m) && TempName(n) != HashFileName(n)
  {
    assert |TempName(m)| == |m| + 4 && |HashFileName(m)| == |m| + 7;
    assert TempName(n)[|n| + 1] == 't' && HashFileName(n)[|n| + 1] == 's';
  }

  /** A run that neither failed nor panicked reports every selected
      artifact the manifest has, in order. */
  lemma {:induction false} PassResults(p: Suite, server: (string, nat) -> Transfer, arts: Artifacts,
                                       names: seq<string>, retry: nat, quiet: bool, announce: Announcer,
                                       t: Tally, s: Progress, log: seq<string>)
    requires forall i :: 0 <= i < |names| ==> IsArtifactName(names[i])
    ensures var t' := Pass(p, server, arts, names, retry, quiet, announce, t, s, log).0;
            !t'.failed && !t'.panicked ==> t'.results == t.results + Expected(arts, names)
    decreases |names|
  {
    if |names| > 0 && !t.panicked {
      var n := names[0];
      match Lookup(arts, n)
      case None =>
        PassResults(p, server, arts, names[1..], retry, quiet, announce, t, s, log);
      case Some(a) =>
        if quiet || announce(a.hash).Some? {
          var (r, s') := Fetch(p, server, n, a, retry, Schedule(a.urls, retry), None, s);
          var t1 := Record(t, r);
          var log' := Announce(log, quiet, announce, a.hash);
          PassResults(p, server, arts, names[1..], retry, quiet, announce, t1, s', log');
          PassKeepsFailure(p, server, arts, names[1..], retry, quiet, announce, t1, s', log');
          if r.Ok? {
            NamesApart(n, n);
            FetchSucceeded(p, server, n, a, retry, Schedule(a.urls, retry), None, s);
          }
        }
    }
  }

  /** At the end of a run that neither failed nor panicked, every selected
      artifact the manifest has is verified on disk. */
  lemma {:induction false} PassVerified(p: Suite, server: (string, nat) -> Transfer, arts: Artifacts,
                                        names: seq<string>, retry: nat, quiet: bool, announce: Announcer,
                                        t: Tally, s: Progress, log: seq<string>)
    requires forall i :: 0 <= i < |names| ==> IsArtifactName(names[i])
    requires forall i, j :: 0 <= i < j < |names| ==> names[i] != names[j]
    ensures var (t', after, _) := Pass(p, server, arts, names, retry, quiet, announce, t, s, log);
            !t'.failed && !t'.panicked ==>
              forall i :: 0 <= i < |names| && Lookup(arts, names[i]).Some? ==>
                Verified(p, after.files, names[i], Lookup(arts, names[i]).value.hash,
                         Lookup(arts, names[i]).value.size)
    decreases |names|
  {
    if |names| > 0 && !t.panicked {
      var n := names[0];
      var rest := names[1..];
      match Lookup(arts, n)
      case None =>
        PassVerified(p, server, arts, rest, retry, quiet, announce, t, s, log);
      case Some(a) =>
        if quiet || announce(a.hash).Some? {
          var (r, s') := Fetch(p, server, n, a, retry, Schedule(a.urls, retry), None, s);
          var t1 := Record(t, r);
          var log' := Announce(log, quiet, announce, a.hash);
          PassVerified(p, server, arts, rest, retry, quiet, announce, t1, s', log');
          PassKeepsFailure(p, server, arts, rest, retry, quiet, announce, t1, s', log');
          if r.Ok? {
            NamesApart(n, n);
            FetchSucceeded(p, server, n, a, retry, Schedule(a.urls, retry), None, s);
            assert forall i :: 0 <= i < |rest| ==> rest[i] == names[i + 1];
            PassKeepsFile(p, server, arts, rest, retry, quiet, announce, t1, s', log', n);
          }
        }
    }
  }

  /** A failure stays remembered to the end of the run. */
  lemma {:induction false} PassKeepsFailure(p: Suite, server: (string, nat) -> Transfer, arts: Artifacts,
                                            names: seq<string>, retry: nat, quiet: bool, announce: Announcer,
                                            t: Tally, s: Progress, log: seq<string>)
    ensures t.failed ==> Pass(p, server, arts, names, retry, quiet, announce, t, s, log).0.failed
    decreases |names|
  {
    if |names| > 0 && !t.panicked {
      match Lookup(arts, names[0])
      case None =>
        PassKeepsFailure(p, server, arts, names[1..], retry, quiet, announce, t, s, log);
      case Some(a) =>
        if quiet || announce(a.hash).Some? {
          var (r, s') := Fetch(p, server, names[0], a, retry, Schedule(a.urls, retry), None, s);
          PassKeepsFailure(p, server, arts, names[1..], retry, quiet, announce, Record(t, r), s',
                           Announce(log, quiet, announce, a.hash));
        }
    }
  }

  /** Fetching the later artifacts leaves an earlier artifact's file alone. */
  lemma {:induction false} PassKeepsFile(p: Suite, server: (string, nat) -> Transfer, arts: Artifacts,
                                         names: seq<string>, retry: nat, quiet: bool, announce: Announcer,
                                         t: Tally, s: Progress, log: seq<string>, kept: string)
    requires IsArtifactName(kept)
    requires forall i :: 0 <= i < |names| ==> IsArtifactName(names[i]) && names[i] != kept
    ensures var after := Pass(p, server, arts, names, retry, quiet, announce, t, s, log).1;
            && (kept in after.files <==> kept in s.files)
            && (kept in s.files ==> after.files[kept] == s.files[kept])
    decreases |names|
  {
    if |names| > 0 && !t.panicked {
      match Lookup(arts, names[0])
      case None =>
        PassKeepsFile(p, server, arts, names[1..], retry, quiet, announce, t, s, log, kept);
      case Some(a) =>
        if quiet || announce(a.hash).Some? {
          var (r, s') := Fetch(p, server, names[0], a, retry, Schedule(a.urls, retry), None, s);
          NamesApart(kept, names[0]);
          FetchFrame(p, server, names[0], a, retry, Schedule(a.urls, retry), None, s, kept);
          PassKeepsFile(p, server, arts, names[1..], retry, quiet, announce, Record(t, r), s',
                        Announce(log, quiet, announce, a.hash), kept);
        }
    }
  }

  /** One failing artifact does not stop the others: unless the run
      panics, every selected artifact the manifest has with a mirror is
      downloaded at least once. */
  lemma {:induction false} EveryArtifactAttempted(p: Suite, server: (string, nat) -> Transfer, arts: Artifacts,
                                                  names: seq<string>, retry: nat, quiet: bool, announce: Announcer,
                                                  t: Tally, s: Progress, log: seq<string>)
    requires retry > 0
    requires forall i :: 0 <= i < |names| ==> IsArtifactName(names[i])
    ensures var (t', after, _) := Pass(p, server, arts, names, retry, quiet, announce, t, s, log);
            !t'.panicked ==> after.attempts >= s.attempts + Mirrored(arts, names)
    decreases |names|
  {
    if |names| > 0 && !t.panicked {
      match Lookup(arts, names[0])
      case None =>
        EveryArtifactAttempted(p, server, arts, names[1..], retry, quiet, announce, t, s, log);
      case Some(a) =>
        if quiet || announce(a.hash).Some? {
          var todo := Schedule(a.urls, retry);
          var (r, s') := Fetch(p, server, names[0], a, retry, todo, None, s);
          NamesApart(names[0], names[0]);
          FetchFailed(p, server, names[0], a, retry, todo, None, s);
          if |a.urls| > 0 {
            assert |todo| >= |Row(a.urls[0], 0, retry)| == retry;
          }
          EveryArtifactAttempted(p, server, arts, names[1..], retry, quiet, announce, Record(t, r), s',
                                 Announce(log, quiet, announce, a.hash));
        }
    }
  }

  /** A quiet run, or any run with the corrected announcement, downloads
      every selected artifact the manifest has with a mirror. */
  lemma CorrectedRunAttemptsAll(p: Suite, server: (string, nat) -> Transfer, arts: Artifacts,
                                names: seq<string>, retry: nat, quiet: bool, s: Progress, log: seq<string>)
    requires retry > 0
    requires forall i :: 0 <= i < |names| ==> IsArtifactName(names[i])
    ensures Pass(p, server, arts, names, retry, quiet, Corrected, Tally([], false, false), s, log).1.attempts
            >= s.attempts + Mirrored(arts, names)
    ensures Pass(p, server, arts, names, retry, true, HashPrefixAsWritten, Tally([], false, false), s, log).1.attempts
            >= s.attempts + Mirrored(arts, names)
  {
    CorrectedNeverPanics(p, server, arts, names, retry, quiet, Tally([], false, false), s, log);
    EveryArtifactAttempted(p, server, arts, names, retry, quiet, Corrected, Tally([], false, false), s, log);
    PanicsIffShortHash(p, server, arts, names, retry, true, Tally([], false, false), s, log);
    EveryArtifactAttempted(p, server, arts, names, retry, true, HashPrefixAsWritten, Tally([], false, false), s, log);
  }

  /** The number of selected artifacts the manifest has with at least one
      mirror. */
  function Mirrored(arts: Artifacts, names: seq<string>): nat {
    if |names| == 0 then 0
    else (if Lookup(arts, names[0]).Some? && |Lookup(arts, names[0]).value.urls| > 0 then 1 else 0)
         + Mirrored(arts, names[1..])
  }

  /** A manifest without a root file system fetches `all` exactly as if
      only the kernel and the initramfs had been asked for. */
  lemma MissingRootfsSkipped(p: Suite, server: (string, nat) -> Transfer, arts: Artifacts, retry: nat, quiet: bool,
                             announce: Announcer, t: Tally, s: Progress, log: seq<string>)
    requires arts.rootfs.None?
    ensures Pass(p, server, arts, [KERNEL, INITRAMFS, ROOTFS], retry, quiet, announce, t, s, log)
         == Pass(p, server, arts, [KERNEL, INITRAMFS], retry, quiet, announce, t, s, log)
  {
    assert [KERNEL, INITRAMFS, ROOTFS][1..] == [INITRAMFS, ROOTFS];
    assert [KERNEL, INITRAMFS][1..] == [INITRAMFS];
    assert [INITRAMFS, ROOTFS][1..] == [ROOTFS];
    if !t.panicked && (quiet || announce(arts.kernel.hash).Some?) {
      var a := arts.kernel;
      var (r, s1) := Fetch(p, server, KERNEL, a, retry, Schedule(a.urls, retry), None, s);
      var t1 := Record(t, r);
      var log1 := Announce(log, quiet, announce, a.hash);
      if !t1.panicked && (quiet || announce(arts.initramfs.hash).Some?) {
        var b := arts.initramfs;
        var (r2, s2) := Fetch(p, server, INITRAMFS, b, retry, Schedule(b.urls, retry), None, s1);
        var t2 := Record(t1, r2);
        var log2 := Announce(log1, quiet, announce, b.hash);
        assert Pass(p, server, arts, [ROOTFS], retry, quiet, announce, t2, s2, log2) == (t2, s2, log2);
      }
    }
  }

  // ---------------------------------------------------------------------
  // The downloader's state

  /** The output directory, the back-off waits slept so far, the downloads
      started so far and the hash prefixes announced. */
  class Fetcher {
    var files: map<string, Bytes>
    var sleeps: seq<nat>
    var attempts: nat
    var announced: seq<string>

    constructor (files: map<string, Bytes>)
      ensures this.files == files && sleeps == [] && attempts == 0 && announced == []
    {
      this.files := files;
      sleeps := [];
      attempts := 0;
      announced := [];
    }

    function State(): Progress
      reads this
    {
      Progress(files, sleeps, attempts)
    }

    /** The read loop: every chunk read is written to the temporary file
        and hashed, and `totalBytes` counts them. */
    static method ReadBody(chunks: seq<Bytes>, readFails: bool) returns (body: Bytes, totalBytes: nat, ok: bool)
      ensures body == Received(chunks) && totalBytes == |body|
      ensures ok == ReadEnds(chunks, readFails)
    {
      body := [];
      totalBytes := 0;
      var i := 0;
      while true
        invariant 0 <= i <= |chunks|
        invariant body + Received(chunks[i..]) == Received(chunks)
        invariant ReadEnds(chunks[i..], readFails) == ReadEnds(chunks, readFails)
        invariant totalBytes == |body|
        decreases |chunks| - i
      {
        if i == |chunks| {
          ok := !readFails;
          return;
        }
        var chunk := chunks[i];
        if |chunk| == 0 {
          break;
        }
        assert chunks[i..][1..] == chunks[i + 1..];
        body := body + chunk;
        totalBytes := totalBytes + |chunk|;
        i := i + 1;
      }
      ok := true;
    }

    /** `download_and_verify` against the next response the network gives
        for `url`. */
    method DownloadAndVerify(p: Suite, server: (string, nat) -> Transfer, url: string, name: string, hash: string,
                             size: u64) returns (r: Result<(), string>)
      modifies this
      ensures (r, files) == Attempt(p, server(url, old(attempts)), name, hash, size, old(files))
      ensures attempts == old(attempts) + 1 && sleeps == old(sleeps) && announced == old(announced)
    {
      var t := server(url, attempts);
      attempts := attempts + 1;
      match t {
        case NoClient => return Err(CLIENT_FAILED);
        case Unreachable => return Err(REQUEST_FAILED);
        case Refused(status) => return Err(HttpError(status));
        case Body(length, chunks, readFails) =>
          if length.Some? && length.value != size {
            return Err(SizeReported(size, length.value));
          }
          var body, totalBytes, ok := ReadBody(chunks, readFails);
          files := files[TempName(name) := body];
          if !ok {
            return Err(READ_FAILED);
          }
          assert files - {TempName(name)} == old(files) - {TempName(name)};
          if totalBytes != size {
            files := files - {TempName(name)};
            return Err(SizeDownloaded(size, totalBytes));
          }
          var computed := Hex.Encode(p.sha256(body));
          if computed != hash {
            files := files - {TempName(name)};
            return Err(HashMismatch(hash, computed));
          }
          files := (files - {TempName(name)})[name := body];
          return Ok(());
      }
    }

    /** The inner loop of `fetch_artifact`: up to `retry` downloads from
        one URL, stopping at the first accepted one (`done`), which also
        writes the hash file. */
    method TryMirror(p: Suite, server: (string, nat) -> Transfer, name: string, a: Artifact, retry: u32,
                     url: string, lastError: Option<string>, ghost rest: seq<(string, nat)>)
      returns (done: bool, r: Result<DownloadResult, string>, lastError': Option<string>)
      modifies this
      ensures announced == old(announced)
      ensures done ==> (r, State()) == Fetch(p, server, name, a, retry, Row(url, 0, retry) + rest, lastError, old(State()))
      ensures !done ==> Fetch(p, server, name, a, retry, Row(url, 0, retry) + rest, lastError, old(State()))
                        == Fetch(p, server, name, a, retry, rest, lastError', State())
    {
      ghost var spec := Fetch(p, server, name, a, retry, Row(url, 0, retry) + rest, lastError, State());
      lastError' := lastError;
      var k: nat := 0;
      while k < retry
        invariant 0 <= k <= retry
        invariant announced == old(announced)
        invariant spec == Fetch(p, server, name, a, retry, Row(url, k, retry) + rest, lastError', State())
      {
        ghost var before := State();
        FetchRowStep(p, server, name, a, retry, url, k, rest, lastError', before);
        ghost var step := Attempt(p, server(url, before.attempts), name, a.hash, a.size, before.files);
        var d := DownloadAndVerify(p, server, url, name, a.hash, a.size);
        assert d == step.0 && files == step.1 && attempts == before.attempts + 1;
        if d.Ok? {
          files := files[HashFileName(name) := p.utf8(a.hash)];
          return true, Ok(DownloadResult(name, a.size, a.hash, name)), lastError';
        }
        lastError' := Some(d.error);
        if k + 1 < retry {
          sleeps := sleeps + [WrapU64(Pow2(k))];
        }
        assert sleeps == before.sleeps + Backoff(k, retry);
        k := k + 1;
      }
      assert Row(url, k, retry) + rest == rest;
      done, r := false, Err(ALL_ATTEMPTS_FAILED);
    }

    /** `fetch_artifact`: URLs in order, each tried `retry` times, waiting
        `2^k` seconds after failed attempt `k` unless it was that URL's
        last. */
    method FetchArtifact(p: Suite, server: (string, nat) -> Transfer, name: string, a: Artifact, retry: u32)
      returns (r: Result<DownloadResult, string>)
      modifies this
      ensures (r, State()) == Fetch(p, server, name, a, retry, Schedule(a.urls, retry), None, old(State()))
      ensures announced == old(announced)
    {
      ghost var spec := Fetch(p, server, name, a, retry, Schedule(a.urls, retry), None, State());
      var lastError: Option<string> := None;
      var u := 0;
      while u < |a.urls|
        invariant 0 <= u <= |a.urls|
        invariant announced == old(announced)
        invariant spec == Fetch(p, server, name, a, retry, Schedule(a.urls[u..], retry), lastError, State())
      {
        ScheduleFrom(a.urls, u, retry);
        var done, fetched, tried := TryMirror(p, server, name, a, retry, a.urls[u], lastError,
                                              Schedule(a.urls[u + 1..], retry));
        if done {
          return fetched;
        }
        lastError := tried;
        u := u + 1;
      }
      r := Err(if lastError.Some? then lastError.value else ALL_ATTEMPTS_FAILED);
    }

    /** `main` after the manifest is read: select, announce and fetch each
        selected artifact the manifest has, and fail when any of them
        failed. Announcing slices `hash[..16]`, as the source does, so a
        short hash panics the run unless it is quiet. */
    method FetchAll(p: Suite, server: (string, nat) -> Transfer, m: Manifest, selector: string, retry: u32,
                    quiet: bool) returns (r: RunOutcome)
      modifies this
      ensures Selection(selector).Err? ==> r == Finished(Err(Selection(selector).error)) && State() == old(State())
                                           && announced == old(announced)
      ensures Selection(selector).Ok? ==>
                var (t, s, log) := Pass(p, server, m.artifacts, Selection(selector).value, retry, quiet,
                                        HashPrefixAsWritten, Tally([], false, false), old(State()), old(announced));
                r == Outcome(t) && State() == s && announced == log
    {
      var selection := Selection(selector);
      if selection.Err? {
        return Finished(Err(selection.error));
      }
      var names := selection.value;
      ghost var spec := Pass(p, server, m.artifacts, names, retry, quiet, HashPrefixAsWritten,
                             Tally([], false, false), State(), announced);
      var results: seq<DownloadResult> := [];
      var failed := false;
      for i := 0 to |names|
        invariant spec == Pass(p, server, m.artifacts, names[i..], retry, quiet, HashPrefixAsWritten,
                               Tally(results, failed, false), State(), announced)
      {
        assert names[i..][1..] == names[i + 1..];
        var artifact := Lookup(m.artifacts, names[i]);
        if artifact.None? {
          continue;
        }
        var a := artifact.value;
        if !quiet {
          var prefix := HashPrefixAsWritten(a.hash);
          if prefix.None? {
            return Panicked;
          }
          announced := announced + [prefix.value];
        }
        var fetched := FetchArtifact(p, server, names[i], a, retry);
        if fetched.Ok? {
          results := results + [fetched.value];
        } else {
          failed := true;
        }
      }
      r := Outcome(Tally(results, failed, false));
    }
  }
}
