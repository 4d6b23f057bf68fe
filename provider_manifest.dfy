/** The boot manifest the artifact provider publishes
    (`provider::manifest`): artifact entries and their validation, the
    manifest's ordered validation, its expiry test, and the builder that
    assembles one. */
module ProviderManifest {
  import opened Wrappers
  import opened Numbers
  import opened Strings
  import Hex

  datatype ManifestError =
    | MissingField(field: string)
    | InvalidHash(detail: string)
    | InvalidArtifact(detail: string)
    | MissingArtifact(name: string)
    | InvalidTimestamp(detail: string)
    | Expired(at: string)

  /** The `Display` text of each error. */
  function ErrorText(e: ManifestError): string
  {
    match e
    case MissingField(f) => "Missing required field: " + f
    case InvalidHash(d) => "Invalid hash format: " + d
    case InvalidArtifact(d) => "Invalid artifact: " + d
    case MissingArtifact(n) => "Missing required artifact: " + n
    case InvalidTimestamp(d) => "Invalid timestamp: " + d
    case Expired(t) => "Manifest expired at " + t
  }

  datatype ArtifactInfo = ArtifactInfo(filename: string, sizeBytes: u64, hash: string, downloadUrl: Option<string>)

  datatype Signature = Signature(algorithm: string, keyId: string, signature: string, signedAt: string)

  datatype ProviderInfo = ProviderInfo(peerId: string, addresses: seq<string>)

  datatype BootManifest = BootManifest(
    manifestVersion: u32,
    version: string,
    channel: string,
    arch: string,
    createdAt: string,
    expiresAt: string,
    artifacts: map<string, ArtifactInfo>,
    signatures: seq<Signature>,
    provider: Option<ProviderInfo>)

  const KERNEL := "kernel"
  const FILENAME_EMPTY := "filename cannot be empty"
  const SIZE_ZERO := "size_bytes must be greater than zero"

  function Quoted(s: string): string { "'" + s + "'" }

  /** `ArtifactInfo::validate`: the file name, the size, then the hash's
      shape `algorithm:hexdigest`, reporting the first defect. */
  function ValidateArtifact(a: ArtifactInfo): (r: Result<(), ManifestError>)
    ensures a.filename == "" ==> r == Err(InvalidArtifact(FILENAME_EMPTY))
    ensures a.filename != "" && a.sizeBytes == 0 ==> r == Err(InvalidArtifact(SIZE_ZERO))
    ensures a.filename != "" && a.sizeBytes != 0 && r.Err? ==> r.error.InvalidHash?
  {
    if a.filename == "" then Err(InvalidArtifact(FILENAME_EMPTY))
    else if a.sizeBytes == 0 then Err(InvalidArtifact(SIZE_ZERO))
    else if ':' !in a.hash then Err(InvalidHash("expected 'algorithm:hexdigest', got " + Quoted(a.hash)))
    else
      var parts := Split(a.hash, ':');
      if |parts| != 2 then Err(InvalidHash("expected exactly one ':', got " + Quoted(a.hash)))
      else if parts[0] == "" || parts[1] == "" then
        Err(InvalidHash("algorithm and digest cannot be empty: " + Quoted(a.hash)))
      else if !Hex.AllHex(parts[1]) then Err(InvalidHash("digest must be hexadecimal: " + Quoted(parts[1])))
      else Ok(())
  }

  /** A hash of the accepted shape: a non-empty algorithm name without `:`,
      one `:`, and a non-empty run of hex digits. */
  predicate HashShape(algorithm: string, digest: string) {
    algorithm != "" && ':' !in algorithm && digest != "" && Hex.AllHex(digest)
  }

  /** Every hash of that shape is accepted on a named, non-empty artifact. */
  lemma {:induction false} ValidateArtifactAccepts(a: ArtifactInfo, algorithm: string, digest: string)
    requires a.filename != "" && a.sizeBytes > 0
    requires HashShape(algorithm, digest)
    requires a.hash == algorithm + ":" + digest
    ensures ValidateArtifact(a) == Ok(())
  {
    assert ':' !in digest by {
      forall k | 0 <= k < |digest| ensures digest[k] != ':' {
        assert Hex.IsHexChar(digest[k]);
      }
    }
    SplitTwo(algorithm, digest);
  }

  /** An accepted artifact's hash has that shape. */
  lemma ValidateArtifactShape(a: ArtifactInfo)
    requires ValidateArtifact(a).Ok?
    ensures a.filename != "" && a.sizeBytes > 0
    ensures a.hash == Split(a.hash, ':')[0] + ":" + Split(a.hash, ':')[1]
    ensures HashShape(Split(a.hash, ':')[0], Split(a.hash, ':')[1])
  {
    var parts := Split(a.hash, ':');
    SplitJoin(parts, ':');
    SplitCount(a.hash, ':');
    assert |parts| == 2;
    JoinTwo(parts[0], parts[1]);
  }

  lemma JoinTwo(x: string, y: string)
    ensures Join([x, y], ":") == x + ":" + y
  {
    assert [x, y][1..] == [y];
  }

  lemma {:induction false} SplitTwo(x: string, y: string)
    requires ':' !in x && ':' !in y
    ensures Split(x + ":" + y, ':') == [x, y]
  {
    JoinTwo(x, y);
    SplitJoin([x, y], ':');
  }

  /** `is_valid_iso8601`: a rough shape test, not a parse. */
  predicate IsValidIso8601(s: string)
    ensures IsValidIso8601(s) ==> |s| >= 2
    ensures IsValidIso8601(s) <==> '-' in s && ('T' in s || 't' in s)
  {
    s != "" && '-' in s && ('T' in s || 't' in s)
  }

  /** The examples the source's tests pin. */
  lemma Iso8601Examples()
    ensures IsValidIso8601("2025-01-01T00:00:00Z")
    ensures IsValidIso8601("2025-01-01T00:00:00+00:00")
    ensures !IsValidIso8601("")
    ensures !IsValidIso8601("2025-01-01")
    ensures !IsValidIso8601("invalid")
  {
    assert "2025-01-01T00:00:00Z"[4] == '-' && "2025-01-01T00:00:00Z"[10] == 'T';
    assert "2025-01-01T00:00:00+00:00"[4] == '-' && "2025-01-01T00:00:00+00:00"[10] == 'T';
    assert forall k | 0 <= k < |"2025-01-01"| :: "2025-01-01"[k] != 'T' && "2025-01-01"[k] != 't';
    assert forall k | 0 <= k < |"invalid"| :: "invalid"[k] != '-';
  }

  /** The first artifact, in the map's iteration order `order`, that fails
      its own validation, reported with its name. Names in `order` that
      are not in the map are passed over. */
  function FirstInvalidArtifact(artifacts: map<string, ArtifactInfo>, order: seq<string>): (r: Option<ManifestError>)
    ensures r.None? <==>
              forall k :: 0 <= k < |order| && order[k] in artifacts ==> ValidateArtifact(artifacts[order[k]]).Ok?
    ensures r.Some? ==>
              exists k :: && 0 <= k < |order| && order[k] in artifacts
                          && ValidateArtifact(artifacts[order[k]]).Err?
                          && r.value == InvalidArtifact(order[k] + ": " + ErrorText(ValidateArtifact(artifacts[order[k]]).error))
  {
    if |order| == 0 then None
    else if order[0] in artifacts && ValidateArtifact(artifacts[order[0]]).Err? then
      Some(InvalidArtifact(order[0] + ": " + ErrorText(ValidateArtifact(artifacts[order[0]]).error)))
    else
      var rest := FirstInvalidArtifact(artifacts, order[1..]);
      assert forall k :: 1 <= k < |order| ==> order[k] == order[1..][k - 1];
      rest
  }

  /** `order` lists every artifact name: an iteration order of the map. */
  predicate Enumerates(order: seq<string>, artifacts: map<string, ArtifactInfo>) {
    forall name :: name in artifacts ==> name in order
  }

  /** Every artifact is valid. */
  predicate AllArtifactsValid(artifacts: map<string, ArtifactInfo>) {
    forall name :: name in artifacts ==> ValidateArtifact(artifacts[name]).Ok?
  }

  /** `BootManifest::validate`, with the map's iteration order as `order`:
      the five text fields, the schema version, the kernel entry, each
      artifact, then the two timestamps; the first failure is reported. */
  function Validate(m: BootManifest, order: seq<string>): (r: Result<(), ManifestError>)
    ensures m.version == "" ==> r == Err(MissingField("version"))
    ensures m.version != "" && m.channel == "" ==> r == Err(MissingField("channel"))
    ensures m.version != "" && m.channel != "" && m.arch == "" ==> r == Err(MissingField("arch"))
    ensures m.version != "" && m.channel != "" && m.arch != "" && m.createdAt == "" ==> r == Err(MissingField("created_at"))
    ensures m.version != "" && m.channel != "" && m.arch != "" && m.createdAt != "" && m.expiresAt == "" ==>
              r == Err(MissingField("expires_at"))
    ensures RequiredFieldsPresent(m) && m.manifestVersion != 1 ==>
              r == Err(MissingField("manifest_version must be 1, got " + NatToDecimal(m.manifestVersion)))
    ensures RequiredFieldsPresent(m) && m.manifestVersion == 1 && KERNEL !in m.artifacts ==>
              r == Err(MissingArtifact(KERNEL))
    ensures RequiredFieldsPresent(m) && m.manifestVersion == 1 && KERNEL in m.artifacts ==>
              (FirstInvalidArtifact(m.artifacts, order).Some? ==> r == Err(FirstInvalidArtifact(m.artifacts, order).value))
    ensures RequiredFieldsPresent(m) && m.manifestVersion == 1 && KERNEL in m.artifacts
            && FirstInvalidArtifact(m.artifacts, order).None? && !IsValidIso8601(m.createdAt) ==>
              r == Err(InvalidTimestamp("created_at: " + m.createdAt))
    ensures RequiredFieldsPresent(m) && m.manifestVersion == 1 && KERNEL in m.artifacts
            && FirstInvalidArtifact(m.artifacts, order).None? && IsValidIso8601(m.createdAt) && !IsValidIso8601(m.expiresAt) ==>
              r == Err(InvalidTimestamp("expires_at: " + m.expiresAt))
    ensures r.Ok? ==> RequiredFieldsPresent(m) && m.manifestVersion == 1 && KERNEL in m.artifacts
    ensures r.Ok? <==> ValidManifest(m, order)
  {
    if m.version == "" then Err(MissingField("version"))
    else if m.channel == "" then Err(MissingField("channel"))
    else if m.arch == "" then Err(MissingField("arch"))
    else if m.createdAt == "" then Err(MissingField("created_at"))
    else if m.expiresAt == "" then Err(MissingField("expires_at"))
    else if m.manifestVersion != 1 then Err(MissingField("manifest_version must be 1, got " + NatToDecimal(m.manifestVersion)))
    else if KERNEL !in m.artifacts then Err(MissingArtifact(KERNEL))
    else
      match FirstInvalidArtifact(m.artifacts, order)
      case Some(e) => Err(e)
      case None =>
        if !IsValidIso8601(m.createdAt) then Err(InvalidTimestamp("created_at: " + m.createdAt))
        else if !IsValidIso8601(m.expiresAt) then Err(InvalidTimestamp("expires_at: " + m.expiresAt))
        else Ok(())
  }

  predicate RequiredFieldsPresent(m: BootManifest) {
    m.version != "" && m.channel != "" && m.arch != "" && m.createdAt != "" && m.expiresAt != ""
  }

  /** What a valid manifest is, with no order to the checks. */
  predicate ValidManifest(m: BootManifest, order: seq<string>) {
    && RequiredFieldsPresent(m)
    && m.manifestVersion == 1
    && KERNEL in m.artifacts
    && (forall k :: 0 <= k < |order| && order[k] in m.artifacts ==> ValidateArtifact(m.artifacts[order[k]]).Ok?)
    && IsValidIso8601(m.createdAt)
    && IsValidIso8601(m.expiresAt)
  }

  /** When `order` is an iteration order of the map, validity does not
      depend on it: a manifest is valid exactly when every artifact is. */
  lemma ValidManifestAnyOrder(m: BootManifest, order: seq<string>)
    requires Enumerates(order, m.artifacts)
    ensures Validate(m, order).Ok? <==>
              && RequiredFieldsPresent(m) && m.manifestVersion == 1 && KERNEL in m.artifacts
              && AllArtifactsValid(m.artifacts)
              && IsValidIso8601(m.createdAt) && IsValidIso8601(m.expiresAt)
  {
    if AllArtifactsValid(m.artifacts) {
      assert forall k :: 0 <= k < |order| && order[k] in m.artifacts ==> ValidateArtifact(m.artifacts[order[k]]).Ok?;
    }
    if Validate(m, order).Ok? {
      forall name | name in m.artifacts ensures ValidateArtifact(m.artifacts[name]).Ok? {
        var k :| 0 <= k < |order| && order[k] == name;
      }
    }
  }

  /** Signatures play no part in validation. */
  lemma ValidateIgnoresSignatures(m: BootManifest, order: seq<string>, sigs: seq<Signature>)
    ensures Validate(m.(signatures := sigs), order) == Validate(m, order)
  {
  }

  /** `is_expired`, with the clock's RFC 3339 text as `now`: the expiry is
      compared with it as a string. */
  predicate IsExpired(m: BootManifest, now: string)
    ensures IsExpired(m, now) ==> m.expiresAt != now
    ensures !IsExpired(m, now) ==> m.expiresAt == now || LexLess(now, m.expiresAt)
  {
    LexLessIrreflexive(now);
    if m.expiresAt != now then LexLessTotal(m.expiresAt, now); LexLess(m.expiresAt, now)
    else LexLess(m.expiresAt, now)
  }

  /** Once expired, a manifest stays expired as the clock text grows. */
  lemma ExpiredStaysExpired(m: BootManifest, now: string, later: string)
    requires IsExpired(m, now)
    requires now == later || LexLess(now, later)
    ensures IsExpired(m, later)
  {
    if now != later {
      LexLessTransitive(m.expiresAt, now, later);
    }
  }

  /** A manifest is never expired at its own expiry text. */
  lemma NotExpiredAtExpiry(m: BootManifest)
    ensures !IsExpired(m, m.expiresAt)
  {
    LexLessIrreflexive(m.expiresAt);
  }

  /** The builder's fields, as one value. */
  datatype BuilderState = BuilderState(
    channel: string,
    arch: string,
    version: Option<string>,
    createdAt: Option<string>,
    expiresAt: Option<string>,
    artifacts: map<string, ArtifactInfo>,
    signatures: seq<Signature>,
    provider: Option<ProviderInfo>)

  /** The manifest `build` assembles, with the clock's texts for the
      timestamps the builder was not given. */
  function Assemble(s: BuilderState, version: string, now: string, inThirtyDays: string): BootManifest
  {
    BootManifest(1, version, s.channel, s.arch,
                 if s.createdAt.Some? then s.createdAt.value else now,
                 if s.expiresAt.Some? then s.expiresAt.value else inThirtyDays,
                 s.artifacts, s.signatures, s.provider)
  }

  /** `build`: a missing version is an error whatever else was set; the
      assembled manifest is returned only if it validates. */
  function Build(s: BuilderState, now: string, inThirtyDays: string, order: seq<string>): (r: Result<BootManifest, ManifestError>)
    ensures s.version.None? ==> r == Err(MissingField("version"))
    ensures r.Ok? ==>
              && r.value.manifestVersion == 1
              && r.value.channel == s.channel && r.value.arch == s.arch
              && Some(r.value.version) == s.version
              && r.value.artifacts == s.artifacts && r.value.signatures == s.signatures
              && r.value.provider == s.provider
              && Validate(r.value, order) == Ok(())
    ensures s.version.Some? ==>
              (r.Ok? <==> Validate(Assemble(s, s.version.value, now, inThirtyDays), order).Ok?)
    ensures s.version.Some? && r.Err? ==> r.error == Validate(Assemble(s, s.version.value, now, inThirtyDays), order).error
  {
    match s.version
    case None => Err(MissingField("version"))
    case Some(v) =>
      var m := Assemble(s, v, now, inThirtyDays);
      match Validate(m, order)
      case Err(e) => Err(e)
      case Ok(_) => Ok(m)
  }

  /** `ManifestBuilder`: each setter updates the builder in place. */
  class ManifestBuilder {
    var channel: string
    var arch: string
    var version: Option<string>
    var createdAt: Option<string>
    var expiresAt: Option<string>
    var artifacts: map<string, ArtifactInfo>
    var signatures: seq<Signature>
    var provider: Option<ProviderInfo>

    function State(): BuilderState
      reads this
    {
      BuilderState(channel, arch, version, createdAt, expiresAt, artifacts, signatures, provider)
    }

    constructor (channel: string, arch: string)
      ensures State() == BuilderState(channel, arch, None, None, None, map[], [], None)
    {
      this.channel := channel;
      this.arch := arch;
      version := None;
      createdAt := None;
      expiresAt := None;
      artifacts := map[];
      signatures := [];
      provider := None;
    }

    method SetVersion(v: string)
      modifies this
      ensures State() == old(State()).(version := Some(v))
    {
      version := Some(v);
    }

    method SetCreatedAt(t: string)
      modifies this
      ensures State() == old(State()).(createdAt := Some(t))
    {
      createdAt := Some(t);
    }

    method SetExpiresAt(t: string)
      modifies this
      ensures State() == old(State()).(expiresAt := Some(t))
    {
      expiresAt := Some(t);
    }

    /** `artifact`: a repeated name replaces the earlier entry. */
    method AddArtifact(name: string, info: ArtifactInfo)
      modifies this
      ensures State() == old(State()).(artifacts := old(artifacts)[name := info])
    {
      artifacts := artifacts[name := info];
    }

    /** `signature`: appended, in call order. */
    method AddSignature(sig: Signature)
      modifies this
      ensures State() == old(State()).(signatures := old(signatures) + [sig])
    {
      signatures := signatures + [sig];
    }

    method SetProvider(p: ProviderInfo)
      modifies this
      ensures State() == old(State()).(provider := Some(p))
    {
      provider := Some(p);
    }

    /** `build`, which consumes the builder. */
    method Finish(now: string, inThirtyDays: string, order: seq<string>) returns (r: Result<BootManifest, ManifestError>)
      ensures r == Build(State(), now, inThirtyDays, order)
    {
      if version.None? {
        return Err(MissingField("version"));
      }
      var m := BootManifest(1, version.value, channel, arch,
                            if createdAt.Some? then createdAt.value else now,
                            if expiresAt.Some? then expiresAt.value else inThirtyDays,
                            artifacts, signatures, provider);
      var valid := Validate(m, order);
      if valid.Err? {
        return Err(valid.error);
      }
      return Ok(m);
    }
  }

  /** A builder given a version and a valid kernel entry and nothing else
      builds, whatever the iteration order, when the clock's texts look
      like timestamps. */
  lemma BuildMinimal(channel: string, arch: string, version: string, kernel: ArtifactInfo,
                     now: string, inThirtyDays: string, order: seq<string>)
    requires channel != "" && arch != "" && version != ""
    requires ValidateArtifact(kernel).Ok?
    requires IsValidIso8601(now) && IsValidIso8601(inThirtyDays)
    ensures Build(BuilderState(channel, arch, Some(version), None, None, map[KERNEL := kernel], [], None),
                  now, inThirtyDays, order).Ok?
  {
  }

  /** Without a kernel entry the builder reports the missing artifact. */
  lemma BuildWithoutKernel(s: BuilderState, now: string, inThirtyDays: string, order: seq<string>)
    requires s.version.Some? && s.version.value != "" && s.channel != "" && s.arch != ""
    requires s.createdAt.None? && s.expiresAt.None? && now != "" && inThirtyDays != ""
    requires KERNEL !in s.artifacts
    ensures Build(s, now, inThirtyDays, order) == Err(MissingArtifact(KERNEL))
  {
  }
}
