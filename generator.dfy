/** Building a boot manifest from the artifact store
    (`provider::generator`): every file of the channel's architecture
    directory becomes an artifact entry under its canonical name, with its
    size, hash and download path, and the manifest is signed when the
    generator holds a key. */
module Generator {
  import opened Wrappers
  import opened Numbers
  import opened Strings
  import opened Primitives
  import opened FileSystems
  import opened ProviderManifest
  import Artifacts
  import Digests
  import ManifestSigning
  import ProviderConfig

  const BUILD_FAILED := "Failed to build manifest"
  const SIGN_FAILED := "Failed to sign manifest"

  function ListFailed(channel: string, arch: string): string {
    "Failed to list artifacts for " + channel + "/" + arch
  }

  function NoArtifacts(channel: string, arch: string): string {
    "No artifacts found for channel " + channel + " arch " + arch
  }

  /** `normalize_artifact_name`: kernel, initramfs and root file system
      images under their canonical names; every other file (device trees
      included) under its own. */
  function NormalizeArtifactName(filename: string): (n: string)
    ensures n == "kernel" || n == "initramfs" || n == "rootfs" || n == filename
    ensures StartsWith(filename, "vmlinuz") || StartsWith(filename, "bzImage") ==> n == "kernel"
  {
    if StartsWith(filename, "vmlinuz") || StartsWith(filename, "bzImage") || filename == "kernel" then "kernel"
    else if StartsWith(filename, "initramfs") || StartsWith(filename, "initrd") then "initramfs"
    else if StartsWith(filename, "rootfs") then "rootfs"
    else if StartsWith(filename, "dtb-") then filename
    else filename
  }

  /** Normalizing twice is normalizing once. */
  lemma NormalizeIdempotent(filename: string)
    ensures NormalizeArtifactName(NormalizeArtifactName(filename)) == NormalizeArtifactName(filename)
  {
    var n := NormalizeArtifactName(filename);
    if n == "initramfs" {
      InitramfsName(n, "initramfs");
    } else if n == "rootfs" {
      RootfsName(n);
    }
  }

  /** A text does not start with a prefix whose first character it does
      not share. */
  lemma FirstCharDiffers(s: string, prefix: string)
    requires |s| > 0 && |prefix| > 0 && s[0] != prefix[0]
    ensures !StartsWith(s, prefix)
  {
  }

  /** A name that starts with none of the image prefixes keeps its name. */
  lemma KeepsName(filename: string)
    requires |filename| > 0 && filename != "kernel"
    requires filename[0] !in {'v', 'b', 'i', 'r'}
    ensures NormalizeArtifactName(filename) == filename
  {
    FirstCharDiffers(filename, "vmlinuz");
    FirstCharDiffers(filename, "bzImage");
    FirstCharDiffers(filename, "initramfs");
    FirstCharDiffers(filename, "initrd");
    FirstCharDiffers(filename, "rootfs");
  }

  /** A name starting with `initramfs` or `initrd` is an initramfs. */
  lemma InitramfsName(filename: string, prefix: string)
    requires prefix == "initramfs" || prefix == "initrd"
    requires |filename| >= |prefix| && filename[..|prefix|] == prefix
    ensures NormalizeArtifactName(filename) == "initramfs"
  {
    assert filename[0] == filename[..|prefix|][0] == 'i';
    FirstCharDiffers(filename, "vmlinuz");
    FirstCharDiffers(filename, "bzImage");
  }

  /** A name starting with `rootfs` is a root file system. */
  lemma RootfsName(filename: string)
    requires |filename| >= 6 && filename[..6] == "rootfs"
    ensures NormalizeArtifactName(filename) == "rootfs"
  {
    assert filename[0] == filename[..6][0] == 'r';
    FirstCharDiffers(filename, "vmlinuz");
    FirstCharDiffers(filename, "bzImage");
    FirstCharDiffers(filename, "initramfs");
    FirstCharDiffers(filename, "initrd");
  }

  /** Every alternative file name the store searches for a kernel, an
      initramfs or a root file system is listed back under the canonical
      name it was searched for. */
  lemma AlternativesNormalizeBack(name: string)
    requires name == "kernel" || name == "initramfs" || name == "rootfs"
    ensures NormalizeArtifactName(name) == name
    ensures forall k :: 0 <= k < |Artifacts.ArtifactAlternatives(name)| ==>
              NormalizeArtifactName(Artifacts.ArtifactAlternatives(name)[k]) == name
  {
    if name == "kernel" {
      assert "vmlinuz-arm64"[..7] == "vmlinuz";
      assert StartsWith("vmlinuz-arm64", "vmlinuz");
    } else if name == "initramfs" {
      InitramfsName("initramfs", "initramfs");
      assert "initramfs.img"[..9] == "initramfs";
      InitramfsName("initramfs.img", "initramfs");
      InitramfsName("initrd", "initrd");
      assert "initramfs-arm64.img"[..9] == "initramfs";
      InitramfsName("initramfs-arm64.img", "initramfs");
    } else {
      RootfsName("rootfs");
      assert "rootfs.img"[..6] == "rootfs";
      RootfsName("rootfs.img");
      assert "rootfs.squashfs"[..6] == "rootfs";
      RootfsName("rootfs.squashfs");
    }
  }

  /** The names of the source's own example: device trees and unknown
      files keep their names. */
  lemma NormalizeKeepsOtherNames()
    ensures NormalizeArtifactName("dtb-rpi4") == "dtb-rpi4"
    ensures NormalizeArtifactName("custom-file") == "custom-file"
  {
    KeepsName("dtb-rpi4");
    KeepsName("custom-file");
  }

  /** The path under which the server's artifact route serves a file. */
  function DownloadUrl(channel: string, arch: string, name: string): (url: string)
    ensures StartsWith(url, "/" + channel + "/") && EndsWith(url, "/" + name)
  {
    "/" + channel + "/" + arch + "/" + name
  }

  /** The manifest entry for one listed file. */
  function EntryFor(channel: string, arch: string, meta: Artifacts.ArtifactMeta): ArtifactInfo {
    ArtifactInfo(meta.name, meta.sizeBytes, meta.hash, Some(DownloadUrl(channel, arch, meta.name)))
  }

  /** The name a listed file is entered under. */
  function CanonicalName(meta: Artifacts.ArtifactMeta): string {
    NormalizeArtifactName(meta.name)
  }

  /** The position of the last listed file with the given canonical name,
      or -1. */
  function LastWith(metas: seq<Artifacts.ArtifactMeta>, key: string): (i: int)
    ensures -1 <= i < |metas|
    ensures i >= 0 ==> CanonicalName(metas[i]) == key
    ensures i >= 0 ==> forall j :: i < j < |metas| ==> CanonicalName(metas[j]) != key
    ensures i == -1 <==> forall j :: 0 <= j < |metas| ==> CanonicalName(metas[j]) != key
  {
    if |metas| == 0 then -1
    else if CanonicalName(metas[|metas| - 1]) == key then |metas| - 1
    else
      var init := metas[..|metas| - 1];
      assert forall j :: 0 <= j < |init| ==> init[j] == metas[j];
      LastWith(init, key)
  }

  /** The artifact map after adding the listed files in order: every
      canonical name of a listed file is a key, and its entry is made from
      the last file with that name. */
  function EntriesOf(channel: string, arch: string, metas: seq<Artifacts.ArtifactMeta>): (entries: map<string, ArtifactInfo>)
    ensures forall key :: key in entries <==> LastWith(metas, key) >= 0
    ensures forall key :: key in entries ==> entries[key] == EntryFor(channel, arch, metas[LastWith(metas, key)])
  {
    if |metas| == 0 then map[]
    else
      var init := metas[..|metas| - 1];
      var last := metas[|metas| - 1];
      var before := EntriesOf(channel, arch, init);
      assert forall j :: 0 <= j < |init| ==> init[j] == metas[j];
      before[CanonicalName(last) := EntryFor(channel, arch, last)]
  }

  /** Every listed file has an entry under its canonical name. */
  lemma EntriesCoverListing(channel: string, arch: string, metas: seq<Artifacts.ArtifactMeta>)
    ensures forall k :: 0 <= k < |metas| ==> CanonicalName(metas[k]) in EntriesOf(channel, arch, metas)
  {
    forall k | 0 <= k < |metas|
      ensures CanonicalName(metas[k]) in EntriesOf(channel, arch, metas)
    {
      assert LastWith(metas, CanonicalName(metas[k])) != -1;
    }
  }

  /** Every entry is downloadable from `/channel/arch/filename`. */
  lemma EntriesDownloadable(channel: string, arch: string, metas: seq<Artifacts.ArtifactMeta>)
    ensures forall key :: key in EntriesOf(channel, arch, metas) ==>
              EntriesOf(channel, arch, metas)[key].downloadUrl ==
              Some(DownloadUrl(channel, arch, EntriesOf(channel, arch, metas)[key].filename))
  {
  }

  /** What the builder holds after the loop. */
  function StateFor(channel: string, arch: string, version: string, metas: seq<Artifacts.ArtifactMeta>): BuilderState {
    BuilderState(channel, arch, Some(version), None, None, EntriesOf(channel, arch, metas), [], None)
  }

  /** `generate` as a value: the result and the hash cache afterwards. */
  function Generated(p: Suite, fs: FileSystem, cache: map<Artifacts.CacheKey, string>, base: Path,
                     channel: string, arch: string, version: string,
                     now: string, inThirtyDays: string, order: seq<string>)
    : (r: (Result<BootManifest, string>, map<Artifacts.CacheKey, string>))
    ensures r.1 == Artifacts.Listing(p, fs, cache, base, channel, arch).1
    ensures Artifacts.Listing(p, fs, cache, base, channel, arch).0.Err? ==> r.0 == Err(ListFailed(channel, arch))
    ensures Artifacts.Listing(p, fs, cache, base, channel, arch).0 == Ok([]) ==> r.0 == Err(NoArtifacts(channel, arch))
    ensures r.0.Ok? ==>
              var metas := Artifacts.Listing(p, fs, cache, base, channel, arch).0.value;
              && |metas| > 0
              && r.0.value.channel == channel && r.0.value.arch == arch && r.0.value.version == version
              && r.0.value.manifestVersion == 1
              && r.0.value.artifacts == EntriesOf(channel, arch, metas)
              && r.0.value.signatures == []
              && Validate(r.0.value, order) == Ok(())
    ensures var listing := Artifacts.Listing(p, fs, cache, base, channel, arch).0;
            listing.Ok? && |listing.value| > 0 ==>
              var built := Build(StateFor(channel, arch, version, listing.value), now, inThirtyDays, order);
              && (built.Ok? ==> r.0 == Ok(built.value))
              && (built.Err? ==> r.0 == Err(BUILD_FAILED))
  {
    var (listing, after) := Artifacts.Listing(p, fs, cache, base, channel, arch);
    if listing.Err? then (Err(ListFailed(channel, arch)), after)
    else if |listing.value| == 0 then (Err(NoArtifacts(channel, arch)), after)
    else
      match Build(StateFor(channel, arch, version, listing.value), now, inThirtyDays, order)
      case Err(_) => (Err(BUILD_FAILED), after)
      case Ok(m) => (Ok(m), after)
  }

  /** A file's tagged digest is a hash the manifest accepts, for any
      named, non-empty file. */
  lemma TaggedDigestAccepted(p: Suite, data: Bytes, filename: string, size: u64, url: Option<string>)
    requires Sound(p)
    requires filename != "" && size > 0
    ensures ValidateArtifact(ArtifactInfo(filename, size, Digests.TaggedDigest(p, data), url)) == Ok(())
  {
    var h := Digests.TaggedDigest(p, data);
    var digest := h[|Digests.SHA256_PREFIX|..];
    Digests.TaggedDigestLength(p, data);
    assert Hex.AllHex(digest) by {
      forall i | 0 <= i < |digest| ensures Hex.IsHexChar(digest[i]) {
        assert Hex.IsLowerHexChar(digest[i]);
      }
    }
    assert h == h[..|Digests.SHA256_PREFIX|] + digest;
    assert h == "sha256" + ":" + digest;
    ValidateArtifactAccepts(ArtifactInfo(filename, size, h, url), "sha256", digest);
  }

  /** The source's generator test: a store holding `kernel` and
      `initramfs` under `stable/arm64`, with nothing cached, generates a
      manifest for `stable`/`arm64` of schema version 1 with both entries,
      whatever the map's iteration order, once a version and well-formed
      timestamps are given. */
  lemma TwoFileGenerated(p: Suite, base: Path, kernel: Bytes, initramfs: Bytes, version: string,
                         now: string, inThirtyDays: string, order: seq<string>)
    requires Sound(p)
    requires 0 < |kernel| < TWO_64 && 0 < |initramfs| < TWO_64
    requires version != "" && IsValidIso8601(now) && IsValidIso8601(inThirtyDays)
    ensures var r := Generated(p, Artifacts.TwoFileStore(base, kernel, initramfs), map[], base,
                               "stable", "arm64", version, now, inThirtyDays, order).0;
            && r.Ok? && r.value.channel == "stable" && r.value.arch == "arm64" && r.value.manifestVersion == 1
            && "kernel" in r.value.artifacts && "initramfs" in r.value.artifacts
  {
    var fs := Artifacts.TwoFileStore(base, kernel, initramfs);
    Artifacts.TwoFileListing(p, base, kernel, initramfs);
    var metas := Artifacts.Listing(p, fs, map[], base, "stable", "arm64").0.value;
    TwoFileEntries(p, kernel, initramfs, metas);
    BuildsWhenValid(StateFor("stable", "arm64", version, metas), now, inThirtyDays, order);
  }

  /** A builder holding a version, a kernel and only valid entries builds,
      whatever the iteration order, when its timestamps are well formed. */
  lemma BuildsWhenValid(s: BuilderState, now: string, inThirtyDays: string, order: seq<string>)
    requires s.version.Some? && s.version.value != "" && s.channel != "" && s.arch != ""
    requires s.createdAt.None? && s.expiresAt.None? && IsValidIso8601(now) && IsValidIso8601(inThirtyDays)
    requires KERNEL in s.artifacts && AllArtifactsValid(s.artifacts)
    ensures Build(s, now, inThirtyDays, order).Ok?
  {
    var m := Assemble(s, s.version.value, now, inThirtyDays);
    assert forall k :: 0 <= k < |order| && order[k] in m.artifacts ==> ValidateArtifact(m.artifacts[order[k]]).Ok?;
    assert ValidManifest(m, order);
  }

  /** The entries the two listed files give: both canonical names, each
      entry valid. */
  lemma TwoFileEntries(p: Suite, kernel: Bytes, initramfs: Bytes, metas: seq<Artifacts.ArtifactMeta>)
    requires Sound(p)
    requires |metas| == 2 && metas[0].name == "kernel" && metas[1].name == "initramfs"
    requires metas[0].sizeBytes > 0 && metas[1].sizeBytes > 0
    requires metas[0].hash == Digests.TaggedDigest(p, kernel) && metas[1].hash == Digests.TaggedDigest(p, initramfs)
    ensures var entries := EntriesOf("stable", "arm64", metas);
            "kernel" in entries && "initramfs" in entries && AllArtifactsValid(entries)
  {
    InitramfsName("initramfs", "initramfs");
    var entries := EntriesOf("stable", "arm64", metas);
    EntriesCoverListing("stable", "arm64", metas);
    assert CanonicalName(metas[0]) == "kernel" && CanonicalName(metas[1]) == "initramfs";
    TaggedDigestAccepted(p, kernel, "kernel", metas[0].sizeBytes, Some(DownloadUrl("stable", "arm64", "kernel")));
    TaggedDigestAccepted(p, initramfs, "initramfs", metas[1].sizeBytes, Some(DownloadUrl("stable", "arm64", "initramfs")));
    forall key | key in entries ensures ValidateArtifact(entries[key]).Ok? {
      var k := LastWith(metas, key);
      assert k == 0 || k == 1;
    }
  }

  /** A store with no directory for the architecture under any of its
      names gives no manifest. */
  lemma NothingToServe(p: Suite, fs: FileSystem, cache: map<Artifacts.CacheKey, string>, base: Path,
                       channel: string, arch: string, version: string,
                       now: string, inThirtyDays: string, order: seq<string>)
    requires forall v :: v in ProviderConfig.ArchAliases(arch) ==> !fs.Exists(base + [channel, v])
    ensures Generated(p, fs, cache, base, channel, arch, version, now, inThirtyDays, order).0 ==
            Err(NoArtifacts(channel, arch))
  {
    var variants := ProviderConfig.ArchAliases(arch);
    assert forall k :: 0 <= k < |variants| ==> variants[k] in variants;
    assert Artifacts.FirstExistingVariant(fs, base, channel, variants).None?;
  }

  /** `ManifestGenerator`. */
  class ManifestGenerator {
    const store: Artifacts.ArtifactStore
    const signingKey: Option<Bytes>
    var defaultVersion: string

    /** `new`, with the crate's version text as a parameter. */
    constructor (store: Artifacts.ArtifactStore, signingKey: Option<Bytes>, crateVersion: string)
      ensures this.store == store && this.signingKey == signingKey && defaultVersion == crateVersion
    {
      this.store := store;
      this.signingKey := signingKey;
      defaultVersion := crateVersion;
    }

    /** `with_version`. */
    method WithVersion(version: string)
      modifies this
      ensures defaultVersion == version
    {
      defaultVersion := version;
    }

    /** `generate`: list the store, then feed each file to a builder. */
    method Generate(p: Suite, fs: FileSystem, channel: string, arch: string,
                    now: string, inThirtyDays: string, order: seq<string>) returns (r: Result<BootManifest, string>)
      modifies store
      ensures (r, store.hashCache) ==
              Generated(p, fs, old(store.hashCache), store.baseDir, channel, arch, defaultVersion, now, inThirtyDays, order)
    {
      ghost var g := Generated(p, fs, store.hashCache, store.baseDir, channel, arch, defaultVersion, now, inThirtyDays, order);
      var listing := store.ListArtifacts(p, fs, channel, arch);
      if listing.Err? {
        return Err(ListFailed(channel, arch));
      }
      var metas := listing.value;
      if |metas| == 0 {
        return Err(NoArtifacts(channel, arch));
      }
      assert g.1 == store.hashCache;
      var built := BuildFromListing(channel, arch, defaultVersion, metas, now, inThirtyDays, order);
      if built.Err? {
        assert g.0 == Err(BUILD_FAILED);
        return Err(BUILD_FAILED);
      }
      assert g.0 == Ok(built.value);
      return Ok(built.value);
    }

    /** `generate_signed`, with the signing clock's text as `signedAt`. */
    method GenerateSigned(p: Suite, ser: BootManifest -> Bytes, fs: FileSystem, channel: string, arch: string,
                          now: string, inThirtyDays: string, order: seq<string>, signedAt: string)
      returns (r: Result<BootManifest, string>)
      modifies store
      ensures var g := Generated(p, fs, old(store.hashCache), store.baseDir, channel, arch, defaultVersion,
                                 now, inThirtyDays, order);
              && store.hashCache == g.1
              && (g.0.Err? ==> r == g.0)
              && (g.0.Ok? && signingKey.None? ==> r == g.0)
              && (g.0.Ok? && signingKey.Some? ==>
                    r == ManifestSigning.SignManifest(p, ser, g.0.value, signingKey.value, signedAt))
    {
      var manifest := Generate(p, fs, channel, arch, now, inThirtyDays, order);
      if manifest.Err? {
        return manifest;
      }
      if signingKey.Some? {
        var signed := ManifestSigning.SignManifest(p, ser, manifest.value, signingKey.value, signedAt);
        if signed.Err? {
          return Err(SIGN_FAILED);
        }
        return signed;
      }
      return manifest;
    }
  }

  /** The loop of `generate`: a builder with the default version is given
      each listed file, named by `normalize_artifact_name` and pointing at
      its download URL, and then finished. */
  method BuildFromListing(channel: string, arch: string, version: string, metas: seq<Artifacts.ArtifactMeta>,
                          now: string, inThirtyDays: string, order: seq<string>)
    returns (built: Result<BootManifest, ManifestError>)
    ensures built == Build(StateFor(channel, arch, version, metas), now, inThirtyDays, order)
  {
    var builder := new ManifestBuilder(channel, arch);
    builder.SetVersion(version);
    var i := 0;
    while i < |metas|
      invariant 0 <= i <= |metas|
      invariant builder.State() == StateFor(channel, arch, version, metas[..i])
    {
      var meta := metas[i];
      var info := ArtifactInfo(meta.name, meta.sizeBytes, meta.hash, Some(DownloadUrl(channel, arch, meta.name)));
      builder.AddArtifact(NormalizeArtifactName(meta.name), info);
      assert metas[..i + 1][..i] == metas[..i];
      i := i + 1;
    }
    assert metas[..i] == metas;
    built := builder.Finish(now, inThirtyDays, order);
  }

  /** A generated and signed manifest carries exactly one signature, an
      Ed25519 one that verifies under the generator's key. */
  lemma GeneratedSignedVerifies(p: Suite, ser: BootManifest -> Bytes, m: BootManifest, sk: Bytes, signedAt: string,
                                fs: FileSystem, cache: map<Artifacts.CacheKey, string>, base: Path,
                                channel: string, arch: string, version: string,
                                now: string, inThirtyDays: string, order: seq<string>)
    requires Sound(p)
    requires Generated(p, fs, cache, base, channel, arch, version, now, inThirtyDays, order).0 == Ok(m)
    ensures var s := ManifestSigning.SignManifest(p, ser, m, sk, signedAt).value;
            && |s.signatures| == 1 && s.signatures[0].algorithm == ManifestSigning.ED25519
            && ManifestSigning.VerifyManifestSignature(p, ser, s, p.publicKey(sk)) == Ok(true)
  {
    ManifestSigning.SignThenVerify(p, ser, m, sk, signedAt);
  }
}
