/** The provider's artifact store (`provider::artifacts`): names are
    checked against path traversal, an artifact is looked up under each
    name of its architecture and under its alternative file names, a
    directory is listed with content hashes, and hashes are cached by
    channel, architecture and name. */
module Artifacts {
  import opened Wrappers
  import opened Numbers
  import opened Strings
  import opened Primitives
  import opened FileSystems
  import Digests
  import ProviderConfig

  const OPEN_FAILED := "Failed to open file for hashing"
  /** `read_dir` on a path that is not a directory; the system's own
      message is not modelled. */
  const READ_DIR_FAILED := "Not a directory"

  datatype ArtifactMeta = ArtifactMeta(name: string, path: Path, sizeBytes: u64, hash: string)

  /** (channel, architecture, name) */
  type CacheKey = (string, string, string)

  /** `is_valid_name`: one path component that cannot climb out of its
      directory. */
  predicate IsValidName(name: string) {
    name != "" && '/' !in name && '\\' !in name && !ContainsStr(name, "..") && name != "."
  }

  /** A valid name is neither `.` nor `..` and holds no separator. */
  lemma ValidNameIsPlainComponent(name: string)
    requires IsValidName(name)
    ensures name != "." && name != ".." && '/' !in name && '\\' !in name
  {
    if name == ".." {
      assert OccursAt(name, "..", 0);
    }
  }

  /** The names of the source's traversal test are refused. */
  lemma TraversalNamesRefused()
    ensures !IsValidName("../etc")
    ensures !IsValidName("../../../etc/passwd")
  {
    assert OccursAt("../etc", "..", 0);
    assert OccursAt("../../../etc/passwd", "..", 0);
  }

  /** `artifact_alternatives`: other file names a kernel, an initramfs or a
      root file system may be stored under. */
  function ArtifactAlternatives(name: string): (alts: seq<string>)
    ensures name != "kernel" && name != "initramfs" && name != "rootfs" ==> alts == []
  {
    if name == "kernel" then ["vmlinuz", "vmlinuz-arm64", "bzImage"]
    else if name == "initramfs" then ["initramfs.img", "initrd", "initramfs-arm64.img"]
    else if name == "rootfs" then ["rootfs.img", "rootfs.squashfs"]
    else []
  }

  /** The paths tried under one architecture directory: the exact name,
      then the alternatives in order. */
  function VariantCandidates(base: Path, channel: string, variant: string, name: string): (c: seq<Path>)
    ensures |c| == 1 + |ArtifactAlternatives(name)|
    ensures c[0] == base + [channel, variant, name]
    ensures forall k :: 1 <= k < |c| ==> c[k] == base + [channel, variant, ArtifactAlternatives(name)[k - 1]]
  {
    var alts := ArtifactAlternatives(name);
    [base + [channel, variant, name]] + seq(|alts|, k requires 0 <= k < |alts| => base + [channel, variant, alts[k]])
  }

  /** The whole search order: the candidates of each architecture name in
      turn. */
  function SearchOrder(base: Path, channel: string, variants: seq<string>, name: string): seq<Path>
  {
    if |variants| == 0 then []
    else SearchOrder(base, channel, variants[..|variants| - 1], name) + VariantCandidates(base, channel, variants[|variants| - 1], name)
  }

  /** The first candidate that is an existing file. */
  function FirstFile(fs: FileSystem, cands: seq<Path>): (r: Option<Path>)
    ensures r.None? <==> forall k :: 0 <= k < |cands| ==> !fs.IsFile(cands[k])
    ensures r.Some? ==> fs.IsFile(r.value)
    ensures r.Some? ==> exists k :: 0 <= k < |cands| && cands[k] == r.value && forall j :: 0 <= j < k ==> !fs.IsFile(cands[j])
  {
    if |cands| == 0 then None
    else if fs.IsFile(cands[0]) then Some(cands[0])
    else
      var rest := FirstFile(fs, cands[1..]);
      assert forall k :: 1 <= k < |cands| ==> cands[k] == cands[1..][k - 1];
      if rest.Some? then
        var k :| 0 <= k < |cands[1..]| && cands[1..][k] == rest.value && forall j :: 0 <= j < k ==> !fs.IsFile(cands[1..][j]);
        assert cands[k + 1] == rest.value && forall j :: 0 <= j < k + 1 ==> !fs.IsFile(cands[j]);
        rest
      else rest
  }

  lemma {:induction false} FirstFileAppend(fs: FileSystem, a: seq<Path>, b: seq<Path>)
    ensures FirstFile(fs, a + b) == if FirstFile(fs, a).Some? then FirstFile(fs, a) else FirstFile(fs, b)
  {
    if |a| > 0 {
      assert (a + b)[0] == a[0];
      assert (a + b)[1..] == a[1..] + b;
      FirstFileAppend(fs, a[1..], b);
    } else {
      assert a + b == b;
    }
  }

  lemma {:induction false} SearchOrderAppend(base: Path, channel: string, u: seq<string>, v: seq<string>, name: string)
    ensures SearchOrder(base, channel, u + v, name) == SearchOrder(base, channel, u, name) + SearchOrder(base, channel, v, name)
    decreases |v|
  {
    if |v| == 0 {
      assert u + v == u;
    } else {
      var w := v[..|v| - 1];
      assert (u + v)[..|u + v| - 1] == u + w;
      assert (u + v)[|u + v| - 1] == v[|v| - 1];
      SearchOrderAppend(base, channel, u, w, name);
    }
  }

  /** `get_artifact_path` as a value: nothing for an invalid component,
      otherwise the first existing file in the search order. */
  function ArtifactPath(fs: FileSystem, base: Path, channel: string, arch: string, name: string): (r: Option<Path>)
    ensures !IsValidName(channel) || !IsValidName(arch) || !IsValidName(name) ==> r.None?
    ensures r.Some? ==> fs.IsFile(r.value)
  {
    if !IsValidName(channel) || !IsValidName(arch) || !IsValidName(name) then None
    else FirstFile(fs, SearchOrder(base, channel, ProviderConfig.ArchAliases(arch), name))
  }

  /** The file under the exact name and the requested architecture wins
      over every alias and alternative. */
  lemma ExactNameFirst(fs: FileSystem, base: Path, channel: string, arch: string, name: string)
    requires IsValidName(channel) && IsValidName(arch) && IsValidName(name)
    requires fs.IsFile(base + [channel, arch, name])
    ensures ArtifactPath(fs, base, channel, arch, name) == Some(base + [channel, arch, name])
  {
    var variants := ProviderConfig.ArchAliases(arch);
    SearchOrderAppend(base, channel, [arch], variants[1..], name);
    assert [arch] + variants[1..] == variants;
    assert SearchOrder(base, channel, [arch], name) == VariantCandidates(base, channel, arch, name);
    FirstFileAppend(fs, VariantCandidates(base, channel, arch, name), SearchOrder(base, channel, variants[1..], name));
  }

  /** Every path the search can return is three components below the
      store's directory: channel, an architecture name, and the name or
      one of its alternatives. */
  lemma {:induction false} SearchOrderInside(base: Path, channel: string, variants: seq<string>, name: string)
    ensures forall q :: q in SearchOrder(base, channel, variants, name) ==>
              |q| == |base| + 3 && q[..|base|] == base && q[|base|] == channel
              && q[|base| + 1] in variants
              && (q[|base| + 2] == name || q[|base| + 2] in ArtifactAlternatives(name))
    decreases |variants|
  {
    if |variants| > 0 {
      var init := variants[..|variants| - 1];
      SearchOrderInside(base, channel, init, name);
      var v := variants[|variants| - 1];
      forall q | q in VariantCandidates(base, channel, v, name)
        ensures |q| == |base| + 3 && q[..|base|] == base && q[|base|] == channel
        ensures q[|base| + 1] == v
        ensures q[|base| + 2] == name || q[|base| + 2] in ArtifactAlternatives(name)
      {
        var c := VariantCandidates(base, channel, v, name);
        var k :| 0 <= k < |c| && c[k] == q;
        if k > 0 {
          assert q == base + [channel, v, ArtifactAlternatives(name)[k - 1]];
        }
      }
      forall q | q in SearchOrder(base, channel, init, name)
        ensures q[|base| + 1] in variants
      {
        assert q[|base| + 1] in init;
      }
    }
  }

  /** Whatever the names, a found artifact lies inside the store's
      directory, under the requested channel and one of the requested
      architecture's names. */
  lemma ArtifactPathInside(fs: FileSystem, base: Path, channel: string, arch: string, name: string)
    requires ArtifactPath(fs, base, channel, arch, name).Some?
    ensures var q := ArtifactPath(fs, base, channel, arch, name).value;
            && |q| == |base| + 3 && q[..|base|] == base && q[|base|] == channel
            && q[|base| + 1] in ProviderConfig.ArchAliases(arch)
            && (q[|base| + 2] == name || q[|base| + 2] in ArtifactAlternatives(name))
  {
    var cands := SearchOrder(base, channel, ProviderConfig.ArchAliases(arch), name);
    SearchOrderInside(base, channel, ProviderConfig.ArchAliases(arch), name);
    var k :| 0 <= k < |cands| && cands[k] == ArtifactPath(fs, base, channel, arch, name).value;
    assert cands[k] in cands;
  }

  /** (cache, result) of `get_or_compute_hash` as a value: a cached hash
      is returned as it is, without reading the file; otherwise the file's
      tagged digest is computed and cached under the key. */
  function CachedHash(p: Suite, fs: FileSystem, cache: map<CacheKey, string>, key: CacheKey, path: Path)
    : (r: (map<CacheKey, string>, Result<string, string>))
    ensures key in cache ==> r == (cache, Ok(cache[key]))
    ensures key !in cache && fs.IsFile(path) ==>
              r == (cache[key := Digests.TaggedDigest(p, fs.files[path])], Ok(Digests.TaggedDigest(p, fs.files[path])))
    ensures key !in cache && !fs.IsFile(path) ==> r == (cache, Err(OPEN_FAILED))
  {
    if key in cache then (cache, Ok(cache[key]))
    else if path in fs.files then
      var h := Digests.TaggedDigest(p, fs.files[path]);
      (cache[key := h], Ok(h))
    else (cache, Err(OPEN_FAILED))
  }

  /** `get_artifact` as a value: the metadata of the file the search
      finds, with its hash cached under the requested names, and the cache
      afterwards. */
  function Found(p: Suite, fs: FileSystem, cache: map<CacheKey, string>, base: Path,
                 channel: string, arch: string, name: string): (r: (Option<ArtifactMeta>, map<CacheKey, string>))
    ensures ArtifactPath(fs, base, channel, arch, name).None? <==> r.0.None?
    ensures r.0.None? ==> r.1 == cache
    ensures r.0.Some? ==>
              && r.0.value.name == name && r.0.value.path == ArtifactPath(fs, base, channel, arch, name).value
              && fs.IsFile(r.0.value.path) && r.0.value.sizeBytes == fs.FileLen(r.0.value.path)
              && r.0.value.sizeBytes <= |fs.files[r.0.value.path]|
              && (channel, arch, name) in r.1
              && r.0.value.hash == r.1[(channel, arch, name)]
              && ((channel, arch, name) !in cache ==>
                    r.0.value.hash == Digests.TaggedDigest(p, fs.files[r.0.value.path]))
  {
    match ArtifactPath(fs, base, channel, arch, name)
    case None => (None, cache)
    case Some(path) =>
      var step := CachedHash(p, fs, cache, (channel, arch, name), path);
      (Some(ArtifactMeta(name, path, fs.FileLen(path), step.1.value)), step.0)
  }

  /** The names, in listing order, of the entries of `dir` that are
      files. */
  function FileNames(fs: FileSystem, dir: Path, names: seq<string>): (r: seq<string>)
    ensures |r| <= |names|
    ensures forall n :: n in r <==> n in names && fs.IsFile(dir + [n])
  {
    if |names| == 0 then []
    else
      var init := names[..|names| - 1];
      var name := names[|names| - 1];
      assert names == init + [name];
      if fs.IsFile(dir + [name]) then FileNames(fs, dir, init) + [name] else FileNames(fs, dir, init)
  }

  /** The entries of one directory listing that are files, each with its
      size and its (cached) hash, and the cache afterwards: exactly the
      file entries, in listing order; each hash is the one cached under
      (channel, architecture name, file name) once the listing is done,
      which is the file's tagged digest unless the cache already held it;
      and the cache gains only those digests. */
  function ListDir(p: Suite, fs: FileSystem, cache: map<CacheKey, string>, channel: string, variant: string,
                   dir: Path, names: seq<string>): (r: (seq<ArtifactMeta>, map<CacheKey, string>))
    ensures |r.0| == |FileNames(fs, dir, names)|
    ensures forall k :: 0 <= k < |r.0| ==>
              && r.0[k].name == FileNames(fs, dir, names)[k]
              && r.0[k].path == dir + [r.0[k].name] && r.0[k].name in names
              && fs.IsFile(r.0[k].path) && r.0[k].sizeBytes == fs.FileLen(r.0[k].path)
              && (channel, variant, r.0[k].name) in r.1
              && r.0[k].hash == r.1[(channel, variant, r.0[k].name)]
    ensures forall k :: 0 <= k < |r.0| && (channel, variant, r.0[k].name) !in cache ==>
              r.0[k].hash == Digests.TaggedDigest(p, fs.files[r.0[k].path])
    ensures forall key :: key in cache ==> key in r.1 && r.1[key] == cache[key]
    ensures forall key :: key in r.1 && key !in cache ==>
              && key.0 == channel && key.1 == variant && fs.IsFile(dir + [key.2])
              && r.1[key] == Digests.TaggedDigest(p, fs.files[dir + [key.2]])
  {
    if |names| == 0 then ([], cache)
    else
      var init := names[..|names| - 1];
      var before := ListDir(p, fs, cache, channel, variant, dir, init);
      var name := names[|names| - 1];
      var path := dir + [name];
      FileNamesSnoc(fs, dir, names);
      if path in fs.files then
        var step := CachedHash(p, fs, before.1, (channel, variant, name), path);
        ListDirStep(p, fs, cache, channel, variant, dir, before, name, step);
        (before.0 + [ArtifactMeta(name, path, fs.FileLen(path), step.1.value)], step.0)
      else before
  }

  lemma FileNamesSnoc(fs: FileSystem, dir: Path, names: seq<string>)
    requires |names| > 0
    ensures var init := names[..|names| - 1];
            var name := names[|names| - 1];
            FileNames(fs, dir, names) == if fs.IsFile(dir + [name]) then FileNames(fs, dir, init) + [name]
                                         else FileNames(fs, dir, init)
  {
  }

  /** One file entry appended to a listing keeps the listing's facts. */
  lemma ListDirStep(p: Suite, fs: FileSystem, cache: map<CacheKey, string>, channel: string, variant: string,
                    dir: Path, before: (seq<ArtifactMeta>, map<CacheKey, string>), name: string,
                    step: (map<CacheKey, string>, Result<string, string>))
    requires fs.IsFile(dir + [name])
    requires step == CachedHash(p, fs, before.1, (channel, variant, name), dir + [name])
    requires forall k :: 0 <= k < |before.0| ==>
               (channel, variant, before.0[k].name) in before.1
               && before.0[k].hash == before.1[(channel, variant, before.0[k].name)]
    requires forall key :: key in cache ==> key in before.1 && before.1[key] == cache[key]
    requires forall key :: key in before.1 && key !in cache ==>
               && key.0 == channel && key.1 == variant && fs.IsFile(dir + [key.2])
               && before.1[key] == Digests.TaggedDigest(p, fs.files[dir + [key.2]])
    ensures step.1.Ok? && (channel, variant, name) in step.0 && step.0[(channel, variant, name)] == step.1.value
    ensures forall k :: 0 <= k < |before.0| ==>
              (channel, variant, before.0[k].name) in step.0
              && before.0[k].hash == step.0[(channel, variant, before.0[k].name)]
    ensures forall key :: key in cache ==> key in step.0 && step.0[key] == cache[key]
    ensures forall key :: key in step.0 && key !in cache ==>
              && key.0 == channel && key.1 == variant && fs.IsFile(dir + [key.2])
              && step.0[key] == Digests.TaggedDigest(p, fs.files[dir + [key.2]])
  {
  }

  /** The cache only grows: no entry is removed or changed by a listing. */
  lemma {:induction false} ListDirKeepsCache(p: Suite, fs: FileSystem, cache: map<CacheKey, string>, channel: string,
                                             variant: string, dir: Path, names: seq<string>)
    ensures var after := ListDir(p, fs, cache, channel, variant, dir, names).1;
            forall k :: k in cache ==> k in after && after[k] == cache[k]
    decreases |names|
  {
    if |names| > 0 {
      ListDirKeepsCache(p, fs, cache, channel, variant, dir, names[..|names| - 1]);
    }
  }

  /** The first architecture name whose directory exists. */
  function FirstExistingVariant(fs: FileSystem, base: Path, channel: string, variants: seq<string>): (r: Option<string>)
    ensures r.Some? ==> r.value in variants && fs.Exists(base + [channel, r.value])
    ensures r.None? ==> forall k :: 0 <= k < |variants| ==> !fs.Exists(base + [channel, variants[k]])
  {
    if |variants| == 0 then None
    else if fs.Exists(base + [channel, variants[0]]) then Some(variants[0])
    else
      var rest := FirstExistingVariant(fs, base, channel, variants[1..]);
      assert forall k :: 1 <= k < |variants| ==> variants[k] == variants[1..][k - 1];
      rest
  }

  /** `list_artifacts` as a value: only the first architecture directory
      that exists is listed, even when it holds no files; none gives an
      empty list. */
  function Listing(p: Suite, fs: FileSystem, cache: map<CacheKey, string>, base: Path, channel: string, arch: string)
    : (r: (Result<seq<ArtifactMeta>, string>, map<CacheKey, string>))
    ensures FirstExistingVariant(fs, base, channel, ProviderConfig.ArchAliases(arch)).None? ==> r == (Ok([]), cache)
    ensures r.0.Ok? ==> forall k :: 0 <= k < |r.0.value| ==>
              var v := FirstExistingVariant(fs, base, channel, ProviderConfig.ArchAliases(arch));
              v.Some? && r.0.value[k].path == base + [channel, v.value, r.0.value[k].name]
    ensures var v := FirstExistingVariant(fs, base, channel, ProviderConfig.ArchAliases(arch));
            v.Some? && base + [channel, v.value] !in fs.dirs ==> r == (Err(READ_DIR_FAILED), cache)
    ensures var v := FirstExistingVariant(fs, base, channel, ProviderConfig.ArchAliases(arch));
            v.Some? && base + [channel, v.value] in fs.dirs ==>
              var listed := ListDir(p, fs, cache, channel, v.value, base + [channel, v.value], fs.dirs[base + [channel, v.value]]);
              r == (Ok(listed.0), listed.1)
  {
    match FirstExistingVariant(fs, base, channel, ProviderConfig.ArchAliases(arch))
    case None => (Ok([]), cache)
    case Some(v) =>
      var dir := base + [channel, v];
      if dir !in fs.dirs then (Err(READ_DIR_FAILED), cache)
      else
        var listed := ListDir(p, fs, cache, channel, v, dir, fs.dirs[dir]);
        assert forall k :: 0 <= k < |listed.0| ==> listed.0[k].path == base + [channel, v, listed.0[k].name];
        (Ok(listed.0), listed.1)
  }

  /** The store of the source's listing test: `kernel` and `initramfs`
      under `stable/arm64`. */
  function TwoFileStore(base: Path, kernel: Bytes, initramfs: Bytes): FileSystem {
    FileSystem(map[base + ["stable", "arm64", "kernel"] := kernel, base + ["stable", "arm64", "initramfs"] := initramfs],
               map[base + ["stable", "arm64"] := ["kernel", "initramfs"]])
  }

  /** Listing that store for `arm64` with an empty cache gives both files,
      in directory order, each with its own size and digest. */
  lemma TwoFileListing(p: Suite, base: Path, kernel: Bytes, initramfs: Bytes)
    ensures var r := Listing(p, TwoFileStore(base, kernel, initramfs), map[], base, "stable", "arm64").0;
            && r.Ok? && |r.value| == 2
            && r.value[0].name == "kernel" && r.value[1].name == "initramfs"
            && r.value[0].hash == Digests.TaggedDigest(p, kernel)
            && r.value[1].hash == Digests.TaggedDigest(p, initramfs)
            && (|kernel| < TWO_64 ==> r.value[0].sizeBytes == |kernel|)
            && (|initramfs| < TWO_64 ==> r.value[1].sizeBytes == |initramfs|)
  {
    TwoFileStoreShape(base, kernel, initramfs);
  }

  /** Where the files of that store lie. */
  lemma TwoFileStoreShape(base: Path, kernel: Bytes, initramfs: Bytes)
    ensures var fs := TwoFileStore(base, kernel, initramfs);
            var dir := base + ["stable", "arm64"];
            && FirstExistingVariant(fs, base, "stable", ProviderConfig.ArchAliases("arm64")) == Some("arm64")
            && dir in fs.dirs && fs.dirs[dir] == ["kernel", "initramfs"]
            && FileNames(fs, dir, ["kernel", "initramfs"]) == ["kernel", "initramfs"]
            && fs.files[dir + ["kernel"]] == kernel && fs.files[dir + ["initramfs"]] == initramfs
  {
    var fs := TwoFileStore(base, kernel, initramfs);
    var dir := base + ["stable", "arm64"];
    assert dir + ["kernel"] != dir + ["initramfs"] by { assert (dir + ["kernel"])[|dir|] != (dir + ["initramfs"])[|dir|]; }
    var names := ["kernel", "initramfs"];
    assert names[..1] == ["kernel"] && names[..1][..0] == [];
    assert dir + ["kernel"] == base + ["stable", "arm64", "kernel"];
    assert dir + ["initramfs"] == base + ["stable", "arm64", "initramfs"];
    FileNamesSnoc(fs, dir, names[..1]);
    FileNamesSnoc(fs, dir, names);
  }

  class ArtifactStore {
    const baseDir: Path
    /** (channel, arch, name) to the `sha256:` text of the file. */
    var hashCache: map<CacheKey, string>

    /** `new`; creating a missing directory is not modelled. */
    constructor (baseDir: Path)
      ensures this.baseDir == baseDir && hashCache == map[]
    {
      this.baseDir := baseDir;
      hashCache := map[];
    }

    /** `get_artifact_path`: the architecture names in order; under each,
        the exact name, then the alternatives in order. */
    method GetArtifactPath(fs: FileSystem, channel: string, arch: string, name: string) returns (r: Option<Path>)
      ensures r == ArtifactPath(fs, baseDir, channel, arch, name)
    {
      if !IsValidName(channel) || !IsValidName(arch) || !IsValidName(name) {
        return None;
      }
      var variants := ProviderConfig.ArchAliases(arch);
      var i := 0;
      while i < |variants|
        invariant 0 <= i <= |variants|
        invariant FirstFile(fs, SearchOrder(baseDir, channel, variants[..i], name)) == None
      {
        var v := variants[i];
        var found := FindUnderVariant(fs, channel, v, name);
        if found.Some? {
          FoundInVariant(fs, baseDir, channel, variants, name, i);
          return found;
        }
        assert variants[..i + 1] == variants[..i] + [v];
        assert variants[..i + 1][..i] == variants[..i];
        FirstFileAppend(fs, SearchOrder(baseDir, channel, variants[..i], name),
                        VariantCandidates(baseDir, channel, v, name));
        i := i + 1;
      }
      assert variants[..i] == variants;
      return None;
    }

    /** The body of the search loop for one architecture name: the exact
        name, then the alternatives in order. */
    method FindUnderVariant(fs: FileSystem, channel: string, v: string, name: string) returns (r: Option<Path>)
      ensures r == FirstFile(fs, VariantCandidates(baseDir, channel, v, name))
    {
      var cands := VariantCandidates(baseDir, channel, v, name);
      var path := baseDir + [channel, v, name];
      if fs.Exists(path) && fs.IsFile(path) {
        assert FirstFile(fs, cands[..0]) == None;
        FirstFileAt(fs, cands, 0);
        return Some(path);
      }
      var alternatives := ArtifactAlternatives(name);
      var j := 0;
      while j < |alternatives|
        invariant 0 <= j <= |alternatives|
        invariant FirstFile(fs, cands[..j + 1]) == None
      {
        var altPath := baseDir + [channel, v, alternatives[j]];
        if fs.Exists(altPath) && fs.IsFile(altPath) {
          FirstFileAt(fs, cands, j + 1);
          return Some(altPath);
        }
        FirstFileAppend(fs, cands[..j + 1], [cands[j + 1]]);
        assert cands[..j + 2] == cands[..j + 1] + [cands[j + 1]];
        j := j + 1;
      }
      assert cands[..j + 1] == cands;
      return None;
    }

    /** `compute_hash`: the tagged SHA-256 of the file, read in chunks. */
    static method ComputeHash(p: Suite, fs: FileSystem, path: Path) returns (r: Result<string, string>)
      ensures !fs.IsFile(path) ==> r == Err(OPEN_FAILED)
      ensures fs.IsFile(path) ==> r == Ok(Digests.TaggedDigest(p, fs.files[path]))
    {
      if path !in fs.files {
        return Err(OPEN_FAILED);
      }
      var h := Digests.HashInChunks(p, fs.files[path]);
      return Ok(h);
    }

    /** `get_or_compute_hash`. */
    method GetOrComputeHash(p: Suite, fs: FileSystem, channel: string, arch: string, name: string, path: Path)
      returns (r: Result<string, string>)
      modifies this
      ensures (hashCache, r) == CachedHash(p, fs, old(hashCache), (channel, arch, name), path)
    {
      var key := (channel, arch, name);
      if key in hashCache {
        return Ok(hashCache[key]);
      }
      r := ComputeHash(p, fs, path);
      if r.Err? {
        return;
      }
      hashCache := hashCache[key := r.value];
    }

    /** `get_artifact`: the hash is cached under the requested
        architecture and name, whichever file the search found. */
    method GetArtifact(p: Suite, fs: FileSystem, channel: string, arch: string, name: string)
      returns (r: Result<Option<ArtifactMeta>, string>)
      modifies this
      ensures (r, hashCache) == (Ok(Found(p, fs, old(hashCache), baseDir, channel, arch, name).0),
                                 Found(p, fs, old(hashCache), baseDir, channel, arch, name).1)
    {
      var found := GetArtifactPath(fs, channel, arch, name);
      if found.None? {
        return Ok(None);
      }
      var path := found.value;
      var size := fs.FileLen(path);
      var hash := GetOrComputeHash(p, fs, channel, arch, name, path);
      assert hash.Ok?;
      return Ok(Some(ArtifactMeta(name, path, size, hash.value)));
    }

    /** `list_artifacts`. */
    /** The loop over one directory's entries in `list_artifacts`: each
        plain file becomes an artifact with its size and (cached) hash. */
    method ListEntries(p: Suite, fs: FileSystem, channel: string, v: string, dir: Path, entries: seq<string>)
      returns (artifacts: seq<ArtifactMeta>)
      modifies this
      ensures (artifacts, hashCache) == ListDir(p, fs, old(hashCache), channel, v, dir, entries)
    {
      artifacts := [];
      var k := 0;
      while k < |entries|
        invariant 0 <= k <= |entries|
        invariant (artifacts, hashCache) == ListDir(p, fs, old(hashCache), channel, v, dir, entries[..k])
      {
        var name := entries[k];
        var path := dir + [name];
        assert entries[..k + 1][..k] == entries[..k];
        if fs.IsFile(path) {
          var size := fs.FileLen(path);
          var hash := GetOrComputeHash(p, fs, channel, v, name, path);
          assert hash.Ok?;
          artifacts := artifacts + [ArtifactMeta(name, path, size, hash.value)];
        }
        k := k + 1;
      }
      assert entries[..k] == entries;
    }

    method ListArtifacts(p: Suite, fs: FileSystem, channel: string, arch: string)
      returns (r: Result<seq<ArtifactMeta>, string>)
      modifies this
      ensures (r, hashCache) == Listing(p, fs, old(hashCache), baseDir, channel, arch)
    {
      var variants := ProviderConfig.ArchAliases(arch);
      var i := 0;
      while i < |variants|
        invariant 0 <= i <= |variants|
        invariant hashCache == old(hashCache)
        invariant FirstExistingVariant(fs, baseDir, channel, variants) == FirstExistingVariant(fs, baseDir, channel, variants[i..])
      {
        var v := variants[i];
        var dir := baseDir + [channel, v];
        if fs.Exists(dir) {
          if dir !in fs.dirs {
            return Err(READ_DIR_FAILED);
          }
          var entries := fs.dirs[dir];
          var artifacts := ListEntries(p, fs, channel, v, dir, entries);
          return Ok(artifacts);
        }
        assert variants[i..][1..] == variants[i + 1..];
        i := i + 1;
      }
      return Ok([]);
    }
  }

  /** A file at position `k`, with none before it, is the first file. */
  lemma FirstFileAt(fs: FileSystem, c: seq<Path>, k: nat)
    requires k < |c| && FirstFile(fs, c[..k]) == None && fs.IsFile(c[k])
    ensures FirstFile(fs, c) == Some(c[k])
  {
    assert c == c[..k] + c[k..];
    assert c[k..][0] == c[k];
    FirstFileAppend(fs, c[..k], c[k..]);
  }

  /** The search order around one architecture name. */
  lemma SearchOrderSplit(base: Path, channel: string, variants: seq<string>, name: string, i: nat)
    requires i < |variants|
    ensures SearchOrder(base, channel, variants, name) ==
            SearchOrder(base, channel, variants[..i], name) + VariantCandidates(base, channel, variants[i], name)
            + SearchOrder(base, channel, variants[i + 1..], name)
  {
    assert variants == variants[..i + 1] + variants[i + 1..];
    SearchOrderAppend(base, channel, variants[..i + 1], variants[i + 1..], name);
    assert variants[..i + 1][..i] == variants[..i];
  }

  /** A file found among one architecture's candidates, after nothing
      was found under the earlier ones, is the search's answer. */
  lemma FoundInVariant(fs: FileSystem, base: Path, channel: string, variants: seq<string>, name: string, i: nat)
    requires i < |variants|
    requires FirstFile(fs, SearchOrder(base, channel, variants[..i], name)) == None
    requires FirstFile(fs, VariantCandidates(base, channel, variants[i], name)).Some?
    ensures FirstFile(fs, SearchOrder(base, channel, variants, name))
         == FirstFile(fs, VariantCandidates(base, channel, variants[i], name))
  {
    var before := SearchOrder(base, channel, variants[..i], name);
    var c := VariantCandidates(base, channel, variants[i], name);
    var after := SearchOrder(base, channel, variants[i + 1..], name);
    SearchOrderSplit(base, channel, variants, name, i);
    FirstFileAppend(fs, before, c);
    FirstFileAppend(fs, before + c, after);
  }
}
