/** `export`: gathering a session's files into an archive. */
module ExportSession {
  import opened Bytes
  import opened Errors
  import opened Files
  import opened Manifest
  import opened Plans
  import opened Tar
  import opened TarRoundTrip
  import opened Tree
  import opened Archive
  import opened Export
  import opened Integrity
  import opened Safety
  import Revision
  import Upkeep
  import Paths
  import Ustar

  /** Images read back, checked and added to the entries, in manifest order. */
  function Gather(d: Disk, captures: seq<CaptureRecord>, t: Tree, env: Env): Result<Tree, StoreError>
    decreases captures
  {
    if captures == [] then Ok(t)
    else
      var image := captures[0].image;
      var data := ReadImage(d, image, env);
      if data.Err? then Err(data.error) else Gather(d, captures[1..], Insert(t, image.relativePath, data.value), env)
  }

  /** What gathering leaves: the images' octets under their paths. */
  predicate Gathers(d: Disk, captures: seq<CaptureRecord>, t: Tree, r: Tree, env: Env) {
    && Sorted(r) && Keys(r) == Keys(t) + ImagePaths(captures)
    && (forall p | p in ImagePaths(captures) :: p in d.files && Get(r, p) == Some(d.files[p]))
    && (forall i | 0 <= i < |captures| ::
          captures[i].image.relativePath in d.files
          && ImageMatches(d.files[captures[i].image.relativePath], captures[i].image, env))
  }

  lemma PathsStep(captures: seq<CaptureRecord>)
    requires captures != []
    ensures ImagePaths(captures) == {captures[0].image.relativePath} + ImagePaths(captures[1..])
  {
    forall p | p in ImagePaths(captures) ensures p in {captures[0].image.relativePath} + ImagePaths(captures[1..]) {
      var i :| 0 <= i < |captures| && captures[i].image.relativePath == p;
      if i > 0 {
        assert captures[1..][i - 1].image.relativePath == p;
      }
    }
    forall p | p in ImagePaths(captures[1..]) ensures p in ImagePaths(captures) {
      var i :| 0 <= i < |captures| - 1 && captures[1..][i].image.relativePath == p;
      assert captures[i + 1].image.relativePath == p;
    }
  }

  lemma {:induction false} OthersStay(d: Disk, captures: seq<CaptureRecord>, t: Tree, env: Env, p: Bytes)
    requires Gather(d, captures, t, env).Ok? && p !in ImagePaths(captures)
    ensures Get(Gather(d, captures, t, env).value, p) == Get(t, p)
    decreases captures
  {
    if captures != [] {
      PathsStep(captures);
      var image := captures[0].image;
      assert p != image.relativePath;
      GetInsert(t, image.relativePath, d.files[image.relativePath], p);
      OthersStay(d, captures[1..], Insert(t, image.relativePath, d.files[image.relativePath]), env, p);
    }
  }

  lemma {:induction false} GatherIsRight(d: Disk, captures: seq<CaptureRecord>, t: Tree, env: Env)
    requires Sorted(t) && Gather(d, captures, t, env).Ok?
    ensures Gathers(d, captures, t, Gather(d, captures, t, env).value, env)
    decreases captures
  {
    hide Less, ImageMatches, Get, Insert;
    if captures == [] {
      assert ImagePaths(captures) == {};
    } else {
      var image := captures[0].image;
      var path := image.relativePath;
      var next := Insert(t, path, d.files[path]);
      InsertIsSorted(t, path, d.files[path]);
      GatherIsRight(d, captures[1..], next, env);
      PathsStep(captures);
      var r := Gather(d, captures, t, env).value;
      if path !in ImagePaths(captures[1..]) {
        OthersStay(d, captures[1..], next, env, path);
        GetInsert(t, path, d.files[path], path);
      }
      forall i | 0 <= i < |captures|
        ensures captures[i].image.relativePath in d.files
        ensures ImageMatches(d.files[captures[i].image.relativePath], captures[i].image, env)
      {
        if i > 0 {
          assert captures[1..][i - 1] == captures[i];
        }
      }
    }
  }

  function Start(manifest: Bytes): Tree {
    [Item(Paths.Manifest(), manifest)]
  }

  // ----- Sizes -----

  lemma {:induction false} TextIsShort(t: Tree, hash: Hash)
    requires forall i | 0 <= i < |t| :: |t[i].path| <= 256
    ensures |SumsText(t, hash)| <= 323 * |t|
    decreases |t|
  {
    if t != [] {
      TextIsShort(t[..|t| - 1], hash);
      assert |SumsLine(t[|t| - 1], hash)| == 64 + 2 + |t[|t| - 1].path| + 1;
    }
  }

  predicate IsSmall(data: Bytes) {
    |data| <= MAX_IMAGE_BYTES
  }

  lemma SmallIsSized(data: Bytes)
    requires IsSmall(data)
    ensures IsSized(data)
  {
    Ustar.ElevenDigits();
    hide Ustar.Eights;
  }

  /** No entry of an export is too large for its octal size field. */
  lemma SizedWithSums(t: Tree, hash: Hash)
    requires Sorted(t) && |t| <= MAX_CAPTURE_COUNT + 1
    requires forall p | p in Keys(t) :: |p| <= 256 && Get(t, p).Some? && IsSmall(Get(t, p).value)
    ensures AllSized(WithSums(t, hash))
  {
    hide Less, IsSized;
    forall i | 0 <= i < |t| ensures |t[i].path| <= 256 {
      assert t[i].path in Keys(t);
    }
    TextIsShort(t, hash);
    hide SumsText;
    WithSumsIsSorted(t, hash);
    var all := WithSums(t, hash);
    hide WithSums;
    forall i | 0 <= i < |all| ensures IsSized(all[i].data) {
      GetAt(all, i);
      assert all[i].path in Keys(all);
      SameContent(t, hash, all[i].path);
      SmallIsSized(all[i].data);
    }
  }

  lemma KeysAre(m: Evidence, t: Tree, p: Bytes)
    requires Valid(m) && Keys(t) == Expected(m.captures) && p in Keys(t)
    ensures |p| <= 256
  {
    hide FindingsOk, AgentFindingsOk, ComparisonOk, BeforeAfterOk, Paths.Split;
    if p != Paths.Manifest() {
      var k :| 0 <= k < |m.captures| && m.captures[k].image.relativePath == p;
      assert ValidCapture(m.captures[k]);
    }
  }

  /** The manifest's own entry is its file, unless an image path names it too,
      and then it is the same file. */
  lemma ManifestEntry(d: Disk, m: Evidence, t: Tree, env: Env)
    requires Paths.Manifest() in d.files && Gather(d, m.captures, Start(d.files[Paths.Manifest()]), env) == Ok(t)
    ensures Get(t, Paths.Manifest()) == Some(d.files[Paths.Manifest()])
    ensures Sorted(t) && Keys(t) == Expected(m.captures)
    ensures forall p | p in ImagePaths(m.captures) :: p in d.files && Get(t, p) == Some(d.files[p])
  {
    hide Gather, Paths.Manifest;
    var start := Start(d.files[Paths.Manifest()]);
    assert Keys(start) == {Paths.Manifest()} by {
      assert start[0].path == Paths.Manifest();
    }
    GatherIsRight(d, m.captures, start, env);
    if Paths.Manifest() !in ImagePaths(m.captures) {
      OthersStay(d, m.captures, start, env, Paths.Manifest());
      assert Get(start, Paths.Manifest()) == Some(d.files[Paths.Manifest()]);
    }
  }

  lemma GatheredIsSized(d: Disk, m: Evidence, t: Tree, env: Env)
    requires Paths.Manifest() in d.files && FromJson(d.files[Paths.Manifest()], env.parseManifest) == Some(m)
    requires Gather(d, m.captures, Start(d.files[Paths.Manifest()]), env) == Ok(t)
    ensures AllSized(WithSums(t, env.hash))
  {
    ManifestEntry(d, m, t, env);
    FewPaths(m.captures);
    KeyCount(t);
    ManifestFits(d.files[Paths.Manifest()], env);
    hide Gather, Valid, FromJson, Less, Paths.Manifest, WithSums;
    forall p | p in Keys(t) ensures |p| <= 256 && Get(t, p).Some? && IsSmall(Get(t, p).value) {
      KeysAre(m, t, p);
      if p in ImagePaths(m.captures) {
        ImageIsSmall(d, m, t, env, p);
      }
    }
    SizedWithSums(t, env.hash);
  }

  lemma ManifestFits(manifest: Bytes, env: Env)
    requires FromJson(manifest, env.parseManifest).Some?
    ensures IsSmall(manifest) && Valid(FromJson(manifest, env.parseManifest).value)
    ensures |FromJson(manifest, env.parseManifest).value.captures| <= MAX_CAPTURE_COUNT
  {
    hide ValidCapture, FindingsOk, AgentFindingsOk, ComparisonOk, BeforeAfterOk, Distinct, Nesting.NestingWithinLimit;
  }

  lemma ImageIsSmall(d: Disk, m: Evidence, t: Tree, env: Env, p: Bytes)
    requires Valid(m) && Paths.Manifest() in d.files
    requires Gather(d, m.captures, Start(d.files[Paths.Manifest()]), env) == Ok(t)
    requires p in ImagePaths(m.captures) && Get(t, p).Some?
    ensures IsSmall(Get(t, p).value)
  {
    GatherIsRight(d, m.captures, Start(d.files[Paths.Manifest()]), env);
    hide Gather, FindingsOk, AgentFindingsOk, ComparisonOk, BeforeAfterOk, Less, Paths.Manifest, Paths.IsObjectPath;
    var k :| 0 <= k < |m.captures| && m.captures[k].image.relativePath == p;
    assert ValidCapture(m.captures[k]);
  }

  // ----- The operation -----

  function Exported(d: Disk, env: Env): Result<Bytes, StoreError> {
    var bytes := ReadManifest(d);
    if bytes.Err? then Err(bytes.error)
    else
      var m := FromJson(bytes.value, env.parseManifest);
      if m.None? then Err(ManifestInvalid)
      else
        var t := Gather(d, m.value.captures, Start(bytes.value), env);
        if t.Err? then Err(t.error)
        else
          GatheredIsSized(d, m.value, t.value, env);
          var archive := Built(t.value, env.hash);
          if archive.Err? then archive
          else
            var verified := ArchiveVerified(archive.value, env);
            if verified.Err? then Err(verified.error) else archive
  }

  method ExportArchive(d: Disk, env: Env) returns (r: Result<Bytes, StoreError>)
    ensures r == Exported(d, env)
  {
    hide Built, Parsed, Verified, Gather, FromJson, AllSized, WithSums, Paths.Manifest;
    if !d.session {
      return Err(InvalidPath);
    }
    if Paths.Manifest() !in d.files {
      return Err(Io);
    }
    var bytes := d.files[Paths.Manifest()];
    var manifest := FromJson(bytes, env.parseManifest);
    if manifest.None? {
      return Err(ManifestInvalid);
    }
    var entries := GatherImages(d, manifest.value.captures, Start(bytes), env);
    if entries.Err? {
      return Err(entries.error);
    }
    GatheredIsSized(d, manifest.value, entries.value, env);
    var archive := BuildTar(entries.value, env.hash);
    if archive.Err? {
      return archive;
    }
    var parsed := ParseArchiveEntries(archive.value);
    if parsed.Err? {
      return Err(parsed.error);
    }
    var verified := VerifyArchiveEntries(parsed.value, env);
    if verified.Err? {
      return Err(verified.error);
    }
    r := archive;
  }

  method GatherImages(d: Disk, captures: seq<CaptureRecord>, start: Tree, env: Env)
    returns (r: Result<Tree, StoreError>)
    ensures r == Gather(d, captures, start, env)
  {
    hide Insert, ImageMatches;
    var t := start;
    assert captures[0..] == captures;
    for i := 0 to |captures|
      invariant Gather(d, captures[i..], t, env) == Gather(d, captures, start, env)
    {
      assert captures[i..][1..] == captures[i + 1..];
      var image := captures[i].image;
      if image.relativePath !in d.files {
        return Err(Io);
      }
      var data := d.files[image.relativePath];
      if !ImageMatches(data, image, env) {
        return Err(ArchiveInvalid);
      }
      t := Insert(t, image.relativePath, data);
    }
    assert captures[|captures|..] == [];
    r := Ok(t);
  }

  // ----- What export promises -----

  /** A stored image's path fits a USTAR header exactly when its capture ID has
      at most 96 octets, although an ID may have 128. */
  lemma ImagePathIsRepresentable(id: Bytes)
    requires IsId(id)
    ensures IsRepresentable(Paths.ImagePath(id)) <==> |id| <= 96
  {
    Paths.ImagePathIsObjectPath(id);
    hide Paths.IsObjectPath;
    var path := Paths.ImagePath(id);
    assert |path| == |id| + 13;
    if |path| > 100 {
      assert path[8] == Paths.SLASH;
      var last := Ustar.LastSlash(path).value;
      assert forall i | 9 <= i < |path| :: path[i] != Paths.SLASH;
      forall k | last < k < |path| ensures path[k] != Paths.SLASH {
        assert path[k] == path[last + 1..][k - last - 1];
      }
      assert last == 8;
    }
  }

  /** Gathered entries of a valid manifest are an export. */
  lemma GatheredIsExport(d: Disk, m: Evidence, t: Tree, env: Env)
    requires Paths.Manifest() in d.files && FromJson(d.files[Paths.Manifest()], env.parseManifest) == Some(m)
    requires Gather(d, m.captures, Start(d.files[Paths.Manifest()]), env) == Ok(t)
    requires Sums() !in ImagePaths(m.captures)
    ensures IsExport(t, m, env)
  {
    ManifestEntry(d, m, t, env);
    GatherIsRight(d, m.captures, Start(d.files[Paths.Manifest()]), env);
    ManifestFits(d.files[Paths.Manifest()], env);
    assert Sums() != Paths.Manifest() by {
      assert Sums()[0] == 83 && Paths.Manifest()[0] == 109;
    }
    hide Gather, Valid, FromJson, Less, Paths.Manifest, Sums, ImageMatches, Get;
    forall i | 0 <= i < |m.captures| ensures Matches(t, m.captures[i].image, env) {
      assert m.captures[i].image.relativePath in ImagePaths(m.captures);
    }
  }

  /** An archive handed out by export attests itself. */
  lemma ExportedAttests(d: Disk, env: Env)
    requires Exported(d, env).Ok?
    ensures Parsed(Exported(d, env).value).Ok? && Attests(Parsed(Exported(d, env).value).value, env)
  {
    hide Built, Parsed, ArchiveVerified, Gather, FromJson, AllSized, WithSums, Paths.Manifest;
    AcceptedAttests(Exported(d, env).value, env);
  }

  lemma {:induction false} GatherSucceeds(d: Disk, captures: seq<CaptureRecord>, t: Tree, env: Env)
    requires AllHeld(d, captures, env)
    ensures Gather(d, captures, t, env).Ok?
    decreases captures
  {
    hide ImageMatches, Insert, Paths.ImagePath;
    if captures != [] {
      assert ImageHeld(d, captures[0], env);
      forall i | 0 <= i < |captures| - 1 ensures ImageHeld(d, captures[1..][i], env) {
        assert ImageHeld(d, captures[i + 1], env);
      }
      GatherSucceeds(d, captures[1..],
                     Insert(t, captures[0].image.relativePath, d.files[captures[0].image.relativePath]), env);
    }
  }

  /** A path the daemon puts in an archive: it fits, and breaks no line. */
  predicate IsEasy(p: Bytes) {
    IsRepresentable(p) && 10 !in p && p != Sums()
  }

  lemma DaemonPathIsEasy(c: CaptureRecord)
    requires IsId(c.captureId) && |c.captureId| <= 96 && c.image.relativePath == Paths.ImagePath(c.captureId)
    ensures IsEasy(c.image.relativePath)
  {
    ImagePathIsRepresentable(c.captureId);
    hide IsRepresentable;
    var p := Paths.ImagePath(c.captureId);
    assert p[0] == 99 && Sums()[0] == 83;
    assert forall i | 0 <= i < |p| :: p[i] != 10;
  }

  lemma ManifestIsEasy()
    ensures IsEasy(Paths.Manifest())
  {
    Paths.ManifestIsObjectPath();
    hide Paths.IsObjectPath;
    var p := Paths.Manifest();
    assert p[0] == 109 && Sums()[0] == 83;
    assert forall i | 0 <= i < |p| :: p[i] != 10;
  }

  lemma SumsIsRepresentable()
    ensures IsRepresentable(Sums())
  {
    hide Paths.Split;
    var p := Sums();
    assert p[0] == 83 && forall i | 0 <= i < |p| :: p[i] != Paths.SLASH && p[i] != Paths.BACKSLASH;
    Paths.SplitWhole(p, Paths.SLASH);
  }

  lemma NamedPathsAreEasy(captures: seq<CaptureRecord>)
    requires Upkeep.Named(captures) && |captures| <= MAX_CAPTURE_COUNT
    ensures forall p | p in ImagePaths(captures) :: IsEasy(p)
  {
    hide IsEasy, Paths.ImagePath, IsId, Revision.CaptureId;
    forall p | p in ImagePaths(captures) ensures IsEasy(p) {
      var i :| 0 <= i < |captures| && captures[i].image.relativePath == p;
      Revision.CaptureIdLength(i + 1, captures[i].image.sha256);
      DaemonPathIsEasy(captures[i]);
    }
  }

  lemma NamedOnDisk(d: Disk, config: Config, env: Env)
    requires Safe(d, config, env) && ManifestOf(d, env).Some?
    ensures Upkeep.Named(CapturesOf(d, env)) && |CapturesOf(d, env)| <= MAX_CAPTURE_COUNT
    ensures AllHeld(d, CapturesOf(d, env), env) && d.session
  {
    hide FromJson, Audited, Total, Upkeep.Tidy, Upkeep.Named, AllHeld;
    ManifestFits(ManifestFile(d).value, env);
  }

  lemma DaemonPathsAreEasy(d: Disk, config: Config, env: Env)
    requires Safe(d, config, env) && ManifestOf(d, env).Some?
    ensures forall p | p in Expected(CapturesOf(d, env)) :: IsEasy(p)
    ensures AllHeld(d, CapturesOf(d, env), env) && d.session
  {
    hide Safe, IsEasy, CapturesOf, ManifestOf, Upkeep.Named, AllHeld, Paths.Manifest, ImagePaths;
    NamedOnDisk(d, config, env);
    ManifestIsEasy();
    NamedPathsAreEasy(CapturesOf(d, env));
  }
}
