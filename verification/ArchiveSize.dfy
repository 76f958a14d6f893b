/** How long an archive is, to the octet, and so exactly which sessions export. */
module ArchiveSize {
  import opened Bytes
  import opened Errors
  import opened Files
  import opened Manifest
  import opened Plans
  import opened Tar
  import opened TarRoundTrip
  import opened Tree
  import opened Archive
  import opened Export
  import opened ExportSession
  import opened Integrity
  import opened Safety
  import Revision
  import Upkeep
  import Paths
  import Ustar

  // ----- Sums over entries -----

  function ItemSum(t: Tree, weigh: Item -> nat): nat {
    if t == [] then 0 else weigh(t[0]) + ItemSum(t[1..], weigh)
  }

  lemma {:induction false} SumConcat(a: Tree, b: Tree, weigh: Item -> nat)
    ensures ItemSum(a + b, weigh) == ItemSum(a, weigh) + ItemSum(b, weigh)
    decreases a
  {
    if a == [] {
      assert a + b == b;
    } else {
      assert (a + b)[1..] == a[1..] + b;
      SumConcat(a[1..], b, weigh);
    }
  }

  lemma SumOfInit(t: Tree, weigh: Item -> nat)
    requires t != []
    ensures ItemSum(t, weigh) == ItemSum(t[..|t| - 1], weigh) + weigh(t[|t| - 1])
  {
    var last := [t[|t| - 1]];
    assert t == t[..|t| - 1] + last && last[1..] == [];
    assert ItemSum(last, weigh) == weigh(last[0]) + ItemSum([], weigh);
    SumConcat(t[..|t| - 1], last, weigh);
  }

  lemma {:induction false} SumOfInsert(t: Tree, path: Bytes, data: Bytes, weigh: Item -> nat)
    requires path !in Keys(t)
    ensures ItemSum(Insert(t, path, data), weigh) == ItemSum(t, weigh) + weigh(Item(path, data))
    decreases t
  {
    hide Less;
    var item := Item(path, data);
    if t == [] {
      assert [item][1..] == [];
    } else {
      assert t[0].path in Keys(t);
      KeysStep(t);
      if Less(path, t[0].path) {
        assert ([item] + t)[1..] == t;
      } else {
        SumOfInsert(t[1..], path, data, weigh);
        assert ([t[0]] + Insert(t[1..], path, data))[1..] == Insert(t[1..], path, data);
      }
    }
  }

  // ----- The archive of any entries -----

  /** A header of 512 octets and the data rounded up to 512. */
  function EntrySize(length: nat): nat {
    512 + (length + 511) / 512 * 512
  }

  function Weight(): Item -> nat {
    (item: Item) => EntrySize(|item.data|)
  }

  lemma RoundsUp(n: nat)
    ensures n + PaddingLength(n) == (n + 511) / 512 * 512
  {
    var q, r := n / 512, n % 512;
    assert n == 512 * q + r;
  }

  lemma EntryLength(item: Item)
    requires IsRepresentable(item.path) && IsSized(item.data)
    ensures |EntryBytes(item.path, item.data)| == Weight()(item)
  {
    RoundsUp(|item.data|);
    hide PaddingLength, IsSized, Paths.IsObjectPath, Ustar.SplitPath;
  }

  predicate AllRepresentable(t: Tree) {
    forall i | 0 <= i < |t| :: IsRepresentable(t[i].path)
  }

  /** Entries are written one after the other until the limit is passed. */
  lemma {:induction false} BlocksLength(t: Tree)
    requires AllSized(t) && AllRepresentable(t)
    ensures if ItemSum(t, Weight()) <= 536_870_912 then Blocks(t).Ok? && |Blocks(t).value| == ItemSum(t, Weight())
            else Blocks(t) == Err(Quota)
    decreases |t|
  {
    hide IsRepresentable, IsSized, EntryBytes, Weight;
    if t != [] {
      var n := |t| - 1;
      assert forall i | 0 <= i < n :: t[..n][i] == t[i];
      BlocksLength(t[..n]);
      SumOfInit(t, Weight());
      EntryLength(t[n]);
    }
  }

  lemma {:induction false} WrittenIsRepresentable(t: Tree)
    requires AllSized(t) && Blocks(t).Ok?
    ensures AllRepresentable(t)
    decreases |t|
  {
    hide IsRepresentable, IsSized, EntryBytes;
    if t != [] {
      var n := |t| - 1;
      WrittenIsRepresentable(t[..n]);
      forall i | 0 <= i < n ensures IsRepresentable(t[i].path) {
        assert t[..n][i] == t[i];
      }
    }
  }

  /** An archive is 1024 octets and its entries. It is built exactly when that is
      at most 512 MiB and every path is normal and representable; the size is
      refused as such. */
  lemma BuiltLength(t: Tree, hash: Hash)
    requires AllSized(WithSums(t, hash))
    ensures var size := 1024 + ItemSum(WithSums(t, hash), Weight());
            && (Built(t, hash).Ok? <==> AllPaths(t) && AllRepresentable(WithSums(t, hash)) && size <= 536_870_912)
            && (Built(t, hash).Ok? ==> |Built(t, hash).value| == size)
            && (AllPaths(t) && AllRepresentable(WithSums(t, hash)) && size > 536_870_912
                ==> Built(t, hash) == Err(Quota))
  {
    hide WithSums, Blocks, AllSized, AllPaths, AllRepresentable, Weight;
    if Blocks(WithSums(t, hash)).Ok? {
      WrittenIsRepresentable(WithSums(t, hash));
    }
    if AllRepresentable(WithSums(t, hash)) {
      BlocksLength(WithSums(t, hash));
    }
  }

  // ----- The checksum list -----

  function LineWeight(): Item -> nat {
    (item: Item) => 67 + |item.path|
  }

  lemma {:induction false} ListLength(t: Tree, hash: Hash)
    ensures |SumsText(t, hash)| == ItemSum(t, LineWeight())
    decreases |t|
  {
    if t != [] {
      ListLength(t[..|t| - 1], hash);
      SumOfInit(t, LineWeight());
    }
  }

  // ----- The archive of a session -----

  function CaptureSum(captures: seq<CaptureRecord>, weigh: CaptureRecord -> nat): nat {
    if captures == [] then 0 else weigh(captures[0]) + CaptureSum(captures[1..], weigh)
  }

  predicate PathsDistinct(captures: seq<CaptureRecord>) {
    forall i, j | 0 <= i < j < |captures| :: captures[i].image.relativePath != captures[j].image.relativePath
  }

  /** The same weight, of a record and of its entry. */
  ghost predicate Agree(d: Disk, captures: seq<CaptureRecord>, weigh: Item -> nat, record: CaptureRecord -> nat) {
    forall i | 0 <= i < |captures| ::
      captures[i].image.relativePath in d.files
      && record(captures[i]) == weigh(Item(captures[i].image.relativePath, d.files[captures[i].image.relativePath]))
  }

  lemma {:induction false} GatheredSum(d: Disk, captures: seq<CaptureRecord>, t: Tree, env: Env, weigh: Item -> nat,
                                       record: CaptureRecord -> nat)
    requires Sorted(t) && Gather(d, captures, t, env).Ok? && PathsDistinct(captures)
    requires Agree(d, captures, weigh, record)
    requires forall i | 0 <= i < |captures| :: captures[i].image.relativePath !in Keys(t)
    ensures ItemSum(Gather(d, captures, t, env).value, weigh) == ItemSum(t, weigh) + CaptureSum(captures, record)
    decreases captures
  {
    hide Less, ImageMatches, Insert, ItemSum;
    if captures != [] {
      var path := captures[0].image.relativePath;
      var next := Insert(t, path, d.files[path]);
      InsertIsSorted(t, path, d.files[path]);
      SumOfInsert(t, path, d.files[path], weigh);
      forall i | 0 <= i < |captures| - 1 ensures captures[1..][i].image.relativePath !in Keys(next) {
        assert captures[1..][i] == captures[i + 1];
        assert captures[0].image.relativePath != captures[i + 1].image.relativePath;
      }
      assert forall i | 0 <= i < |captures| - 1 :: captures[1..][i] == captures[i + 1];
      GatheredSum(d, captures[1..], next, env, weigh, record);
    }
  }

  function ImageWeight(): CaptureRecord -> nat {
    (c: CaptureRecord) => EntrySize(c.image.bytes)
  }

  function ImageLine(): CaptureRecord -> nat {
    (c: CaptureRecord) => 103
  }

  lemma {:induction false} SumOfLines(captures: seq<CaptureRecord>)
    ensures CaptureSum(captures, ImageLine()) == 103 * |captures|
    decreases captures
  {
    if captures != [] {
      SumOfLines(captures[1..]);
    }
  }

  /** The export of a session with this manifest: the terminator, the checksum
      list with a line of 80 octets for the manifest and one of 103 for every
      image, the manifest, and the images. */
  function SessionArchiveSize(manifest: Bytes, captures: seq<CaptureRecord>): nat {
    1024 + EntrySize(80 + 103 * |captures|) + EntrySize(|manifest|) + CaptureSum(captures, ImageWeight())
  }

  lemma NamedPath(captures: seq<CaptureRecord>, i: nat)
    requires Upkeep.Named(captures) && i < |captures| <= MAX_CAPTURE_COUNT
    ensures |captures[i].image.relativePath| == 36 && captures[i].image.relativePath != Paths.Manifest()
  {
    hide Revision.CaptureId, IsId;
    Revision.CaptureIdLength(i + 1, captures[i].image.sha256);
    assert |Paths.Manifest()| == 13;
  }

  lemma NamedApart(captures: seq<CaptureRecord>, i: nat, j: nat)
    requires Upkeep.Named(captures) && i < j < |captures| <= MAX_CAPTURE_COUNT
    ensures captures[i].image.relativePath != captures[j].image.relativePath
  {
    hide Paths.ImagePath, Revision.CaptureId, IsId;
    Revision.CaptureIdLength(i + 1, captures[i].image.sha256);
    Revision.CaptureIdLength(j + 1, captures[j].image.sha256);
    Upkeep.IdsDiffer(i + 1, captures[i].image.sha256, j + 1, captures[j].image.sha256);
    Paths.PathsDiffer(captures[i].captureId, captures[j].captureId, Repeat(48, 64), Repeat(48, 64));
  }

  lemma DaemonPaths(d: Disk, captures: seq<CaptureRecord>, env: Env)
    requires Upkeep.Named(captures) && |captures| <= MAX_CAPTURE_COUNT && AllHeld(d, captures, env)
    ensures PathsDistinct(captures) && Paths.Manifest() !in ImagePaths(captures)
    ensures Agree(d, captures, LineWeight(), ImageLine()) && Agree(d, captures, Weight(), ImageWeight())
  {
    hide Upkeep.Named, Paths.ImagePath, EntrySize, Paths.Manifest;
    forall i | 0 <= i < |captures|
      ensures captures[i].image.relativePath in d.files
      ensures |captures[i].image.relativePath| == 36 && captures[i].image.relativePath != Paths.Manifest()
      ensures |d.files[captures[i].image.relativePath]| == captures[i].image.bytes
    {
      assert ImageHeld(d, captures[i], env);
      NamedPath(captures, i);
    }
    forall i, j | 0 <= i < j < |captures| ensures captures[i].image.relativePath != captures[j].image.relativePath {
      NamedApart(captures, i, j);
    }
  }

  lemma StartSums(manifest: Bytes)
    ensures ItemSum(Start(manifest), LineWeight()) == 80 && ItemSum(Start(manifest), Weight()) == EntrySize(|manifest|)
    ensures Sorted(Start(manifest)) && Keys(Start(manifest)) == {Paths.Manifest()}
  {
    var t := Start(manifest);
    assert t[1..] == [] && |Paths.Manifest()| == 13;
    assert t[0].path in Keys(t);
    hide EntrySize, Paths.Manifest;
  }

  lemma GatheredSums(d: Disk, manifest: Bytes, captures: seq<CaptureRecord>, env: Env)
    requires Upkeep.Named(captures) && |captures| <= MAX_CAPTURE_COUNT && AllHeld(d, captures, env)
    requires Gather(d, captures, Start(manifest), env).Ok?
    ensures var t := Gather(d, captures, Start(manifest), env).value;
            && ItemSum(t, LineWeight()) == 80 + 103 * |captures|
            && ItemSum(t, Weight()) == EntrySize(|manifest|) + CaptureSum(captures, ImageWeight())
  {
    DaemonPaths(d, captures, env);
    StartSums(manifest);
    SumOfLines(captures);
    NotTheManifest(captures);
    hide *;
    GatheredSum(d, captures, Start(manifest), env, LineWeight(), ImageLine());
    GatheredSum(d, captures, Start(manifest), env, Weight(), ImageWeight());
  }

  lemma NotTheManifest(captures: seq<CaptureRecord>)
    requires Paths.Manifest() !in ImagePaths(captures)
    ensures forall i | 0 <= i < |captures| :: captures[i].image.relativePath !in {Paths.Manifest()}
  {
    forall i | 0 <= i < |captures| ensures captures[i].image.relativePath != Paths.Manifest() {
      assert captures[i].image.relativePath in ImagePaths(captures);
    }
  }

  lemma WithListSize(t: Tree, hash: Hash)
    requires Sums() !in Keys(t)
    ensures ItemSum(WithSums(t, hash), Weight())
         == ItemSum(t, Weight()) + EntrySize(ItemSum(t, LineWeight()))
  {
    ListLength(t, hash);
    SumOfInsert(t, Sums(), SumsText(t, hash), Weight());
    assert Weight()(Item(Sums(), SumsText(t, hash))) == EntrySize(|SumsText(t, hash)|);
    hide *;
    WithSumsIs(t, hash);
  }

  lemma WithSumsIs(t: Tree, hash: Hash)
    ensures WithSums(t, hash) == Insert(t, Sums(), SumsText(t, hash))
  {
    hide Insert;
  }

  /** The size of a session's archive, from its manifest alone. */
  lemma SessionLength(d: Disk, manifest: Bytes, captures: seq<CaptureRecord>, t: Tree, env: Env)
    requires Upkeep.Named(captures) && |captures| <= MAX_CAPTURE_COUNT && AllHeld(d, captures, env)
    requires Gather(d, captures, Start(manifest), env) == Ok(t) && Sums() !in Keys(t)
    ensures 1024 + ItemSum(WithSums(t, env.hash), Weight()) == SessionArchiveSize(manifest, captures)
  {
    hide Gather, WithSums, AllHeld, Sums, ItemSum, CaptureSum, EntrySize, Upkeep.Named, Start, Weight, ImageWeight,
         LineWeight, Keys;
    GatheredSums(d, manifest, captures, env);
    WithListSize(t, env.hash);
  }

  lemma EasyPaths(t: Tree, hash: Hash)
    requires Sorted(t) && forall p | p in Keys(t) :: IsEasy(p)
    ensures AllPaths(t) && AllRepresentable(WithSums(t, hash))
    ensures NoBreaks(t) && Sums() !in Keys(t)
  {
    SumsIsRepresentable();
    WithSumsIsSorted(t, hash);
    var all := WithSums(t, hash);
    hide Less, WithSums, Paths.IsObjectPath, Sums, Ustar.SplitPath;
    forall i | 0 <= i < |t| ensures Paths.IsObjectPath(t[i].path) && 10 !in t[i].path {
      assert t[i].path in Keys(t);
    }
    forall i | 0 <= i < |all| ensures IsRepresentable(all[i].path) {
      assert all[i].path in Keys(all);
    }
  }

  /** What gathering a safe session leads to. */
  lemma SessionTree(d: Disk, config: Config, env: Env) returns (t: Tree)
    requires Safe(d, config, env) && ManifestOf(d, env).Some?
    ensures var m := ManifestOf(d, env).value;
            && d.session && ManifestFile(d).Some? && CapturesOf(d, env) == m.captures
            && Gather(d, m.captures, Start(ManifestFile(d).value), env) == Ok(t)
            && AllSized(WithSums(t, env.hash)) && Sorted(t) && NoBreaks(t) && Sums() !in Keys(t) && IsExport(t, m, env)
            && forall p | p in Keys(t) :: IsEasy(p)
  {
    DaemonPathsAreEasy(d, config, env);
    var m := ManifestOf(d, env).value;
    var bytes := d.files[Paths.Manifest()];
    hide Safe, Gather, FromJson, AllHeld, IsEasy, Less, Built, AllSized, WithSums, Paths.Manifest, IsExport, NoBreaks,
         Sorted;
    GatherSucceeds(d, m.captures, Start(bytes), env);
    t := Gather(d, m.captures, Start(bytes), env).value;
    GatheredIsSized(d, m, t, env);
    ManifestEntry(d, m, t, env);
    EasyPaths(t, env.hash);
    assert Sums() !in ImagePaths(m.captures);
    GatheredIsExport(d, m, t, env);
  }

  lemma ExportIsBuilt(d: Disk, m: Evidence, t: Tree, env: Env)
    requires d.session && ManifestFile(d).Some? && ManifestOf(d, env) == Some(m)
    requires Gather(d, m.captures, Start(ManifestFile(d).value), env) == Ok(t)
    requires AllSized(WithSums(t, env.hash)) && NoBreaks(t) && IsExport(t, m, env)
    ensures ExportSession.Exported(d, env) == Built(t, env.hash)
  {
    hide Gather, FromJson, Built, AllSized, WithSums, Paths.Manifest, IsExport, NoBreaks, ArchiveVerified, Less;
    if Built(t, env.hash).Ok? {
      VerifyAfterBuild(t, m, env);
    }
  }

  /** On every disk a run of the daemon can leave, export succeeds exactly when
      the archive, whose size its manifest tells, is at most 512 MiB; it then has
      that size, and is otherwise refused for it. */
  lemma SessionExports(d: Disk, config: Config, env: Env)
    requires Safe(d, config, env) && ManifestOf(d, env).Some?
    ensures var size := SessionArchiveSize(ManifestFile(d).value, CapturesOf(d, env));
            if size <= 536_870_912
            then ExportSession.Exported(d, env).Ok? && |ExportSession.Exported(d, env).value| == size
            else ExportSession.Exported(d, env) == Err(Quota)
  {
    NamedOnDisk(d, config, env);
    hide Safe, Gather, IsEasy, Built, WithSums, IsExport, NoBreaks, Sorted, Upkeep.Named, SessionArchiveSize, ItemSum,
         AllHeld, ManifestOf, ManifestFile, AllSized, CapturesOf, AllPaths, AllRepresentable, ExportSession.Exported,
         Keys;
    var t := SessionTree(d, config, env);
    var m := ManifestOf(d, env).value;
    ExportIsBuilt(d, m, t, env);
    EasyPaths(t, env.hash);
    BuiltLength(t, env.hash);
    SessionLength(d, ManifestFile(d).value, m.captures, t, env);
  }
}
