/** Inputs for which the code misses what is said about it: each exact condition
    proved elsewhere does fail somewhere. */
module Counterexamples {
  import opened Bytes
  import opened Files
  import opened Manifest
  import opened Plans
  import opened Quota
  import opened Integrity
  import opened Tree
  import opened Tar
  import opened Archive
  import opened Export
  import opened ExportSession
  import Journal
  import JournalText
  import Nesting
  import Paths
  import Ustar
  import Utf8

  // ----- One small manifest -----

  /** One capture `A` of one octet. */
  function Sheet(path: Bytes, digest: Digest): Evidence {
    var capture := CaptureRecord([65], Window, 0, false, ImageEvidence(path, 1, digest), Dimensions(1, 1),
                                 Scale(1.0, 1.0), None, [], None);
    Evidence(1, [65], 0, [capture], None, [], [], None, None, Provenance(LocalCapture, [65], [65], [65], []))
  }

  lemma SheetIsValid(path: Bytes, digest: Digest)
    requires IsText(path, Paths.MAX_PATH_BYTES, false) && Paths.IsObjectPath(path)
    ensures Valid(Sheet(path, digest))
  {
    var m := Sheet(path, digest);
    Utf8.AsciiIsUtf8([65]);
    assert IsMetadata([65], MAX_PROVENANCE_TEXT_BYTES);
    hide IsText, Paths.IsObjectPath, IsMetadata;
    assert ValidImage(m.captures[0].image);
  }

  /** A deserializer that knows one text. */
  function Reads(text: Bytes, m: Evidence): ManifestParser {
    b => if b == text then Some(m) else None
  }

  function Blank(n: nat): (r: Bytes)
    ensures |r| == n
  {
    Repeat(32, n)
  }

  lemma BlankIsRead(n: nat, m: Evidence)
    requires n <= MAX_JSON_FRAME_BYTES && Valid(m)
    ensures FromJson(Blank(n), Reads(Blank(n), m)) == Some(m)
  {
    hide Valid;
    Nesting.NeutralRun(0, Blank(n));
  }

  // ----- An export that its own verification rejects -----

  function TwoLines(): Bytes { [97, 10, 98] }

  lemma TwoLinesIsAllowed()
    ensures IsText(TwoLines(), Paths.MAX_PATH_BYTES, false) && Paths.IsObjectPath(TwoLines())
  {
    Utf8.AsciiIsUtf8(TwoLines());
    Paths.SplitWhole(TwoLines(), Paths.SLASH);
  }

  function BrokenExport(): Tree {
    [Item(TwoLines(), [0]), Item(Paths.Manifest(), Blank(1))]
  }

  lemma {:induction false} FewBlocks(t: Tree)
    requires |t| <= 8 && forall i | 0 <= i < |t| :: IsRepresentable(t[i].path) && |t[i].data| <= 4096
    ensures AllSized(t) && Blocks(t).Ok? && |Blocks(t).value| <= 8192 * |t|
    decreases |t|
  {
    hide IsRepresentable, EntryBytes;
    assert Ustar.Eights(11) > 4096;
    if t != [] {
      FewBlocks(t[..|t| - 1]);
    }
  }

  lemma BrokenExportIsExport(hash: Hash, m: Evidence, env: Env)
    requires m == Sheet(TwoLines(), hash([0])) && env == Env(hash, JournalText.ParseLine, Reads(Blank(1), m))
    ensures IsExport(BrokenExport(), m, env)
  {
    var t := BrokenExport();
    TwoLinesIsAllowed();
    SheetIsValid(TwoLines(), hash([0]));
    BlankIsRead(1, m);
    hide Valid, FromJson, Reads;
    assert Paths.Manifest()[0] == 109 && TwoLines()[0] == 97 && Sums()[0] == 83;
    assert t[1..][0] == t[1];
    assert Get(t, Paths.Manifest()) == Some(t[1].data) && Get(t, TwoLines()) == Some(t[0].data);
    assert m.captures[0].image.relativePath == TwoLines();
    assert forall p | p in ImagePaths(m.captures) :: p == TwoLines();
    assert Keys(t) == {t[0].path, t[1].path};
  }

  lemma BrokenExportIsSmall(hash: Hash)
    ensures var all := WithSums(BrokenExport(), hash);
            |all| == 3 && forall i | 0 <= i < |all| :: IsRepresentable(all[i].path) && |all[i].data| <= 4096
    ensures AllPaths(BrokenExport())
  {
    var t := BrokenExport();
    TwoLinesIsAllowed();
    Paths.ManifestIsObjectPath();
    SumsIsRepresentable();
    hide Paths.IsObjectPath, IsText;
    TextIsShort(t, hash);
    hide SumsText;
    assert Paths.Manifest()[0] == 109 && TwoLines()[0] == 97 && Sums()[0] == 83;
    assert WithSums(t, hash) == [Item(Sums(), SumsText(t, hash))] + t;
    assert IsRepresentable(t[0].path) && IsRepresentable(t[1].path);
  }

  lemma BrokenExportIsBuilt(hash: Hash)
    ensures AllSized(WithSums(BrokenExport(), hash)) && Built(BrokenExport(), hash).Ok?
  {
    hide SumsText, Blocks, WithSums, BrokenExport, AllPaths, AllSized, IsRepresentable;
    BrokenExportIsSmall(hash);
    FewBlocks(WithSums(BrokenExport(), hash));
  }

  /** A valid manifest whose image path holds a newline, and whose export is
      built and then refused by `verify_archive`, whatever the hash. */
  lemma BrokenExportIsRefused(hash: Hash) returns (m: Evidence, env: Env)
    ensures env.hash == hash && IsExport(BrokenExport(), m, env) && AllSized(WithSums(BrokenExport(), hash))
    ensures Built(BrokenExport(), hash).Ok? && ArchiveVerified(Built(BrokenExport(), hash).value, env).Err?
  {
    var t := BrokenExport();
    m := Sheet(TwoLines(), hash([0]));
    env := Env(hash, JournalText.ParseLine, Reads(Blank(1), m));
    BrokenExportIsExport(hash, m, env);
    BrokenExportIsBuilt(hash);
    assert 10 in t[0].path;
    hide *;
    VerifyAfterBuild(BrokenExport(), m, env);
  }

  // ----- A revision that exceeds its quota -----

  const HEAVY := 4000

  /** A session of one published capture. */
  function SmallSession(manifest: Bytes, journal: Bytes): Disk {
    Disk(true, true, map[Paths.Manifest() := manifest, Paths.ImagePath([65]) := [0], Paths.Journal() := journal])
  }

  function HeavySession(hash: Hash): Disk {
    SmallSession(Blank(HEAVY), FirstLine(hash))
  }

  function FirstLine(hash: Hash): Bytes {
    Journal.JournalLine([], JournalText.CapturePublished, Paths.ImagePath([65]), [0], hash)
  }

  function HeavyEnv(hash: Hash): Env {
    Env(hash, JournalText.ParseLine, Reads(Blank(HEAVY), Sheet(Paths.ImagePath([65]), hash([0]))))
  }

  lemma EarlyLineIsShort(entries: seq<Journal.Entry>, operation: JournalText.Operation, path: Bytes, content: Bytes,
                         hash: Hash)
    requires Journal.NextSequence(entries) < 10 && |Journal.Head(entries)| == 64 && |path| <= 256
    ensures |Journal.JournalLine(entries, operation, path, content, hash)| < HEAVY
  {
    var line := Journal.LineFor(entries, operation, path, content, hash);
    hide JournalText.PrintBody, JournalText.PrintLine;
    JournalText.LineIsShort(line);
  }

  function FirstEntry(hash: Hash): Journal.Entry {
    Journal.EntryFor([], JournalText.CapturePublished, Paths.ImagePath([65]), [0], hash)
  }

  /** A journal of one line. */
  lemma OneLine(path: Bytes, hash: Hash)
    requires Paths.IsJournalPath(path) && Utf8.IsUtf8(path) && |path| <= 256
    ensures var line := Journal.JournalLine([], JournalText.CapturePublished, path, [0], hash);
            && |line| < HEAVY
            && Journal.Recovered(line, JournalText.ParseLine, hash)
               == Ok(Journal.Recovery([Journal.EntryFor([], JournalText.CapturePublished, path, [0], hash)], false))
  {
    EarlyLineIsShort([], JournalText.CapturePublished, path, [0], hash);
    Journal.EmptyJournal(JournalText.ParseLine, hash);
    Journal.CanonicalReadsBack();
    hide *;
    var line := Journal.JournalLine([], JournalText.CapturePublished, path, [0], hash);
    Journal.AppendIsAtomic([], JournalText.CapturePublished, path, [0], |line|, JournalText.ParseLine, hash);
    assert [] + line[..|line|] == line;
    assert [] + [Journal.EntryFor([], JournalText.CapturePublished, path, [0], hash)]
        == [Journal.EntryFor([], JournalText.CapturePublished, path, [0], hash)];
  }

  lemma FirstLineIsRecovered(hash: Hash)
    ensures Journal.Recovered(FirstLine(hash), JournalText.ParseLine, hash)
         == Ok(Journal.Recovery([FirstEntry(hash)], false))
    ensures |FirstLine(hash)| < HEAVY
  {
    assert IsId([65]);
    Paths.ImagePathIsObjectPath([65]);
    ImagePathIsUtf8([65]);
    hide Paths.ImagePath, Utf8.IsUtf8, Journal.Recovered, Journal.EntryFor, Journal.JournalLine;
    OneLine(Paths.ImagePath([65]), hash);
  }

  lemma ThreeFiles(a: Bytes, x: Bytes, b: Bytes, y: Bytes, c: Bytes, z: Bytes)
    requires a != b && b != c && c != a
    ensures Total(map[a := x, b := y, c := z]) == |x| + |y| + |z|
  {
    var files := map[a := x, b := y, c := z];
    TotalWithout(files, a);
    TotalWithout(files - {a}, b);
    TotalWithout(files - {a} - {b}, c);
    assert files - {a} - {b} - {c} == map[];
  }

  lemma HeavySize(hash: Hash)
    ensures Total(HeavySession(hash).files) == HEAVY + 1 + |FirstLine(hash)|
  {
    assert IsId([65]);
    KeysAreDistinct([65], Repeat(48, 64), Repeat(48, 64));
    hide *;
    hide Total;
    var blank := Blank(HEAVY);
    ThreeFiles(Paths.Manifest(), blank, Paths.ImagePath([65]), [0], Paths.Journal(), FirstLine(hash));
  }

  lemma FilesAre(manifest: Bytes, journal: Bytes)
    ensures var d := SmallSession(manifest, journal);
            && Paths.Journal() in d.files && JournalOf(d) == journal
            && ManifestFile(d) == Some(manifest) && ManifestSize(d) == |manifest|
            && Paths.ImagePath([65]) in d.files && d.files[Paths.ImagePath([65])] == [0]
  {
    assert IsId([65]);
    Paths.PathsDiffer([65], [65], Repeat(48, 64), Repeat(48, 64));
    hide Paths.ImagePath, Paths.Manifest, Paths.Journal;
  }

  lemma HeavyFiles(hash: Hash)
    ensures var d := HeavySession(hash);
            && Paths.Journal() in d.files && JournalOf(d) == FirstLine(hash)
            && ManifestFile(d) == Some(Blank(HEAVY)) && ManifestSize(d) == HEAVY
            && Paths.ImagePath([65]) in d.files && d.files[Paths.ImagePath([65])] == [0]
  {
    hide SmallSession, JournalOf, ManifestFile, ManifestSize, FirstLine, Paths.ImagePath, Paths.Journal;
    FilesAre(Blank(HEAVY), FirstLine(hash));
  }

  lemma NothingStale(hash: Hash)
    ensures StaleSize(HeavySession(hash), Blank(HEAVY), HeavyEnv(hash)) == 0
  {
    assert IsId([65]);
    var digest := hash(Blank(HEAVY));
    Paths.PathsDiffer([65], [65], digest, digest);
    hide Paths.ImagePath, Paths.Manifest, Paths.Journal, Paths.ManifestTemp, FirstLine, Sheet;
    assert digest == HeavyEnv(hash).hash(Blank(HEAVY));
    assert Paths.ManifestTemp(digest) !in HeavySession(hash).files;
  }

  lemma PrintableIsText(path: Bytes)
    requires 0 < |path| <= Paths.MAX_PATH_BYTES && Printable(path)
    ensures IsText(path, Paths.MAX_PATH_BYTES, false)
  {
    Utf8.AsciiIsUtf8(path);
  }

  predicate Printable(s: Bytes) {
    forall i | 0 <= i < |s| :: 32 <= s[i] < 127
  }

  lemma PrintableConcat(a: Bytes, b: Bytes)
    requires Printable(a) && Printable(b)
    ensures Printable(a + b)
  {
  }

  lemma PrintableName()
    ensures Printable(Paths.ImagePath([65])) && |Paths.ImagePath([65])| == 14
  {
    var captures, extension := Paths.Captures(), Ascii(".png");
    assert Printable(captures) && Printable(extension);
    hide Printable, Paths.Captures;
    PrintableConcat([65], extension);
    PrintableConcat([Paths.SLASH], [65] + extension);
    PrintableConcat(captures, [Paths.SLASH] + ([65] + extension));
  }

  lemma ImageNameIsText()
    ensures IsText(Paths.ImagePath([65]), Paths.MAX_PATH_BYTES, false) && Paths.IsObjectPath(Paths.ImagePath([65]))
  {
    assert IsId([65]);
    Paths.ImagePathIsObjectPath([65]);
    PrintableName();
    hide Paths.IsObjectPath, IsText, Paths.ImagePath;
    PrintableIsText(Paths.ImagePath([65]));
  }

  lemma HeavyManifest(hash: Hash)
    ensures FromJson(Blank(HEAVY), HeavyEnv(hash).parseManifest) == Some(Sheet(Paths.ImagePath([65]), hash([0])))
  {
    var m := Sheet(Paths.ImagePath([65]), hash([0]));
    ImageNameIsText();
    hide Paths.ImagePath, IsText, Valid, FromJson, Reads, Paths.IsObjectPath;
    SheetIsValid(Paths.ImagePath([65]), hash([0]));
    hide Sheet;
    BlankIsRead(HEAVY, m);
  }

  lemma HeavyEntries(hash: Hash)
    ensures EntriesOf(HeavySession(hash), HeavyEnv(hash)) == [FirstEntry(hash)]
    ensures RecoveryError(HeavySession(hash), HeavyEnv(hash)) == None
  {
    HeavyFiles(hash);
    FirstLineIsRecovered(hash);
    hide FirstLine, Journal.Recovered, HeavySession, StaleSize, FirstEntry, ManifestSize, Sheet;
  }

  lemma HeavyCaptures(hash: Hash)
    ensures ManifestOf(HeavySession(hash), HeavyEnv(hash)) == Some(Sheet(Paths.ImagePath([65]), hash([0])))
  {
    HeavyFiles(hash);
    HeavyManifest(hash);
    hide ManifestFile, FromJson, HeavySession, HeavyEnv, Sheet, JournalOf, ManifestSize, Paths.ImagePath, FirstLine,
         Paths.Journal;
  }

  lemma OneCaptureIsIntegral(d: Disk, c: CaptureRecord, e: Journal.Entry, env: Env)
    requires d.session && CapturesOf(d, env) == [c] && ManifestOf(d, env).Some? && ImageHeld(d, c, env)
    requires Journal.Recovered(JournalOf(d), env.parseLine, env.hash).Ok? && EntriesOf(d, env) == [e]
    requires Records(e, c) && EntryHeld(d, e, env)
    ensures Integral(d, env)
  {
    hide CapturesOf, ManifestOf, EntriesOf, ImageHeld, EntryHeld, Journal.Recovered;
    assert Records(EntriesOf(d, env)[0], c);
    assert Journaled(EntriesOf(d, env), c);
  }

  lemma FirstEntryRecords(d: Disk, hash: Hash, env: Env)
    requires env.hash == hash && Paths.ImagePath([65]) in d.files && d.files[Paths.ImagePath([65])] == [0]
    ensures var c := Sheet(Paths.ImagePath([65]), hash([0])).captures[0];
            ImageHeld(d, c, env) && Records(FirstEntry(hash), c) && EntryHeld(d, FirstEntry(hash), env)
  {
    assert IsId([65]);
    KeysAreDistinct([65], Repeat(48, 64), Repeat(48, 64));
    hide Paths.ImagePath, IsImageKey, Journal.Head, JournalText.PrintBody;
  }

  lemma HeavyIsIntegral(hash: Hash)
    ensures Integral(HeavySession(hash), HeavyEnv(hash))
  {
    var d, env, path := HeavySession(hash), HeavyEnv(hash), Paths.ImagePath([65]);
    HeavyFiles(hash);
    FirstEntryRecords(d, hash, env);
    HeavyCaptures(hash);
    HeavyEntries(hash);
    assert d.session;
    hide Paths.ImagePath, FirstLine, FirstEntry, ManifestOf, EntriesOf, ManifestFile, Integral, JournalOf, HeavySession,
         Paths.Journal, Paths.Manifest, Reads, ImageHeld, EntryHeld, Records, ManifestSize, Journal.Recovered;
    OneCaptureIsIntegral(d, Sheet(path, hash([0])).captures[0], FirstEntry(hash), env);
  }

  lemma HeavyLineIsShort(hash: Hash)
    ensures |ManifestLine([FirstEntry(hash)], Blank(HEAVY), HeavyEnv(hash))| < HEAVY
  {
    hide Journal.JournalLine;
    EarlyLineIsShort([FirstEntry(hash)], JournalText.ManifestPublished, Paths.Manifest(), Blank(HEAVY), hash);
  }

  lemma HeavyIsAdmitted(hash: Hash)
    ensures var d, env := HeavySession(hash), HeavyEnv(hash);
            && ReplaceGuard(d, Blank(HEAVY), Config(1, 1, 1, TightQuota(d, Blank(HEAVY), env)), env) == None
            && OldOutweighsLine(d, Blank(HEAVY), env)
            && Total(d.files) <= TightQuota(d, Blank(HEAVY), env)
  {
    HeavyFiles(hash);
    HeavySize(hash);
    NothingStale(hash);
    HeavyManifest(hash);
    HeavyEntries(hash);
    HeavyLineIsShort(hash);
    FirstLineIsRecovered(hash);
    assert HeavySession(hash).session;
    hide HeavySession, HeavyEnv, FromJson, RecoveryError, ManifestLine, StaleSize, FirstLine, EntriesOf, FirstEntry,
         Total, Sheet, ManifestSize, JournalOf, ManifestFile;
  }

  /** A session with integrity and within its quota, and a revision of it that
      the store admits and that exceeds the quota before its rename, whatever the
      hash. */
  lemma HeavyRevisionExceeds(hash: Hash) returns (config: Config)
    ensures Integral(HeavySession(hash), HeavyEnv(hash)) && Total(HeavySession(hash).files) <= config.maxBundleBytes
    ensures ReplaceGuard(HeavySession(hash), Blank(HEAVY), config, HeavyEnv(hash)) == None
    ensures !AlwaysWithin(HeavySession(hash),
                          RevisionPlan(HeavySession(hash), Blank(HEAVY), config, HeavyEnv(hash)).ops,
                          config.maxBundleBytes)
  {
    var d, env, blank := HeavySession(hash), HeavyEnv(hash), Blank(HEAVY);
    config := Config(1, 1, 1, TightQuota(d, blank, env));
    HeavyIsAdmitted(hash);
    HeavyIsIntegral(hash);
    hide *;
    TightQuotaIsExceeded(d, blank, config, env);
  }
}
