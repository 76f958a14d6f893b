/** Evidence integrity at every point a store operation may stop. */
module Integrity {
  import opened Bytes
  import opened Files
  import opened JournalText
  import opened Journal
  import opened Manifest
  import opened Plans
  import opened Quota
  import Paths
  import Utf8

  // ----- What the disk must always satisfy -----

  /** A path of a published image, as opposed to a temporary file, the manifest
      or the journal. */
  predicate IsImageKey(path: Bytes) {
    |path| > 9 && path[0] == 99 && path[9] != Paths.DOT
  }

  function ManifestFile(d: Disk): Option<Bytes> {
    if Paths.Manifest() in d.files then Some(d.files[Paths.Manifest()]) else None
  }

  function ManifestOf(d: Disk, env: Env): Option<Evidence> {
    if ManifestFile(d).Some? then FromJson(ManifestFile(d).value, env.parseManifest) else None
  }

  function CapturesOf(d: Disk, env: Env): seq<CaptureRecord> {
    if ManifestOf(d, env).Some? then ManifestOf(d, env).value.captures else []
  }

  /** The image that a capture record cites lies on disk and matches it. */
  predicate ImageHeld(d: Disk, c: CaptureRecord, env: Env) {
    var path := c.image.relativePath;
    path == Paths.ImagePath(c.captureId) && path in d.files && ImageMatches(d.files[path], c.image, env)
  }

  predicate AllHeld(d: Disk, captures: seq<CaptureRecord>, env: Env) {
    forall i | 0 <= i < |captures| :: ImageHeld(d, captures[i], env)
  }

  /** Whatever manifest lies on disk is valid and every image it cites is there. */
  predicate Sound(d: Disk, env: Env) {
    ManifestFile(d).Some? ==>
      d.session && ManifestOf(d, env).Some? && AllHeld(d, CapturesOf(d, env), env)
  }

  predicate EntryHeld(d: Disk, e: Entry, env: Env) {
    e.operation == CapturePublished ==>
      IsImageKey(e.relativePath) && e.relativePath in d.files && env.hash(d.files[e.relativePath]) == e.contentSha256
  }

  predicate EntriesHeld(d: Disk, entries: seq<Entry>, env: Env) {
    forall i | 0 <= i < |entries| :: EntryHeld(d, entries[i], env)
  }

  predicate Records(e: Entry, c: CaptureRecord) {
    e.operation == CapturePublished && e.relativePath == c.image.relativePath && e.contentSha256 == c.image.sha256
  }

  ghost predicate Journaled(entries: seq<Entry>, c: CaptureRecord) {
    exists i :: 0 <= i < |entries| && Records(entries[i], c)
  }

  ghost predicate AllJournaled(entries: seq<Entry>, captures: seq<CaptureRecord>) {
    forall i | 0 <= i < |captures| :: Journaled(entries, captures[i])
  }

  /** While the journal is within the recovery bound it is recoverable, every
      image it records is on disk with that digest, and every capture of the
      manifest is recorded. */
  ghost predicate Audited(d: Disk, env: Env) {
    Paths.Journal() in d.files && |JournalOf(d)| <= MAX_JOURNAL_BYTES ==>
      && Recovered(JournalOf(d), env.parseLine, env.hash).Ok?
      && EntriesHeld(d, EntriesOf(d, env), env)
      && AllJournaled(EntriesOf(d, env), CapturesOf(d, env))
  }

  ghost predicate Integral(d: Disk, env: Env) {
    Sound(d, env) && Audited(d, env)
  }

  /** With integrity, every capture of the manifest can be read back. */
  lemma IntegralReads(d: Disk, id: Bytes, env: Env)
    requires Sound(d, env) && IsId(id) && Has(CapturesOf(d, env), id)
    ensures var c := Lookup(CapturesOf(d, env), id).value;
            ReadCapture(d, id, env) == Ok(d.files[Paths.ImagePath(id)]) && Paths.ImagePath(id) in d.files
            && |d.files[Paths.ImagePath(id)]| == c.image.bytes
            && env.hash(d.files[Paths.ImagePath(id)]) == c.image.sha256
  {
    var c := Lookup(CapturesOf(d, env), id).value;
    var i :| 0 <= i < |CapturesOf(d, env)| && CapturesOf(d, env)[i] == c;
    hide Paths.ImagePath, Paths.Manifest, FromJson, Lookup, IsId;
    assert ImageHeld(d, CapturesOf(d, env)[i], env);
  }

  // ----- Frames -----

  /** The same files outside `keys`. */
  predicate Agrees(d: Disk, s: Disk, keys: set<Bytes>) {
    && s.session == d.session
    && (forall k | k in d.files :: k !in keys ==> k in s.files && s.files[k] == d.files[k])
    && (forall k | k in s.files :: k !in keys ==> k in d.files)
  }

  /** Every image is still there, unchanged. */
  predicate KeepsImages(d: Disk, s: Disk) {
    forall k | k in d.files :: IsImageKey(k) ==> k in s.files && s.files[k] == d.files[k]
  }

  predicate SameFile(d: Disk, s: Disk, path: Bytes) {
    (path in d.files <==> path in s.files) && (path in d.files ==> d.files[path] == s.files[path])
  }

  lemma KeysAreDistinct(id: Bytes, image: Digest, manifest: Digest)
    requires IsId(id)
    ensures IsImageKey(Paths.ImagePath(id))
    ensures !IsImageKey(Paths.ImageTemp(image)) && !IsImageKey(Paths.ManifestTemp(manifest))
    ensures !IsImageKey(Paths.Manifest()) && !IsImageKey(Paths.Journal())
    ensures Paths.ImagePath(id) !in {Paths.ImageTemp(image), Paths.ManifestTemp(manifest), Paths.Journal(),
                                     Paths.Manifest()}
    ensures Paths.ImageTemp(image) !in {Paths.ManifestTemp(manifest), Paths.Journal(), Paths.Manifest()}
    ensures Paths.ManifestTemp(manifest) !in {Paths.Journal(), Paths.Manifest()}
    ensures Paths.Journal() != Paths.Manifest()
  {
    Paths.PathsDiffer(id, id, image, manifest);
    assert Paths.ImagePath(id)[9] == id[0];
  }

  lemma HeldFrame(d: Disk, s: Disk, captures: seq<CaptureRecord>, env: Env)
    requires AllHeld(d, captures, env) && KeepsImages(d, s)
    requires forall i | 0 <= i < |captures| :: IsId(captures[i].captureId)
    ensures AllHeld(s, captures, env)
  {
    hide IsImageKey, Paths.ImagePath, ImageMatches, IsId;
    forall i | 0 <= i < |captures| ensures ImageHeld(s, captures[i], env) {
      assert ImageHeld(d, captures[i], env);
      KeysAreDistinct(captures[i].captureId, Repeat(48, 64), Repeat(48, 64));
    }
  }

  lemma ManifestIds(d: Disk, env: Env)
    ensures forall i | 0 <= i < |CapturesOf(d, env)| :: IsId(CapturesOf(d, env)[i].captureId)
  {
    hide IsId, Nesting.NestingWithinLimit, FindingsOk, AgentFindingsOk, ValidProvenance, ComparisonOk, BeforeAfterOk,
         NoteOk;
  }

  lemma SoundFrame(d: Disk, s: Disk, env: Env)
    requires Sound(d, env) && KeepsImages(d, s) && ManifestFile(s) == ManifestFile(d) && (d.session ==> s.session)
    ensures Sound(s, env)
  {
    ManifestIds(d, env);
    hide IsId, FromJson, Paths.Manifest, ImageHeld, AllHeld, KeepsImages;
    if Paths.Manifest() in d.files {
      HeldFrame(d, s, CapturesOf(d, env), env);
    }
  }

  lemma EntriesFrame(d: Disk, s: Disk, entries: seq<Entry>, env: Env)
    requires EntriesHeld(d, entries, env) && KeepsImages(d, s)
    ensures EntriesHeld(s, entries, env)
  {
    hide IsImageKey;
    forall i | 0 <= i < |entries| ensures EntryHeld(s, entries[i], env) {
      assert EntryHeld(d, entries[i], env);
    }
  }

  /** Nothing the invariant speaks of has changed. */
  lemma IntegralFrame(d: Disk, s: Disk, env: Env)
    requires Integral(d, env) && KeepsImages(d, s) && (d.session ==> s.session)
    requires SameFile(d, s, Paths.Manifest()) && SameFile(d, s, Paths.Journal())
    ensures Integral(s, env) && ManifestFile(s) == ManifestFile(d)
  {
    SoundFrame(d, s, env);
    hide Sound, CapturesOf, FromJson, Recovered, Paths.Manifest, Paths.Journal, EntriesHeld, AllJournaled, KeepsImages;
    assert JournalOf(s) == JournalOf(d);
    if Paths.Journal() in d.files && |JournalOf(d)| <= MAX_JOURNAL_BYTES {
      EntriesFrame(d, s, EntriesOf(d, env), env);
    }
  }

  // ----- States along each segment -----

  lemma WriteStates(d: Disk, path: Bytes, temp: Bytes, content: Bytes, n: nat)
    requires temp != path
    ensures var s := Effects(d, WriteOps(path, temp, content), n);
            && Agrees(d, s, {temp, path})
            && (n < |content| + 2 ==> SameFile(d, s, path))
            && (n >= |content| + 2 ==> s == Put(WithoutTemp(d, temp), path, content))
    ensures CostAll(WriteOps(path, temp, content)) == |content| + 2
  {
    var ops := WriteOps(path, temp, content);
    var a, b := ops[..1], ops[1..];
    assert b[1..] == [ops[2]] && [ops[2]][1..] == [];
    assert CostAll([ops[2]]) == 1 && CostAll(b) == |content| + 1;
    if n >= |content| + 2 {
      EffectsAll(d, ops, n);
      WriteRuns(d, path, temp, content);
    } else if n > 0 {
      var d1 := Put(d, temp, []);
      assert Effects(d, ops, n) == Effects(d1, b, n - 1);
      assert b[0] == Append(temp, content);
      if n - 1 < |content| {
        assert Effects(d1, b, n - 1) == Put(d1, temp, [] + content[..n - 1]);
      } else {
        var d2 := Put(d1, temp, [] + content);
        assert Effects(d1, b, n - 1) == Effects(d2, [ops[2]], 0) == d2;
      }
    }
  }

  /** Along an append only the journal changes: it is as it was, or it is the
      repaired journal and a prefix of the new line. */
  ghost predicate Appending(d: Disk, s: Disk, line: Bytes) {
    s == d || exists p :: 0 <= p <= |line| && s == Put(d, Paths.Journal(), Repaired(JournalOf(d)) + line[..p])
  }

  function Least(n: nat, k: nat): nat {
    if n < k then n else k
  }

  lemma LineStates(d: Disk, path: Bytes, line: Bytes, n: nat)
    requires path in d.files
    ensures Effects(d, [Append(path, line)], n) == Put(d, path, d.files[path] + line[..Least(n, |line|)])
  {
    var ops := [Append(path, line)];
    assert ops[1..] == [];
    assert line[..|line|] == line;
    if n >= |line| {
      assert Effects(d, ops, n) == Effects(Apply(ops[0], d), [], n - |line|);
    }
  }

  lemma TornAppendStates(d: Disk, line: Bytes, n: nat)
    requires Paths.Journal() in d.files
    ensures var base := Repaired(JournalOf(d));
            Appending(d, Effects(d, [SetLength(Paths.Journal(), |base|)] + [Append(Paths.Journal(), line)], n), line)
  {
    hide Paths.Journal, Repaired, RunAll, CostAll, Effects;
    var j := Paths.Journal();
    var base := Repaired(JournalOf(d));
    var repair, append := [SetLength(j, |base|)], [Append(j, line)];
    RepairStates(d, base, n);
    EffectsConcat(d, repair, append, n);
    if n > 0 {
      var d1 := Put(d, j, base);
      LineStates(d1, j, line, n - 1);
      var p := Least(n - 1, |line|);
      assert Put(d1, j, base + line[..p]) == Put(d, j, base + line[..p]);
    }
  }

  lemma AppendStates(d: Disk, operation: Operation, path: Bytes, content: Bytes, env: Env, n: nat)
    requires Paths.Journal() in d.files
    ensures Appending(d, Effects(d, AppendPlan(d, operation, path, content, env).ops, n),
                      JournalLine(EntriesOf(d, env), operation, path, content, env.hash))
  {
    hide Recovered, JournalLine, Paths.IsJournalPath, Paths.Journal, Repaired, Effects;
    var plan := AppendPlan(d, operation, path, content, env);
    var line := JournalLine(EntriesOf(d, env), operation, path, content, env.hash);
    var j := Paths.Journal();
    if plan.error == None {
      if Recovered(JournalOf(d), env.parseLine, env.hash).value.ignoredTruncatedTail {
        var base := Repaired(JournalOf(d));
        var repair, append := [SetLength(j, |base|)], [Append(j, line)];
        assert plan.ops == repair + append;
        hide AppendPlan;
        TornAppendStates(d, line, n);
      } else {
        NoTornTail(JournalOf(d), env);
        assert plan.ops == [Append(j, line)];
        LineStates(d, j, line, n);
      }
    } else {
      NothingRuns(d, n);
    }
  }

  lemma RepairStates(d: Disk, base: Bytes, n: nat)
    requires Paths.Journal() in d.files && base == Repaired(JournalOf(d))
    ensures var repair := [SetLength(Paths.Journal(), |base|)];
            && CostAll(repair) == 1 && RunAll(d, repair) == Put(d, Paths.Journal(), base)
            && (n < 1 ==> Effects(d, repair, n) == d)
  {
    hide Paths.Journal;
    var repair := [SetLength(Paths.Journal(), |base|)];
    RepairedIsPrefix(JournalOf(d));
    hide Repaired;
    assert repair[1..] == [];
    assert d.files[Paths.Journal()][..|base|] == base;
  }

  // ----- Appending keeps integrity -----

  lemma JournaledGrows(entries: seq<Entry>, e: Entry, captures: seq<CaptureRecord>)
    requires AllJournaled(entries, captures)
    ensures AllJournaled(entries + [e], captures)
  {
    hide Records;
    forall i | 0 <= i < |captures| ensures Journaled(entries + [e], captures[i]) {
      var k :| 0 <= k < |entries| && Records(entries[k], captures[i]);
      assert (entries + [e])[k] == entries[k];
    }
  }

  /** The new entry records what is on disk, if it records an image. */
  predicate Truthful(d: Disk, operation: Operation, path: Bytes, content: Bytes) {
    operation == CapturePublished ==> IsImageKey(path) && path in d.files && d.files[path] == content
  }

  lemma AuditedPrefix(d: Disk, operation: Operation, path: Bytes, content: Bytes, env: Env, p: nat)
    requires Audited(d, env) && ReadsBack(env.parseLine) && Truthful(d, operation, path, content)
    requires Paths.Journal() in d.files && Recovered(JournalOf(d), env.parseLine, env.hash).Ok?
    requires Paths.IsJournalPath(path) && Utf8.IsUtf8(path)
    requires p <= |JournalLine(EntriesOf(d, env), operation, path, content, env.hash)|
    ensures var line := JournalLine(EntriesOf(d, env), operation, path, content, env.hash);
            Audited(Put(d, Paths.Journal(), Repaired(JournalOf(d)) + line[..p]), env)
  {
    hide Recovered, Repaired, JournalLine, FromJson, Paths.IsJournalPath, Utf8.IsUtf8, KeepsImages, AllJournaled,
         EntriesHeld;
    var line := JournalLine(EntriesOf(d, env), operation, path, content, env.hash);
    var base := Repaired(JournalOf(d));
    var s := Put(d, Paths.Journal(), base + line[..p]);
    assert JournalOf(s) == base + line[..p];
    if |base| + p <= MAX_JOURNAL_BYTES {
      AppendIsAtomic(JournalOf(d), operation, path, content, p, env.parseLine, env.hash);
      var entries := EntriesOf(d, env);
      var e := EntryFor(entries, operation, path, content, env.hash);
      assert EntryHeld(d, e, env);
      assert Paths.Manifest()[0] != Paths.Journal()[0];
      assert ManifestFile(s) == ManifestFile(d) by {
        hide Paths.Manifest, Paths.Journal, FromJson;
      }
      assert KeepsImages(d, s) by { JournalIsNoImage(d, base + line[..p]); }
      hide Paths.Journal, Paths.Manifest, EntryFor, CapturesOf, EntryHeld;
      assert |JournalOf(d)| <= MAX_JOURNAL_BYTES by {
        RecoveredFits(JournalOf(d), env);
      }
      JournaledGrows(entries, e, CapturesOf(d, env));
      EntriesConcat(d, entries, e, env);
      EntriesFrame(d, s, entries, env);
      EntriesFrame(d, s, entries + [e], env);
    }
  }

  lemma EntriesConcat(d: Disk, entries: seq<Entry>, e: Entry, env: Env)
    requires EntriesHeld(d, entries, env) && EntryHeld(d, e, env)
    ensures EntriesHeld(d, entries + [e], env)
  {
  }

  lemma JournalIsNoImage(d: Disk, bytes: Bytes)
    ensures KeepsImages(d, Put(d, Paths.Journal(), bytes))
  {
  }

  lemma RecoveredFits(bytes: Bytes, env: Env)
    requires Recovered(bytes, env.parseLine, env.hash).Ok?
    ensures |bytes| <= MAX_JOURNAL_BYTES
  {
  }

  /** At every point of an append the disk keeps its integrity. */
  lemma AppendKeepsIntegrity(d: Disk, operation: Operation, path: Bytes, content: Bytes, env: Env, n: nat)
    requires Integral(d, env) && ReadsBack(env.parseLine) && Truthful(d, operation, path, content)
    requires Paths.Journal() in d.files && Utf8.IsUtf8(path)
    ensures var s := Effects(d, AppendPlan(d, operation, path, content, env).ops, n);
            Integral(s, env) && ManifestFile(s) == ManifestFile(d) && Agrees(d, s, {Paths.Journal()})
  {
    hide Repaired, JournalLine, Audited, FromJson, Recovered, Paths.IsJournalPath, Utf8.IsUtf8, Sound, Truthful;
    var s := Effects(d, AppendPlan(d, operation, path, content, env).ops, n);
    var line := JournalLine(EntriesOf(d, env), operation, path, content, env.hash);
    if AppendPlan(d, operation, path, content, env).error == None {
      AppendStates(d, operation, path, content, env, n);
      if s != d {
        var p :| 0 <= p <= |line| && s == Put(d, Paths.Journal(), Repaired(JournalOf(d)) + line[..p]);
        AuditedPrefix(d, operation, path, content, env, p);
        KeysAreDistinct([65], Repeat(48, 64), Repeat(48, 64));
        hide Paths.Manifest, Paths.Journal, Repaired, JournalLine, Audited, FromJson, IsImageKey, AppendPlan, Effects;
        SoundFrame(d, s, env);
      }
    } else {
      assert s == d;
    }
  }

  lemma NothingRuns(d: Disk, n: nat)
    ensures Effects(d, [], n) == d
  {
  }

  // ----- The image -----

  lemma ImageKeepsIntegrity(d: Disk, id: Bytes, image: Bytes, env: Env, n: nat)
    requires Integral(d, env) && IsId(id) && ImagePlan(d, id, image, env).error == None
    ensures var s := Effects(d, ImagePlan(d, id, image, env).ops, n);
            Integral(s, env) && ManifestFile(s) == ManifestFile(d)
  {
    hide Integral, CapturesOf, IsImageKey, Effects, IsId, Paths.ImagePath, Paths.ImageTemp, Paths.Manifest,
         Paths.Journal;
    var s := Effects(d, ImagePlan(d, id, image, env).ops, n);
    KeysAreDistinct(id, env.hash(image), env.hash(image));
    WriteStates(d, Paths.ImagePath(id), Paths.ImageTemp(env.hash(image)), image, n);
    IntegralFrame(d, s, env);
  }

  /** The image is in place before anything cites it: at every point of the
      first two steps of a publication the old evidence stands. */
  lemma CaptureKeepsIntegrity(d: Disk, id: Bytes, image: Bytes, env: Env, n: nat)
    requires Integral(d, env) && ReadsBack(env.parseLine) && IsId(id) && Paths.Journal() in d.files
    ensures var s := Effects(d, CaptureWrites(d, id, image, env).ops, n);
            Integral(s, env) && ManifestFile(s) == ManifestFile(d)
  {
    hide Integral, CapturesOf, IsImageKey, Effects, IsId, Paths.ImagePath, Paths.Journal, AppendPlan, Utf8.IsUtf8,
         RunAll;
    var a := ImagePlan(d, id, image, env);
    if a.error == None {
      ImageSegment(d, id, image, env);
      var d1 := ImageWritten(d, id, image);
      KeysAreDistinct(id, env.hash(image), env.hash(image));
      var b := AppendPlan(d1, CapturePublished, Paths.ImagePath(id), image, env);
      EffectsConcat(d, a.ops, b.ops, n);
      if n < CostAll(a.ops) {
        ImageKeepsIntegrity(d, id, image, env, n);
      } else {
        ImageKeepsIntegrity(d, id, image, env, CostAll(a.ops));
        EffectsAll(d, a.ops, CostAll(a.ops));
        ImagePathIsUtf8(id);
        AppendKeepsIntegrity(d1, CapturePublished, Paths.ImagePath(id), image, env, n - CostAll(a.ops));
      }
    } else {
      NothingRuns(d, n);
    }
  }

  // ----- The manifest -----

  /** The manifest changes once, at the rename. */
  function SwitchPoint(d: Disk, manifest: Bytes, env: Env): nat {
    CostAll(ManifestPlan(d, manifest, env).ops)
  }

  lemma StaleStates(d: Disk, path: Bytes, temp: Bytes, content: Bytes, n: nat)
    requires temp != path
    ensures var ops := [Remove(temp)] + WriteOps(path, temp, content);
            var s := Effects(d, ops, n);
            && Agrees(d, s, {temp, path})
            && (n < CostAll(ops) ==> SameFile(d, s, path))
            && (n >= CostAll(ops) ==> s == Put(WithoutTemp(d, temp), path, content))
  {
    hide Effects, CostAll, RunAll, WriteOps;
    var remove, write := [Remove(temp)], WriteOps(path, temp, content);
    var d1 := WithoutTemp(d, temp);
    RemoveStates(d, temp, n);
    EffectsConcat(d, remove, write, n);
    CostConcat(remove, write);
    WriteStates(d1, path, temp, content, if n >= 1 then n - 1 else 0);
    assert WithoutTemp(d1, temp) == d1;
  }

  lemma ManifestStates(d: Disk, manifest: Bytes, env: Env, n: nat)
    ensures var s := Effects(d, ManifestPlan(d, manifest, env).ops, n);
            && Agrees(d, s, {Paths.ManifestTemp(env.hash(manifest)), Paths.Manifest()})
            && (n < SwitchPoint(d, manifest, env) ==> SameFile(d, s, Paths.Manifest()))
            && (n >= SwitchPoint(d, manifest, env) ==> s == ManifestWritten(d, manifest, env))
  {
    KeysAreDistinct([65], env.hash(manifest), env.hash(manifest));
    var temp := Paths.ManifestTemp(env.hash(manifest));
    var write := WriteOps(Paths.Manifest(), temp, manifest);
    hide Paths.ManifestTemp, Paths.Manifest, Effects, CostAll, RunAll;
    if temp in d.files {
      StaleStates(d, Paths.Manifest(), temp, manifest, n);
    } else {
      assert [] + write == write;
      WriteStates(d, Paths.Manifest(), temp, manifest, n);
    }
  }

  lemma RemoveStates(d: Disk, temp: Bytes, n: nat)
    ensures CostAll([Remove(temp)]) == 1 && RunAll(d, [Remove(temp)]) == WithoutTemp(d, temp)
    ensures n == 0 ==> Effects(d, [Remove(temp)], n) == d
  {
    assert [Remove(temp)][1..] == [];
  }

  /** The new manifest in place: it must cite only what is there. */
  lemma SwitchKeepsIntegrity(d: Disk, manifest: Bytes, env: Env)
    requires Integral(d, env) && d.session && Paths.Journal() in d.files
    requires FromJson(manifest, env.parseManifest).Some?
    requires var captures := FromJson(manifest, env.parseManifest).value.captures;
             AllHeld(d, captures, env)
                 && (|JournalOf(d)| <= MAX_JOURNAL_BYTES ==> AllJournaled(EntriesOf(d, env), captures))
    ensures var s := ManifestWritten(d, manifest, env);
            && Integral(s, env) && ManifestFile(s) == Some(manifest)
            && Paths.Journal() in s.files && JournalOf(s) == JournalOf(d)
  {
    KeysAreDistinct([65], env.hash(manifest), env.hash(manifest));
    var s := ManifestWritten(d, manifest, env);
    var captures := FromJson(manifest, env.parseManifest).value.captures;
    hide Paths.Manifest, Paths.Journal, Paths.ManifestTemp, IsImageKey, Recovered, FromJson, AllJournaled, EntryHeld,
         AllHeld, IsId;
    assert KeepsImages(d, s);
    assert CapturesOf(s, env) == captures;
    ManifestIds(s, env);
    hide KeepsImages;
    HeldFrame(d, s, captures, env);
    if |JournalOf(d)| <= MAX_JOURNAL_BYTES {
      EntriesFrame(d, s, EntriesOf(d, env), env);
    }
  }

  /** At every point of writing a manifest and its journal line, either the old
      manifest stands or the new one does, with all its evidence. */
  lemma ManifestKeepsIntegrity(d: Disk, manifest: Bytes, env: Env, n: nat)
    requires Integral(d, env) && ReadsBack(env.parseLine) && d.session && Paths.Journal() in d.files
    requires FromJson(manifest, env.parseManifest).Some?
    requires var captures := FromJson(manifest, env.parseManifest).value.captures;
             AllHeld(d, captures, env)
                 && (|JournalOf(d)| <= MAX_JOURNAL_BYTES ==> AllJournaled(EntriesOf(d, env), captures))
    ensures var s := Effects(d, ManifestWrites(d, manifest, env).ops, n);
            && Integral(s, env)
            && ManifestFile(s) == if n < SwitchPoint(d, manifest, env) then ManifestFile(d) else Some(manifest)
  {
    hide Integral, CapturesOf, IsImageKey, Effects, Paths.Manifest, Paths.Journal, Paths.ManifestTemp, AppendPlan,
         RunAll, FromJson, AllHeld, AllJournaled, EntriesOf, Truthful, Utf8.IsUtf8;
    var a := ManifestPlan(d, manifest, env);
    var d1 := ManifestWritten(d, manifest, env);
    ManifestSegment(d, manifest, env);
    var b := AppendPlan(d1, ManifestPublished, Paths.Manifest(), manifest, env);
    EffectsConcat(d, a.ops, b.ops, n);
    KeysAreDistinct([65], env.hash(manifest), env.hash(manifest));
    if n < SwitchPoint(d, manifest, env) {
      ManifestStates(d, manifest, env, n);
      IntegralFrame(d, Effects(d, a.ops, n), env);
    } else {
      SwitchKeepsIntegrity(d, manifest, env);
      ManifestNameIsUtf8();
      assert Truthful(d1, ManifestPublished, Paths.Manifest(), manifest) by { Untold(d1, manifest); }
      AppendKeepsIntegrity(d1, ManifestPublished, Paths.Manifest(), manifest, env, n - CostAll(a.ops));
    }
  }

  lemma Untold(d: Disk, manifest: Bytes)
    ensures Truthful(d, ManifestPublished, Paths.Manifest(), manifest)
  {
  }

  lemma ManifestNameIsUtf8()
    ensures Utf8.IsUtf8(Paths.Manifest())
  {
    var p := Paths.Manifest();
    hide Utf8.IsUtf8;
    assert forall i | 0 <= i < |p| :: p[i] < 128;
    Utf8.AsciiIsUtf8(p);
  }

  // ----- Whole operations -----

  /** The record describes exactly the image being published under `id`. */
  predicate Cites(c: CaptureRecord, id: Bytes, image: Bytes, env: Env) {
    c.captureId == id && c.image == ImageEvidence(Paths.ImagePath(id), |image|, env.hash(image))
  }

  lemma CaptureIsHeld(d: Disk, id: Bytes, image: Bytes, captures: seq<CaptureRecord>, c: CaptureRecord, env: Env)
    requires AllHeld(d, captures, env) && Cites(c, id, image, env)
    requires Paths.ImagePath(id) in d.files && d.files[Paths.ImagePath(id)] == image
    ensures AllHeld(d, captures + [c], env)
  {
    hide Paths.ImagePath;
    forall i | 0 <= i < |captures| + 1 ensures ImageHeld(d, (captures + [c])[i], env) {
      if i < |captures| {
        assert ImageHeld(d, captures[i], env);
      }
    }
  }

  lemma CaptureIsJournaled(entries: seq<Entry>, id: Bytes, image: Bytes, captures: seq<CaptureRecord>,
                           c: CaptureRecord, env: Env)
    requires AllJournaled(entries, captures) && Cites(c, id, image, env)
    ensures AllJournaled(WithCapture(entries, id, image, env), captures + [c])
  {
    var e := EntryFor(entries, CapturePublished, Paths.ImagePath(id), image, env.hash);
    assert Records(e, c);
    hide Paths.ImagePath, EntryFor, Records;
    var more := entries + [e];
    JournaledGrows(entries, e, captures);
    assert more[|entries|] == e;
    assert Journaled(more, c);
    forall i | 0 <= i < |captures| + 1 ensures Journaled(more, (captures + [c])[i]) {
      if i < |captures| {
        assert Journaled(more, captures[i]);
      }
    }
  }

  /** Once the image is in place and journaled, the manifest may cite it. */
  lemma ReadyToCite(d: Disk, id: Bytes, image: Bytes, manifest: Bytes, c: CaptureRecord, config: Config, env: Env)
    requires Integral(d, env) && ReadsBack(env.parseLine)
    requires PublishGuard(d, id, image, manifest, config, env) == None
    requires ImagePlan(d, id, image, env).error == None && Cites(c, id, image, env)
    ensures var d2 := CaptureWritten(d, id, image, env);
            var captures := CapturesOf(d, env) + [c];
            && Integral(d2, env) && ManifestFile(d2) == ManifestFile(d)
            && d2.session && Paths.Journal() in d2.files
            && AllHeld(d2, captures, env)
            && (|JournalOf(d2)| <= MAX_JOURNAL_BYTES ==> AllJournaled(EntriesOf(d2, env), captures))
  {
    var d2 := CaptureWritten(d, id, image, env);
    var before := CapturesOf(d, env);
    var a := CaptureWrites(d, id, image, env);
    GuardedDisk(d, id, image, manifest, config, env);
    hide PublishGuard, Recovered, Repaired, JournalLine, EntryFor, FromJson, IsId, CaptureWrites, ImagePlan,
         Effects, RunAll, CostAll, Paths.ImagePath, Paths.Journal, Paths.Manifest, CapturesOf, ImageHeld, Cites,
         IsImageKey,
         EntriesHeld, AllJournaled, WithCapture, CaptureLine;
    CaptureSegment(d, id, image, manifest, config, env);
    EntriesAfterCapture(d, id, image, manifest, config, env);
    CaptureKeepsIntegrity(d, id, image, env, CostAll(a.ops));
    EffectsAll(d, a.ops, CostAll(a.ops));
    KeysAreDistinct(id, env.hash(image), env.hash(image));
    assert AllHeld(d2, before, env) by {
      HeldCaptures(d2, env);
    }
    CaptureIsHeld(d2, id, image, before, c, env);
    if |JournalOf(d2)| <= MAX_JOURNAL_BYTES {
      CaptureIsJournaled(EntriesOf(d, env), id, image, before, c, env);
    }
  }

  lemma HeldCaptures(d: Disk, env: Env)
    requires Sound(d, env)
    ensures AllHeld(d, CapturesOf(d, env), env)
  {
  }

  lemma GuardedDisk(d: Disk, id: Bytes, image: Bytes, manifest: Bytes, config: Config, env: Env)
    requires PublishGuard(d, id, image, manifest, config, env) == None
    ensures IsId(id) && d.session && Paths.Journal() in d.files && |JournalOf(d)| <= MAX_JOURNAL_BYTES
    ensures Recovered(JournalOf(d), env.parseLine, env.hash).Ok?
    ensures FromJson(manifest, env.parseManifest).Some?
  {
    hide JournalLine, EntryFor, FromJson, IsId, Total, Projected;
  }

  /** When the new manifest first counts, in effects of the publication. */
  function PublishPoint(d: Disk, id: Bytes, image: Bytes, manifest: Bytes, env: Env): nat {
    CostAll(CaptureWrites(d, id, image, env).ops) + SwitchPoint(CaptureWritten(d, id, image, env), manifest, env)
  }

  /** A publication is its image and first line, then its manifest and second. */
  lemma PublishEffects(d: Disk, id: Bytes, image: Bytes, manifest: Bytes, config: Config, env: Env, n: nat)
    requires PublishGuard(d, id, image, manifest, config, env) == None && ImagePlan(d, id, image, env).error == None
    ensures var a := CaptureWrites(d, id, image, env);
            var d2 := CaptureWritten(d, id, image, env);
            Effects(d, PublishPlan(d, id, image, manifest, config, env).ops, n)
            == if n < CostAll(a.ops) then Effects(d, a.ops, n)
               else Effects(d2, ManifestWrites(d2, manifest, env).ops, n - CostAll(a.ops))
  {
    hide PublishGuard, CaptureWrites, ManifestWrites, ImagePlan, CaptureWritten, Effects, RunAll, CostAll;
    var a := CaptureWrites(d, id, image, env);
    CaptureSegment(d, id, image, manifest, config, env);
    var b := ManifestWrites(CaptureWritten(d, id, image, env), manifest, env);
    assert PublishPlan(d, id, image, manifest, config, env) == Then(a, b);
    EffectsConcat(d, a.ops, b.ops, n);
  }

  /** The manifest is valid and holds exactly these captures. */
  predicate Lists(manifest: Bytes, captures: seq<CaptureRecord>, env: Env) {
    var m := FromJson(manifest, env.parseManifest);
    m.Some? && m.value.captures == captures
  }

  /** The manifest on disk after `n` effects of a publication. */
  function ManifestAfter(d: Disk, id: Bytes, image: Bytes, manifest: Bytes, env: Env, n: nat): Option<Bytes> {
    if ImagePlan(d, id, image, env).error == None && n >= PublishPoint(d, id, image, manifest, env)
    then Some(manifest) else ManifestFile(d)
  }

  /** The store does not look at what the manifest cites. When it cites the old
      captures and the published image, the disk keeps its integrity at every
      octet of the publication, and shows the old manifest until one instant and
      the new one from then on. */
  lemma PublishKeepsIntegrity(d: Disk, id: Bytes, image: Bytes, manifest: Bytes, c: CaptureRecord,
                              config: Config, env: Env, n: nat)
    requires Integral(d, env) && ReadsBack(env.parseLine)
    requires PublishGuard(d, id, image, manifest, config, env) == None
    requires Lists(manifest, CapturesOf(d, env) + [c], env) && Cites(c, id, image, env)
    ensures var s := Effects(d, PublishPlan(d, id, image, manifest, config, env).ops, n);
            Integral(s, env) && ManifestFile(s) == ManifestAfter(d, id, image, manifest, env, n)
  {
    hide *;
    if ImagePlan(d, id, image, env).error == None {
      PublishedKeepsIntegrity(d, id, image, manifest, c, config, env, n);
    } else {
      ImageRefused(d, id, image, manifest, config, env);
      NothingRuns(d, n);
      NothingPublished(d, id, image, manifest, env, n);
    }
  }

  lemma NothingPublished(d: Disk, id: Bytes, image: Bytes, manifest: Bytes, env: Env, n: nat)
    requires ImagePlan(d, id, image, env).error.Some?
    ensures ManifestAfter(d, id, image, manifest, env, n) == ManifestFile(d)
  {
  }

  lemma PublishedKeepsIntegrity(d: Disk, id: Bytes, image: Bytes, manifest: Bytes, c: CaptureRecord,
                                config: Config, env: Env, n: nat)
    requires Integral(d, env) && ReadsBack(env.parseLine)
    requires PublishGuard(d, id, image, manifest, config, env) == None && ImagePlan(d, id, image, env).error == None
    requires Lists(manifest, CapturesOf(d, env) + [c], env) && Cites(c, id, image, env)
    ensures var s := Effects(d, PublishPlan(d, id, image, manifest, config, env).ops, n);
            Integral(s, env) && ManifestFile(s) == ManifestAfter(d, id, image, manifest, env, n)
  {
    hide PublishPlan, PublishGuard, FromJson, CaptureWrites, ManifestWrites, ImagePlan, CaptureWritten, SwitchPoint,
         Effects, CostAll, Paths.Journal, CapturesOf, Cites, Integral, AllHeld, EntriesOf, AllJournaled;
    var m := CostAll(CaptureWrites(d, id, image, env).ops);
    GuardedDisk(d, id, image, manifest, config, env);
    PublishEffects(d, id, image, manifest, config, env, n);
    if n < m {
      CaptureKeepsIntegrity(d, id, image, env, n);
    } else {
      ReadyToCite(d, id, image, manifest, c, config, env);
      ManifestKeepsIntegrity(CaptureWritten(d, id, image, env), manifest, env, n - m);
    }
  }

  /** Revising the manifest without touching its captures keeps integrity. */
  lemma RevisionKeepsIntegrity(d: Disk, manifest: Bytes, config: Config, env: Env, n: nat)
    requires Integral(d, env) && ReadsBack(env.parseLine)
    requires ReplaceGuard(d, manifest, config, env) == None
    requires Lists(manifest, CapturesOf(d, env), env)
    ensures var s := Effects(d, RevisionPlan(d, manifest, config, env).ops, n);
            && Integral(s, env)
            && ManifestFile(s) == if n < SwitchPoint(d, manifest, env) then ManifestFile(d) else Some(manifest)
  {
    hide JournalLine, FromJson, Total, Effects, RunAll, Paths.Journal, Paths.Manifest, CapturesOf, EntriesHeld,
         AllJournaled;
    hide ManifestWrites, Recovered;
    assert Paths.Journal() in d.files;
    HeldCaptures(d, env);
    ManifestKeepsIntegrity(d, manifest, env, n);
  }

  // ----- A new session -----

  function SessionMade(d: Disk): Disk {
    Put(d.(session := true, captures := true), Paths.Journal(), [])
  }

  lemma MakeStates(d: Disk, n: nat)
    ensures CostAll(MakeOps()) == 3 && RunAll(d, MakeOps()) == SessionMade(d)
    ensures n < 3 ==> var s := Effects(d, MakeOps(), n); s.files == d.files && (d.session ==> s.session)
  {
    hide Paths.Journal;
    var ops := MakeOps();
    var b, c := ops[1..], ops[2..];
    assert b[1..] == c && c == [ops[2]] && c[1..] == [];
    assert b[0] == MakeCaptures && ops[0] == MakeSession;
    assert CostAll(c) == 1 && CostAll(b) == 2;
    var d1, d2 := d.(session := true), d.(session := true, captures := true);
    assert RunAll(d2, c) == Apply(ops[2], d2);
    assert RunAll(d1, b) == RunAll(d2, c);
    if n == 1 || n == 2 {
      assert Effects(d, ops, n) == Effects(d1, b, n - 1);
      if n == 2 {
        assert Effects(d1, b, 1) == Effects(d2, c, 0);
      }
    }
  }

  lemma MadeIsIntegral(d: Disk, env: Env)
    requires Integral(d, env) && !d.session
    ensures Integral(SessionMade(d), env) && ManifestFile(SessionMade(d)) == ManifestFile(d) == None
  {
    KeysAreDistinct([65], Repeat(48, 64), Repeat(48, 64));
    EmptyJournal(env.parseLine, env.hash);
    hide Paths.Journal, Paths.Manifest, FromJson, Recovered;
  }

  /** Creating a session keeps the integrity of an otherwise untouched disk. */
  lemma SessionKeepsIntegrity(d: Disk, others: nat, config: Config, env: Env, n: nat)
    requires Integral(d, env) && ReadsBack(env.parseLine)
    ensures var s := Effects(d, SessionPlan(d, others, config, env).ops, n);
            Integral(s, env) && ManifestFile(s) == ManifestFile(d)
  {
    hide Integral, CapturesOf, AppendPlan, Effects, RunAll, CostAll, MakeOps, Paths.Journal, Paths.Manifest,
         Utf8.IsUtf8, Truthful, KeepsImages;
    if SessionGuard(d, others, config) == None {
      MakeStates(d, n);
      var d1 := SessionMade(d);
      var b := AppendPlan(d1, SessionCreated, [], [], env);
      EffectsConcat(d, MakeOps(), b.ops, n);
      if n < 3 {
        var s := Effects(d, MakeOps(), n);
        UntouchedFrame(d, s, env);
      } else {
        MadeIsIntegral(d, env);
        NothingToTell(d1);
        AppendKeepsIntegrity(d1, SessionCreated, [], [], env, n - 3);
      }
    } else {
      NothingRuns(d, n);
    }
  }

  lemma NothingToTell(d: Disk)
    ensures Truthful(d, SessionCreated, [], []) && Utf8.IsUtf8([])
  {
  }

  lemma UntouchedFrame(d: Disk, s: Disk, env: Env)
    requires Integral(d, env) && s.files == d.files && (d.session ==> s.session)
    ensures Integral(s, env) && ManifestFile(s) == ManifestFile(d)
  {
    hide Integral, CapturesOf, Paths.Journal, Paths.Manifest;
    IntegralFrame(d, s, env);
  }

  // ----- Weight of a session -----

  /** The first line of a journal fits in a kilobyte and a half. */
  lemma FirstLineLength(env: Env)
    ensures |JournalLine([], SessionCreated, [], [], env.hash)| <= 1500
  {
    var line := LineFor([], SessionCreated, [], [], env.hash);
    hide PrintBody, PrintLine;
    LineIsShort(line);
  }

  /** Creating a session weighs nothing but its first journal line. */
  lemma SessionIsLight(d: Disk, others: nat, config: Config, env: Env, n: nat)
    requires d.files == map[]
    ensures Total(Effects(d, SessionPlan(d, others, config, env).ops, n).files) <= 1500
  {
    var plan := SessionPlan(d, others, config, env);
    EffectsGrow(d, plan.ops, n);
    if SessionGuard(d, others, config) == None {
      MakeStates(d, n);
      var d1 := SessionMade(d);
      FirstLineLength(env);
      EmptyJournal(env.parseLine, env.hash);
      hide Recovered, JournalLine, Paths.Journal, Effects, RunAll;
      AppendPlanned(d1, SessionCreated, [], [], env);
      AppendRuns(d1, SessionCreated, [], [], env);
      WrittenConcat(MakeOps(), AppendPlan(d1, SessionCreated, [], [], env).ops);
      MakesWriteNothing();
    } else {
      assert Written([]) == 0;
    }
  }

  lemma MakesWriteNothing()
    ensures Written(MakeOps()) == 0
  {
    hide Paths.Journal;
    var ops := MakeOps();
    assert ops[1..][1..] == [ops[2]] && [ops[2]][1..] == [];
    assert Written([ops[2]]) == 0 && Written(ops[1..]) == 0;
  }
}
