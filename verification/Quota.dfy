/** Byte quotas: the predicted journal lines are the ones appended, and what
    the session can weigh at every point a run may stop. */
module Quota {
  import opened Bytes
  import opened Errors
  import opened Files
  import opened JournalText
  import opened Journal
  import opened Manifest
  import opened Plans
  import Paths
  import Utf8

  // ----- What the calls do when they all run -----

  function WithoutTemp(d: Disk, temp: Bytes): Disk {
    d.(files := d.files - {temp})
  }

  lemma WriteRuns(d: Disk, path: Bytes, temp: Bytes, content: Bytes)
    requires temp != path
    ensures RunAll(d, WriteOps(path, temp, content)) == Put(WithoutTemp(d, temp), path, content)
    ensures Written(WriteOps(path, temp, content)) == |content|
  {
    var d1 := Put(d, temp, []);
    var d2 := Put(d1, temp, [] + content);
    var ops := WriteOps(path, temp, content);
    assert Apply(ops[0], d) == d1;
    assert Apply(ops[1], d1) == d2;
    assert [] + content == content;
    assert d2.files - {temp} == d.files - {temp};
    assert ops[1..][1..] == [ops[2]] && ops[1..][0] == ops[1];
    assert [ops[2]][1..] == [];
    assert Written([ops[2]]) == 0 && Written(ops[1..]) == |content|;
    assert RunAll(d, ops) == RunAll(d1, ops[1..]) == RunAll(d2, [ops[2]]) == RunAll(Apply(ops[2], d2), []);
  }

  /** The whole of an append, when its journal can be recovered. */
  lemma AppendRuns(d: Disk, operation: Operation, path: Bytes, content: Bytes, env: Env)
    requires AppendPlan(d, operation, path, content, env).error == None
    ensures RunAll(d, AppendPlan(d, operation, path, content, env).ops)
         == Put(d, Paths.Journal(), Appended(JournalOf(d), operation, path, content, env.parseLine, env.hash).value)
    ensures Written(AppendPlan(d, operation, path, content, env).ops)
         == |JournalLine(EntriesOf(d, env), operation, path, content, env.hash)|
  {
    hide Recovered, JournalLine, Paths.IsJournalPath;
    var j := Paths.Journal();
    var line := JournalLine(EntriesOf(d, env), operation, path, content, env.hash);
    var append := [Append(j, line)];
    assert append[1..] == [];
    if Recovered(JournalOf(d), env.parseLine, env.hash).value.ignoredTruncatedTail {
      var base := Repaired(JournalOf(d));
      var repair := [SetLength(j, |base|)];
      assert repair[1..] == [];
      RepairedIsPrefix(JournalOf(d));
      var d1 := Apply(repair[0], d);
      RunConcat(d, repair, append);
      WrittenConcat(repair, append);
      assert d.files[j][..|base|] == base;
      assert d1.files[j] == base;
    } else {
      NoTornTail(JournalOf(d), env);
      assert [] + append == append;
    }
  }

  lemma NoTornTail(bytes: Bytes, env: Env)
    requires Recovered(bytes, env.parseLine, env.hash).Ok?
    requires !Recovered(bytes, env.parseLine, env.hash).value.ignoredTruncatedTail
    ensures CutOf(bytes).tail == [] && Repaired(bytes) == bytes
  {
  }

  lemma AppendPlanned(d: Disk, operation: Operation, path: Bytes, content: Bytes, env: Env)
    requires Paths.Journal() in d.files && Paths.IsJournalPath(path)
    ensures var plan := AppendPlan(d, operation, path, content, env);
            && (plan.error == None <==> Recovered(JournalOf(d), env.parseLine, env.hash).Ok?)
            && (plan.error != None ==> plan == Refuse(JournalInvalid))
  {
    hide JournalLine, Repaired;
  }

  // ----- Publishing -----

  /** The journal after the first of the two lines. */
  function AfterCapture(d: Disk, id: Bytes, image: Bytes, env: Env): Bytes {
    Repaired(JournalOf(d)) + CaptureLine(EntriesOf(d, env), id, image, env)
  }

  function ImageWritten(d: Disk, id: Bytes, image: Bytes): Disk {
    Put(d, Paths.ImagePath(id), image)
  }

  function CaptureWritten(d: Disk, id: Bytes, image: Bytes, env: Env): Disk {
    Put(ImageWritten(d, id, image), Paths.Journal(), AfterCapture(d, id, image, env))
  }

  lemma ImageSegment(d: Disk, id: Bytes, image: Bytes, env: Env)
    requires IsId(id) && ImagePlan(d, id, image, env).error == None
    ensures RunAll(d, ImagePlan(d, id, image, env).ops) == ImageWritten(d, id, image)
    ensures JournalOf(ImageWritten(d, id, image)) == JournalOf(d)
    ensures Written(ImagePlan(d, id, image, env).ops) == |image|
  {
    var temp := Paths.ImageTemp(env.hash(image));
    Paths.PathsDiffer(id, id, env.hash(image), env.hash(image));
    hide Paths.ImageTemp, Paths.ImagePath, Paths.Journal;
    WriteRuns(d, Paths.ImagePath(id), temp, image);
    assert d.files - {temp} == d.files;
  }

  lemma CaptureSegment(d: Disk, id: Bytes, image: Bytes, manifest: Bytes, config: Config, env: Env)
    requires PublishGuard(d, id, image, manifest, config, env) == None
    requires ImagePlan(d, id, image, env).error == None
    ensures CaptureWrites(d, id, image, env).error == None
    ensures RunAll(d, CaptureWrites(d, id, image, env).ops) == CaptureWritten(d, id, image, env)
    ensures Written(CaptureWrites(d, id, image, env).ops)
         == |image| + |CaptureLine(EntriesOf(d, env), id, image, env)|
  {
    ImageSegment(d, id, image, env);
    Paths.ImagePathIsObjectPath(id);
    var a := ImagePlan(d, id, image, env);
    var d1 := ImageWritten(d, id, image);
    hide Paths.ImagePath, Paths.Journal, Paths.IsObjectPath, Recovered, Repaired, ImagePlan, Total, JournalLine,
         FromJson, IsId, Projected;
    AppendPlanned(d1, CapturePublished, Paths.ImagePath(id), image, env);
    AppendRuns(d1, CapturePublished, Paths.ImagePath(id), image, env);
    var b := AppendPlan(d1, CapturePublished, Paths.ImagePath(id), image, env);
    hide AppendPlan;
    RunConcat(d, a.ops, b.ops);
    WrittenConcat(a.ops, b.ops);
  }

  lemma ManifestSegment(d: Disk, manifest: Bytes, env: Env)
    ensures ManifestPlan(d, manifest, env).error == None
    ensures var temp := Paths.ManifestTemp(env.hash(manifest));
            && RunAll(d, ManifestPlan(d, manifest, env).ops) == Put(WithoutTemp(d, temp), Paths.Manifest(), manifest)
            && JournalOf(Put(WithoutTemp(d, temp), Paths.Manifest(), manifest)) == JournalOf(d)
            && (Paths.Journal() in d.files ==> Paths.Journal() in WithoutTemp(d, temp).files)
    ensures Written(ManifestPlan(d, manifest, env).ops) == |manifest|
  {
    var temp := Paths.ManifestTemp(env.hash(manifest));
    assert IsId([65]);
    Paths.PathsDiffer([65], [65], env.hash(manifest), env.hash(manifest));
    hide Paths.ManifestTemp, Paths.Manifest, Paths.Journal;
    WriteRuns(d, Paths.Manifest(), temp, manifest);
    var write := WriteOps(Paths.Manifest(), temp, manifest);
    if temp in d.files {
      var remove := [Remove(temp)];
      assert remove[1..] == [];
      RunConcat(d, remove, write);
      WrittenConcat(remove, write);
      WriteRuns(WithoutTemp(d, temp), Paths.Manifest(), temp, manifest);
      assert WithoutTemp(WithoutTemp(d, temp), temp) == WithoutTemp(d, temp);
    } else {
      assert [] + write == write;
    }
  }

  function ManifestWritten(d: Disk, manifest: Bytes, env: Env): Disk {
    Put(WithoutTemp(d, Paths.ManifestTemp(env.hash(manifest))), Paths.Manifest(), manifest)
  }

  /** A manifest and its journal line, from a disk whose journal is there. */
  lemma RevisionSegment(d: Disk, manifest: Bytes, env: Env)
    requires Paths.Journal() in d.files
    ensures var plan := ManifestWrites(d, manifest, env);
            var fits := Recovered(JournalOf(d), env.parseLine, env.hash).Ok?;
            && plan.error == (if fits then None else Some(JournalInvalid))
            && Written(plan.ops) == |manifest| + (if fits then |ManifestLine(EntriesOf(d, env), manifest, env)| else 0)
            && (fits ==>
                RunAll(d, plan.ops)
                == Put(ManifestWritten(d, manifest, env), Paths.Journal(),
                       Repaired(JournalOf(d)) + ManifestLine(EntriesOf(d, env), manifest, env)))
  {
    ManifestSegment(d, manifest, env);
    Paths.ManifestIsObjectPath();
    var a := ManifestPlan(d, manifest, env);
    var d1 := ManifestWritten(d, manifest, env);
    hide Paths.ManifestTemp, Paths.Manifest, Paths.Journal, Paths.IsObjectPath, Recovered, Repaired, ManifestPlan,
         JournalLine;
    AppendPlanned(d1, ManifestPublished, Paths.Manifest(), manifest, env);
    var b := AppendPlan(d1, ManifestPublished, Paths.Manifest(), manifest, env);
    RunConcat(d, a.ops, b.ops);
    WrittenConcat(a.ops, b.ops);
    if b.error == None {
      AppendRuns(d1, ManifestPublished, Paths.Manifest(), manifest, env);
    }
  }

  /** Recovery after the first line sees the predicted entries. */
  lemma EntriesAfterCapture(d: Disk, id: Bytes, image: Bytes, manifest: Bytes, config: Config, env: Env)
    requires PublishGuard(d, id, image, manifest, config, env) == None && ReadsBack(env.parseLine)
    ensures var after := AfterCapture(d, id, image, env);
            && (Recovered(after, env.parseLine, env.hash).Ok? <==> |after| <= MAX_JOURNAL_BYTES)
            && (|after| <= MAX_JOURNAL_BYTES ==>
                Recovered(after, env.parseLine, env.hash)
                == Ok(Recovery(WithCapture(EntriesOf(d, env), id, image, env), false)))
            && JournalOf(CaptureWritten(d, id, image, env)) == after
            && Paths.Journal() in CaptureWritten(d, id, image, env).files
  {
    Paths.ImagePathIsObjectPath(id);
    ImagePathIsUtf8(id);
    hide Paths.ImagePath, Paths.Journal, Paths.IsObjectPath, Recovered, Repaired, JournalLine, EntryFor, Total,
         FromJson, IsId, Utf8.IsUtf8, Projected;
    AppendRepairs(JournalOf(d), CapturePublished, Paths.ImagePath(id), image, env.parseLine, env.hash);
  }

  lemma ImagePathIsUtf8(id: Bytes)
    requires IsId(id)
    ensures Utf8.IsUtf8(Paths.ImagePath(id))
  {
    Utf8.AsciiIsUtf8(Paths.ImagePath(id));
  }

  /** The two lines whose lengths were charged are, octet for octet, the two
      lines appended; past the recovery bound the second append is refused and
      nothing more is written. */
  lemma PredictedLinesAreAppended(d: Disk, id: Bytes, image: Bytes, manifest: Bytes, config: Config, env: Env)
    requires PublishGuard(d, id, image, manifest, config, env) == None && ReadsBack(env.parseLine)
    requires ImagePlan(d, id, image, env).error == None
    ensures var plan := PublishPlan(d, id, image, manifest, config, env);
            var entries := EntriesOf(d, env);
            var d1 := CaptureWritten(d, id, image, env);
            var fits := |AfterCapture(d, id, image, env)| <= MAX_JOURNAL_BYTES;
            && plan.error == (if fits then None else Some(JournalInvalid))
            && Written(plan.ops) == |image| + |manifest| + |CaptureLine(entries, id, image, env)|
                 + (if fits then |ManifestLine(WithCapture(entries, id, image, env), manifest, env)| else 0)
            && (fits ==>
                RunAll(d, plan.ops)
                == Put(ManifestWritten(d1, manifest, env), Paths.Journal(),
                       AfterCapture(d, id, image, env)
                       + ManifestLine(WithCapture(entries, id, image, env), manifest, env)))
  {
    hide Paths.ImagePath, Paths.Journal, Recovered, Repaired, JournalLine, EntryFor, PublishGuard, CaptureWrites,
         ManifestWrites, CaptureWritten, ManifestWritten, AfterCapture, ImagePlan, EntriesOf, WithCapture;
    CaptureSegment(d, id, image, manifest, config, env);
    EntriesAfterCapture(d, id, image, manifest, config, env);
    var d1 := CaptureWritten(d, id, image, env);
    RevisionSegment(d1, manifest, env);
    var a, b := CaptureWrites(d, id, image, env), ManifestWrites(d1, manifest, env);
    assert PublishPlan(d, id, image, manifest, config, env) == Then(a, b);
    hide PublishPlan;
    if |AfterCapture(d, id, image, env)| <= MAX_JOURNAL_BYTES {
      WholeJournal(d1, AfterCapture(d, id, image, env), WithCapture(EntriesOf(d, env), id, image, env), env);
    }
    RunConcat(d, a.ops, b.ops);
    WrittenConcat(a.ops, b.ops);
  }

  lemma WholeJournal(d: Disk, bytes: Bytes, entries: seq<Entry>, env: Env)
    requires JournalOf(d) == bytes && Recovered(bytes, env.parseLine, env.hash) == Ok(Recovery(entries, false))
    ensures Repaired(bytes) == bytes && EntriesOf(d, env) == entries
  {
    NoTornTail(bytes, env);
  }

  /** A publication that nothing interrupts succeeds exactly when its checks
      pass, no temporary file of the same content is left over, and the journal
      stays recoverable after its first line. */
  lemma PublicationSucceeds(d: Disk, id: Bytes, image: Bytes, manifest: Bytes, config: Config, env: Env)
    requires ReadsBack(env.parseLine)
    ensures PublishPlan(d, id, image, manifest, config, env).error == None
       <==> && PublishGuard(d, id, image, manifest, config, env) == None && d.captures
            && Paths.ImageTemp(env.hash(image)) !in d.files
            && |AfterCapture(d, id, image, env)| <= MAX_JOURNAL_BYTES
  {
    hide PublishGuard, AfterCapture, CaptureWrites, ManifestWrites, Paths.ImageTemp;
    if PublishGuard(d, id, image, manifest, config, env) == None {
      if ImagePlan(d, id, image, env).error == None {
        PredictedLinesAreAppended(d, id, image, manifest, config, env);
        hide PublishPlan;
      } else {
        ImageRefused(d, id, image, manifest, config, env);
      }
      FreePath(d, id, image, manifest, config, env);
    }
  }

  lemma FreePath(d: Disk, id: Bytes, image: Bytes, manifest: Bytes, config: Config, env: Env)
    requires PublishGuard(d, id, image, manifest, config, env) == None
    ensures Paths.ImagePath(id) !in d.files
  {
    hide JournalLine, EntryFor, FromJson, IsId, Total, Projected, Paths.ImagePath;
  }

  lemma ImageRefused(d: Disk, id: Bytes, image: Bytes, manifest: Bytes, config: Config, env: Env)
    requires ImagePlan(d, id, image, env).error.Some?
    ensures PublishPlan(d, id, image, manifest, config, env).ops == []
    ensures PublishPlan(d, id, image, manifest, config, env).error.Some?
  {
    hide PublishGuard, AppendPlan, ManifestWrites, Paths.ImagePath, Paths.ImageTemp;
  }

  /** An admitted publication never takes the session past its quota, at any
      octet of any write. */
  lemma PublishStaysWithinQuota(d: Disk, id: Bytes, image: Bytes, manifest: Bytes, config: Config, env: Env, n: nat)
    requires PublishGuard(d, id, image, manifest, config, env) == None && ReadsBack(env.parseLine)
    ensures Total(Effects(d, PublishPlan(d, id, image, manifest, config, env).ops, n).files) <= config.maxBundleBytes
  {
    hide Effects, Total, Recovered, JournalLine, FromJson, IsId, ImagePlan, CaptureWrites, ManifestWrites;
    var plan := PublishPlan(d, id, image, manifest, config, env);
    EffectsGrow(d, plan.ops, n);
    if ImagePlan(d, id, image, env).error == None {
      PredictedLinesAreAppended(d, id, image, manifest, config, env);
    } else {
      assert plan.ops == [] by {
        ImageRefused(d, id, image, manifest, config, env);
      }
      assert Written([]) == 0;
    }
  }

  // ----- Replacing -----

  function StaleSize(d: Disk, manifest: Bytes, env: Env): nat {
    var temp := Paths.ManifestTemp(env.hash(manifest));
    if temp in d.files then |d.files[temp]| else 0
  }

  /** The weight of the session once a revision has been written. */
  lemma RevisionSize(d: Disk, manifest: Bytes, env: Env)
    ensures Total(ManifestWritten(d, manifest, env).files)
         == Total(d.files) - StaleSize(d, manifest, env) - ManifestSize(d) + |manifest|
  {
    var temp := Paths.ManifestTemp(env.hash(manifest));
    assert IsId([65]);
    Paths.PathsDiffer([65], [65], env.hash(manifest), env.hash(manifest));
    hide Paths.ManifestTemp, Paths.Manifest, Total;
    TotalPut(d.files, temp, []);
    TotalPut(d.files - {temp}, Paths.Manifest(), manifest);
  }

  /** The run of a revision up to its rename, split at the rename. */
  function BeforeRename(d: Disk, manifest: Bytes, env: Env): seq<FsOp> {
    var temp := Paths.ManifestTemp(env.hash(manifest));
    (if temp in d.files then [Remove(temp)] else []) + [Create(temp), Append(temp, manifest)]
  }

  function FromRename(d: Disk, manifest: Bytes, env: Env): seq<FsOp> {
    var d1 := ManifestWritten(d, manifest, env);
    [Rename(Paths.ManifestTemp(env.hash(manifest)), Paths.Manifest())]
    + AppendPlan(d1, ManifestPublished, Paths.Manifest(), manifest, env).ops
  }

  lemma RevisionSplits(d: Disk, manifest: Bytes, env: Env)
    ensures ManifestWrites(d, manifest, env).ops == BeforeRename(d, manifest, env) + FromRename(d, manifest, env)
  {
    ManifestSegment(d, manifest, env);
    hide AppendPlan, Paths.ManifestTemp, Paths.Manifest, RunAll;
  }

  function TempWritten(d: Disk, manifest: Bytes, env: Env): Disk {
    var temp := Paths.ManifestTemp(env.hash(manifest));
    Put(WithoutTemp(d, temp), temp, manifest)
  }

  lemma TempRuns(d: Disk, manifest: Bytes, env: Env)
    ensures RunAll(d, BeforeRename(d, manifest, env)) == TempWritten(d, manifest, env)
    ensures Total(TempWritten(d, manifest, env).files) == Total(d.files) - StaleSize(d, manifest, env) + |manifest|
  {
    hide Total;
    var temp := Paths.ManifestTemp(env.hash(manifest));
    hide Paths.ManifestTemp;
    TotalPut(d.files, temp, manifest);
    assert d.files[temp := manifest] == (d.files - {temp})[temp := manifest];
    var make := [Create(temp), Append(temp, manifest)];
    var d0 := WithoutTemp(d, temp);
    assert make[1..][1..] == [] && make[1..][0] == make[1];
    assert [] + manifest == manifest;
    assert Apply(make[0], d0) == Put(d0, temp, []);
    assert Apply(make[1], Put(d0, temp, [])) == Put(d0, temp, manifest);
    assert RunAll(d0, make) == RunAll(Put(d0, temp, []), make[1..]) == RunAll(Put(d0, temp, manifest), []);
    if temp in d.files {
      var remove := [Remove(temp)];
      assert remove[1..] == [];
      RunConcat(d, remove, make);
    } else {
      assert [] + make == make && d0 == d;
    }
  }

  /** Up to the rename the session weighs at most what it does with both
      manifests in place, or what it did at the start. */
  lemma BeforeRenameGrows(d: Disk, manifest: Bytes, env: Env, n: nat)
    ensures var size := Total(Effects(d, BeforeRename(d, manifest, env), n).files);
            size <= Total(d.files) || size <= Total(d.files) - StaleSize(d, manifest, env) + |manifest|
  {
    hide Total;
    var temp := Paths.ManifestTemp(env.hash(manifest));
    hide Paths.ManifestTemp;
    var make := [Create(temp), Append(temp, manifest)];
    assert make[1..][1..] == [] && make[1..][0] == make[1];
    assert Written(make[1..]) == |manifest| && Written(make) == |manifest|;
    var d0 := WithoutTemp(d, temp);
    TotalPut(d.files, temp, []);
    if temp in d.files {
      var remove := [Remove(temp)];
      assert remove[1..] == [] && CostAll(remove) == 1;
      EffectsConcat(d, remove, make, n);
      if n >= 1 {
        assert RunAll(d, remove) == d0;
        EffectsGrow(d0, make, n - 1);
      }
    } else {
      assert [] + make == make;
      EffectsGrow(d, make, n);
    }
  }

  lemma RenameRuns(d: Disk, manifest: Bytes, env: Env)
    ensures var rename := [Rename(Paths.ManifestTemp(env.hash(manifest)), Paths.Manifest())];
            && RunAll(TempWritten(d, manifest, env), rename) == ManifestWritten(d, manifest, env)
            && CostAll(rename) == 1
            && Effects(TempWritten(d, manifest, env), rename, 0) == TempWritten(d, manifest, env)
  {
    var temp := Paths.ManifestTemp(env.hash(manifest));
    hide Paths.ManifestTemp, Paths.Manifest;
    var rename := [Rename(temp, Paths.Manifest())];
    assert rename[1..] == [];
    assert (d.files - {temp})[temp := manifest] - {temp} == d.files - {temp};
  }

  /** From the rename on, the session weighs at most what was projected. */
  lemma AfterRenameFits(d: Disk, manifest: Bytes, config: Config, env: Env, n: nat)
    requires ReplaceGuard(d, manifest, config, env) == None
    ensures var s := Effects(TempWritten(d, manifest, env), FromRename(d, manifest, env), n);
            if n == 0 then s == TempWritten(d, manifest, env) else Total(s.files) <= config.maxBundleBytes
  {
    hide Total, Recovered, JournalLine, FromJson, Effects, RunAll, Paths.ManifestTemp, Paths.Manifest, Paths.Journal,
         Repaired;
    var t, d1 := TempWritten(d, manifest, env), ManifestWritten(d, manifest, env);
    var rename := [Rename(Paths.ManifestTemp(env.hash(manifest)), Paths.Manifest())];
    var append := AppendPlan(d1, ManifestPublished, Paths.Manifest(), manifest, env);
    RenameRuns(d, manifest, env);
    EffectsConcat(t, rename, append.ops, n);
    if n > 0 {
      RevisionSize(d, manifest, env);
      ManifestSegment(d, manifest, env);
      Paths.ManifestIsObjectPath();
      AppendPlanned(d1, ManifestPublished, Paths.Manifest(), manifest, env);
      AppendRuns(d1, ManifestPublished, Paths.Manifest(), manifest, env);
      EffectsGrow(d1, append.ops, n - 1);
    }
  }

  /** Where a revision stands after `n` effects. */
  lemma RevisionPoints(d: Disk, manifest: Bytes, config: Config, env: Env, n: nat)
    requires ReplaceGuard(d, manifest, config, env) == None
    ensures var ops := RevisionPlan(d, manifest, config, env).ops;
            var before := CostAll(BeforeRename(d, manifest, env));
            var both := Total(d.files) - StaleSize(d, manifest, env) + |manifest|;
            var size := Total(Effects(d, ops, n).files);
            && (size <= Total(d.files) || size <= both || size <= config.maxBundleBytes)
            && (n == before ==> size == both)
            && (n > before ==> size <= config.maxBundleBytes)
  {
    hide Total, Effects, RunAll, BeforeRename, FromRename, CostAll, StaleSize, ReplaceGuard, ManifestWrites;
    var before := BeforeRename(d, manifest, env);
    RevisionSplits(d, manifest, env);
    EffectsConcat(d, before, FromRename(d, manifest, env), n);
    TempRuns(d, manifest, env);
    if n < CostAll(before) {
      BeforeRenameGrows(d, manifest, env, n);
    } else {
      AfterRenameFits(d, manifest, config, env, n - CostAll(before));
    }
  }

  /** The session weighs at most `limit` wherever the run stops. */
  ghost predicate AlwaysWithin(d: Disk, ops: seq<FsOp>, limit: nat) {
    forall n: nat :: Total(Effects(d, ops, n).files) <= limit
  }

  /** The weight of the session with the old manifest and the new one. */
  ghost function BothManifests(d: Disk, manifest: Bytes, env: Env): int {
    Total(d.files) - StaleSize(d, manifest, env) + |manifest|
  }

  /** While a revision is being written both manifests may lie on disk, and the
      quota check did not count the old one. Exactly when the two fit together
      the quota holds at every point; the completed session always fits. */
  lemma RevisionWithinQuota(d: Disk, manifest: Bytes, config: Config, env: Env)
    requires ReplaceGuard(d, manifest, config, env) == None
    ensures AlwaysWithin(d, RevisionPlan(d, manifest, config, env).ops, config.maxBundleBytes)
       <==> Total(d.files) <= config.maxBundleBytes && BothManifests(d, manifest, env) <= config.maxBundleBytes
    ensures Total(RunAll(d, RevisionPlan(d, manifest, config, env).ops).files) <= config.maxBundleBytes
  {
    hide *;
    var ops := RevisionPlan(d, manifest, config, env).ops;
    RevisionEnds(d, manifest, config, env);
    if Total(d.files) <= config.maxBundleBytes && BothManifests(d, manifest, env) <= config.maxBundleBytes {
      RevisionFits(d, manifest, config, env);
    }
    if AlwaysWithin(d, ops, config.maxBundleBytes) {
      RevisionNeeds(d, manifest, config, env);
    }
  }

  lemma RevisionEnds(d: Disk, manifest: Bytes, config: Config, env: Env)
    requires ReplaceGuard(d, manifest, config, env) == None
    ensures Total(RunAll(d, RevisionPlan(d, manifest, config, env).ops).files) <= config.maxBundleBytes
  {
    hide *;
    var ops := RevisionPlan(d, manifest, config, env).ops;
    var n := CostAll(ops) + CostAll(BeforeRename(d, manifest, env)) + 1;
    RevisionPoints(d, manifest, config, env, n);
    EffectsAll(d, ops, n);
  }

  lemma RevisionFits(d: Disk, manifest: Bytes, config: Config, env: Env)
    requires ReplaceGuard(d, manifest, config, env) == None
    requires Total(d.files) <= config.maxBundleBytes && BothManifests(d, manifest, env) <= config.maxBundleBytes
    ensures AlwaysWithin(d, RevisionPlan(d, manifest, config, env).ops, config.maxBundleBytes)
  {
    hide Effects, Total, RevisionPlan, ReplaceGuard, StaleSize, BeforeRename, CostAll;
    var ops := RevisionPlan(d, manifest, config, env).ops;
    forall n: nat ensures Total(Effects(d, ops, n).files) <= config.maxBundleBytes {
      RevisionPoints(d, manifest, config, env, n);
    }
  }

  lemma RevisionNeeds(d: Disk, manifest: Bytes, config: Config, env: Env)
    requires ReplaceGuard(d, manifest, config, env) == None
    requires AlwaysWithin(d, RevisionPlan(d, manifest, config, env).ops, config.maxBundleBytes)
    ensures Total(d.files) <= config.maxBundleBytes && BothManifests(d, manifest, env) <= config.maxBundleBytes
  {
    hide Effects, Total, RevisionPlan, ReplaceGuard, StaleSize, BeforeRename, CostAll;
    var before := CostAll(BeforeRename(d, manifest, env));
    RevisionPoints(d, manifest, config, env, before);
    RevisionStarts(d, manifest, config, env);
    var ops := RevisionPlan(d, manifest, config, env).ops;
    assert Total(Effects(d, ops, 0).files) <= config.maxBundleBytes;
    assert Total(Effects(d, ops, before).files) <= config.maxBundleBytes;
  }

  lemma RevisionStarts(d: Disk, manifest: Bytes, config: Config, env: Env)
    ensures Effects(d, RevisionPlan(d, manifest, config, env).ops, 0) == d
  {
    hide ReplaceGuard, AppendPlan, Paths.ManifestTemp, Paths.Manifest;
    if ReplaceGuard(d, manifest, config, env) == None {
      var ops := ManifestWrites(d, manifest, env).ops;
      assert !ops[0].Append?;
    }
  }

  /** So a revision never exceeds the quota by more than the manifest it
      replaces, at any point of its run, whatever an earlier crash left. */
  lemma RevisionExcess(d: Disk, manifest: Bytes, config: Config, env: Env, n: nat)
    requires ReplaceGuard(d, manifest, config, env) == None
    ensures Total(Effects(d, RevisionPlan(d, manifest, config, env).ops, n).files)
         <= config.maxBundleBytes + ManifestSize(d)
  {
    RevisionPoints(d, manifest, config, env, n);
    hide Total, Effects, FromJson, Recovered, JournalLine, RevisionPlan;
  }

  /** The smallest quota that admits a revision. */
  ghost function TightQuota(d: Disk, manifest: Bytes, env: Env): nat {
    ManifestIsCounted(d);
    Total(d.files) - ManifestSize(d) + |manifest| + |ManifestLine(EntriesOf(d, env), manifest, env)|
  }

  lemma ManifestIsCounted(d: Disk)
    ensures ManifestSize(d) <= Total(d.files)
  {
    TotalPut(d.files, Paths.Manifest(), []);
  }

  predicate OldOutweighsLine(d: Disk, manifest: Bytes, env: Env) {
    ManifestSize(d) > |ManifestLine(EntriesOf(d, env), manifest, env)| + StaleSize(d, manifest, env)
  }

  lemma TightAdmits(d: Disk, manifest: Bytes, config: Config, env: Env)
    requires ReplaceGuard(d, manifest, config, env) == None
    ensures ReplaceGuard(d, manifest, config.(maxBundleBytes := TightQuota(d, manifest, env)), env) == None
    ensures OldOutweighsLine(d, manifest, env) ==> BothManifests(d, manifest, env) > TightQuota(d, manifest, env)
  {
    ManifestIsCounted(d);
    hide Total, FromJson, RecoveryError, ManifestLine, EntriesOf, StaleSize;
  }

  /** Under that quota a revision whose old manifest is longer than the line it
      journals (and any leftover) is admitted and exceeds the quota. */
  lemma TightQuotaIsExceeded(d: Disk, manifest: Bytes, config: Config, env: Env)
    requires ReplaceGuard(d, manifest, config, env) == None && OldOutweighsLine(d, manifest, env)
    ensures var tight := config.(maxBundleBytes := TightQuota(d, manifest, env));
            && ReplaceGuard(d, manifest, tight, env) == None
            && !AlwaysWithin(d, RevisionPlan(d, manifest, tight, env).ops, tight.maxBundleBytes)
  {
    var tight := config.(maxBundleBytes := TightQuota(d, manifest, env));
    hide *;
    TightAdmits(d, manifest, config, env);
    RevisionWithinQuota(d, manifest, tight, env);
  }
}
