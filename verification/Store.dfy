/** The store's operations as they run: every call changes the disk in place,
    and the machine may stop after any elementary effect. */
module Store {
  import opened Bytes
  import opened Errors
  import opened Files
  import opened JournalText
  import opened Journal
  import opened Manifest
  import opened Plans
  import Paths

  class EvidenceStore {
    const config: Config
    const env: Env
    var disk: Disk
    /** Elementary effects left before a crash or a failing call. */
    var budget: nat

    constructor (config: Config, env: Env, disk: Disk, budget: nat)
      ensures this.config == config && this.env == env && this.disk == disk && this.budget == budget
    {
      this.config, this.env, this.disk, this.budget := config, env, disk, budget;
    }

    /** One call other than a write. */
    method Call(op: FsOp) returns (r: Result<(), StoreError>)
      requires !op.Append?
      modifies this
      ensures Done(old(disk), old(budget), Plan([op], None), disk, budget, r)
    {
      OneCall(disk, op, budget);
      hide Apply;
      if budget == 0 {
        return Err(Io);
      }
      disk := Apply(op, disk);
      budget := budget - 1;
      r := Ok(());
    }

    /** `write_all`: the operating system takes the data in pieces of its own
        choosing, and may stop inside one. */
    method WriteAll(path: Bytes, data: Bytes) returns (r: Result<(), StoreError>)
      requires path in disk.files
      modifies this
      ensures Done(old(disk), old(budget), Plan([Append(path, data)], None), disk, budget, r)
    {
      ghost var before, fuel := disk, budget;
      var written := 0;
      assert data[..0] == [] && before.files[path] + [] == before.files[path];
      assert Apply(Append(path, data[..0]), before) == before;
      while written < |data|
        invariant written <= |data| && fuel == budget + written
        invariant path in disk.files && disk == Apply(Append(path, data[..written]), before)
      {
        var piece: nat :| 1 <= piece <= |data| - written;
        var taken := if piece <= budget then piece else budget;
        AppendTwice(before, path, data[..written], data[written..written + taken]);
        assert data[..written] + data[written..written + taken] == data[..written + taken];
        disk := Apply(Append(path, data[written..written + taken]), disk);
        budget := budget - taken;
        written := written + taken;
        if taken < piece {
          assert Part(Append(path, data), before, fuel) == disk;
          return Err(Io);
        }
      }
      assert data[..|data|] == data;
      r := Ok(());
    }

    /** Temporary file, then rename. */
    method WriteObject(path: Bytes, temp: Bytes, content: Bytes) returns (r: Result<(), StoreError>)
      modifies this
      ensures Done(old(disk), old(budget), Plan(WriteOps(path, temp, content), None), disk, budget, r)
    {
      ghost var d0, n0 := disk, budget;
      var create, write, rename := Plan([Create(temp)], None), Plan([Append(temp, content)], None),
          Plan([Rename(temp, path)], None);
      assert Then(create, Then(write, rename)) == Plan(WriteOps(path, temp, content), None);
      assert temp in RunAll(d0, create.ops).files;
      hide Done, Apply, Effects;
      r := Call(Create(temp));
      if r.Err? {
        DoneStops(d0, n0, create, disk, budget, r, Then(write, rename));
        return;
      }
      ghost var d1, n1 := disk, budget;
      assert d1 == RunAll(d0, create.ops) by {
        DoneRuns(d0, n0, create, d1, n1);
      }
      r := WriteAll(temp, content);
      if r.Err? {
        DoneStops(d1, n1, write, disk, budget, r, rename);
        DoneThen(d0, n0, create, d1, n1, Then(write, rename), disk, budget, r);
        return;
      }
      ghost var d2, n2 := disk, budget;
      r := Call(Rename(temp, path));
      DoneThen(d1, n1, write, d2, n2, rename, disk, budget, r);
      DoneThen(d0, n0, create, d1, n1, Then(write, rename), disk, budget, r);
    }

    method AtomicCreate(path: Bytes, temp: Bytes, content: Bytes) returns (r: Result<(), StoreError>)
      modifies this
      ensures Done(old(disk), old(budget), CreatePlan(old(disk), path, temp, content), disk, budget, r)
    {
      if path in disk.files {
        return Err(Exists);
      }
      if temp in disk.files {
        return Err(Exists);
      }
      if !disk.captures {
        return Err(Io);
      }
      r := WriteObject(path, temp, content);
    }

    method AtomicReplace(path: Bytes, temp: Bytes, content: Bytes) returns (r: Result<(), StoreError>)
      modifies this
      ensures Done(old(disk), old(budget), ReplacePlan(old(disk), path, temp, content), disk, budget, r)
    {
      ghost var d0, n0 := disk, budget;
      ghost var write := Plan(WriteOps(path, temp, content), None);
      if temp in disk.files {
        ghost var remove := Plan([Remove(temp)], None);
        assert ReplacePlan(d0, path, temp, content) == Then(remove, write);
        hide Done, ReplacePlan, WriteOps;
        r := Call(Remove(temp));
        if r.Err? {
          DoneStops(d0, n0, remove, disk, budget, r, write);
          return;
        }
        ghost var d1, n1 := disk, budget;
        r := WriteObject(path, temp, content);
        DoneThen(d0, n0, remove, d1, n1, write, disk, budget, r);
      } else {
        assert ReplacePlan(d0, path, temp, content) == write;
        r := WriteObject(path, temp, content);
      }
    }

    method AppendJournal(operation: Operation, path: Bytes, content: Bytes) returns (r: Result<(), StoreError>)
      modifies this
      ensures Done(old(disk), old(budget), AppendPlan(old(disk), operation, path, content, env), disk, budget, r)
    {
      ghost var d0, n0 := disk, budget;
      if !Paths.IsJournalPath(path) {
        return Err(JournalInvalid);
      }
      if Paths.Journal() !in disk.files {
        return Err(Io);
      }
      var bytes := disk.files[Paths.Journal()];
      var recovery := RecoverJournal(bytes, env.parseLine, env.hash);
      if recovery.Err? {
        return Err(recovery.error);
      }
      var line := JournalLine(recovery.value.entries, operation, path, content, env.hash);
      ghost var append := Plan([Append(Paths.Journal(), line)], None);
      if recovery.value.ignoredTruncatedTail {
        var length := ValidLength(bytes);
        ghost var repair := Plan([SetLength(Paths.Journal(), length)], None);
        assert AppendPlan(d0, operation, path, content, env) == Then(repair, append);
        hide Done, AppendPlan, JournalLine, Paths.IsJournalPath, Recovered, Repaired;
        r := Call(SetLength(Paths.Journal(), length));
        if r.Err? {
          DoneStops(d0, n0, repair, disk, budget, r, append);
          return;
        }
        ghost var d1, n1 := disk, budget;
        DoneRuns(d0, n0, repair, d1, n1);
        r := WriteAll(Paths.Journal(), line);
        DoneThen(d0, n0, repair, d1, n1, append, disk, budget, r);
      } else {
        assert [] + append.ops == append.ops;
        assert AppendPlan(d0, operation, path, content, env) == append;
        r := WriteAll(Paths.Journal(), line);
      }
    }

    method CreateSession(others: nat) returns (r: Result<(), StoreError>)
      modifies this
      ensures Done(old(disk), old(budget), SessionPlan(old(disk), others, config, env), disk, budget, r)
    {
      ghost var d0, n0 := disk, budget;
      if disk.session {
        return Err(Exists);
      }
      if others >= config.maxSessions {
        return Err(Quota);
      }
      if Paths.Journal() in disk.files {
        return Err(Io);
      }
      ghost var make := Plan(MakeOps(), None);
      ghost var append := AppendPlan(RunAll(d0, MakeOps()), SessionCreated, [], [], env);
      assert SessionPlan(d0, others, config, env) == Then(make, append);
      hide Done, AppendPlan, SessionPlan;
      r := MakeFiles();
      if r.Err? {
        DoneStops(d0, n0, make, disk, budget, r, append);
        return;
      }
      ghost var d1, n1 := disk, budget;
      DoneRuns(d0, n0, make, d1, n1);
      r := AppendJournal(SessionCreated, [], []);
      DoneThen(d0, n0, make, d1, n1, append, disk, budget, r);
    }

    /** The session directory, its `captures` directory, an empty journal. */
    method MakeFiles() returns (r: Result<(), StoreError>)
      modifies this
      ensures Done(old(disk), old(budget), Plan(MakeOps(), None), disk, budget, r)
    {
      ghost var d0, n0 := disk, budget;
      ghost var a, b, c := Plan([MakeSession], None), Plan([MakeCaptures], None), Plan([Create(Paths.Journal())], None);
      assert Then(a, Then(b, c)) == Plan(MakeOps(), None);
      hide Done;
      r := Call(MakeSession);
      if r.Err? {
        DoneStops(d0, n0, a, disk, budget, r, Then(b, c));
        return;
      }
      ghost var d1, n1 := disk, budget;
      r := Call(MakeCaptures);
      if r.Err? {
        DoneStops(d1, n1, b, disk, budget, r, c);
        DoneThen(d0, n0, a, d1, n1, Then(b, c), disk, budget, r);
        return;
      }
      ghost var d2, n2 := disk, budget;
      r := Call(Create(Paths.Journal()));
      DoneThen(d1, n1, b, d2, n2, c, disk, budget, r);
      DoneThen(d0, n0, a, d1, n1, Then(b, c), disk, budget, r);
    }

    method PublishCapture(id: Bytes, image: Bytes, manifest: Bytes) returns (r: Result<(), StoreError>)
      modifies this
      ensures Done(old(disk), old(budget), PublishPlan(old(disk), id, image, manifest, config, env), disk, budget, r)
    {
      ghost var d0, n0 := disk, budget;
      var refused := CheckPublication(id, image, manifest);
      if refused.Some? {
        return Err(refused.value);
      }
      ghost var a := CaptureWrites(d0, id, image, env);
      ghost var b := ManifestWrites(RunAll(d0, a.ops), manifest, env);
      assert PublishPlan(d0, id, image, manifest, config, env) == Then(a, b);
      hide Done, PublishPlan, CaptureWrites, ManifestWrites;
      r := WriteCapture(id, image);
      if r.Err? {
        DoneStops(d0, n0, a, disk, budget, r, b);
        return;
      }
      ghost var d1, n1 := disk, budget;
      DoneRuns(d0, n0, a, d1, n1);
      r := WriteManifest(manifest);
      DoneThen(d0, n0, a, d1, n1, b, disk, budget, r);
    }

    /** The checks before the first write. */
    method CheckPublication(id: Bytes, image: Bytes, manifest: Bytes) returns (refused: Option<StoreError>)
      ensures refused == PublishGuard(disk, id, image, manifest, config, env)
    {
      hide Recovered, JournalLine, FromJson, Total, IsId, Paths.ImagePath;
      if !IsId(id) {
        return Some(InvalidPath);
      }
      if image == [] || |image| > config.maxImageBytes {
        return Some(Quota);
      }
      if !disk.session {
        return Some(InvalidPath);
      }
      if Paths.ImagePath(id) in disk.files {
        return Some(Exists);
      }
      if FromJson(manifest, env.parseManifest).None? {
        return Some(ManifestInvalid);
      }
      var current := SessionSize(disk.files);
      if current > U64_MAX {
        return Some(Quota);
      }
      if Paths.Journal() !in disk.files {
        return Some(Io);
      }
      var recovery := RecoverJournal(disk.files[Paths.Journal()], env.parseLine, env.hash);
      if recovery.Err? {
        return Some(recovery.error);
      }
      var entries := recovery.value.entries;
      var captureLine := CaptureLine(entries, id, image, env);
      var manifestLine := ManifestLine(WithCapture(entries, id, image, env), manifest, env);
      if current + |image| + |manifest| + |captureLine| + |manifestLine| > config.maxBundleBytes {
        return Some(Quota);
      }
      refused := None;
    }

    method WriteCapture(id: Bytes, image: Bytes) returns (r: Result<(), StoreError>)
      modifies this
      ensures Done(old(disk), old(budget), CaptureWrites(old(disk), id, image, env), disk, budget, r)
    {
      ghost var d0, n0 := disk, budget;
      ghost var a := ImagePlan(d0, id, image, env);
      ghost var b := AppendPlan(RunAll(d0, a.ops), CapturePublished, Paths.ImagePath(id), image, env);
      assert CaptureWrites(d0, id, image, env) == Then(a, b);
      assert a == CreatePlan(d0, Paths.ImagePath(id), Paths.ImageTemp(env.hash(image)), image);
      hide Done, AppendPlan, CreatePlan, ImagePlan;
      r := AtomicCreate(Paths.ImagePath(id), Paths.ImageTemp(env.hash(image)), image);
      if r.Err? {
        DoneStops(d0, n0, a, disk, budget, r, b);
        return;
      }
      ghost var d1, n1 := disk, budget;
      DoneRuns(d0, n0, a, d1, n1);
      r := AppendJournal(CapturePublished, Paths.ImagePath(id), image);
      DoneThen(d0, n0, a, d1, n1, b, disk, budget, r);
    }

    method WriteManifest(manifest: Bytes) returns (r: Result<(), StoreError>)
      modifies this
      ensures Done(old(disk), old(budget), ManifestWrites(old(disk), manifest, env), disk, budget, r)
    {
      ghost var d0, n0 := disk, budget;
      ghost var a := ManifestPlan(d0, manifest, env);
      ghost var b := AppendPlan(RunAll(d0, a.ops), ManifestPublished, Paths.Manifest(), manifest, env);
      assert ManifestWrites(d0, manifest, env) == Then(a, b);
      assert a == ReplacePlan(d0, Paths.Manifest(), Paths.ManifestTemp(env.hash(manifest)), manifest);
      hide Done, AppendPlan, ReplacePlan, ManifestPlan;
      r := AtomicReplace(Paths.Manifest(), Paths.ManifestTemp(env.hash(manifest)), manifest);
      if r.Err? {
        DoneStops(d0, n0, a, disk, budget, r, b);
        return;
      }
      ghost var d1, n1 := disk, budget;
      DoneRuns(d0, n0, a, d1, n1);
      r := AppendJournal(ManifestPublished, Paths.Manifest(), manifest);
      DoneThen(d0, n0, a, d1, n1, b, disk, budget, r);
    }

    method ReplaceManifest(manifest: Bytes) returns (r: Result<(), StoreError>)
      modifies this
      ensures Done(old(disk), old(budget), RevisionPlan(old(disk), manifest, config, env), disk, budget, r)
    {
      var refused := CheckRevision(manifest);
      if refused.Some? {
        return Err(refused.value);
      }
      r := WriteManifest(manifest);
    }

    method CheckRevision(manifest: Bytes) returns (refused: Option<StoreError>)
      ensures refused == ReplaceGuard(disk, manifest, config, env)
    {
      hide Recovered, JournalLine, FromJson, Total;
      if FromJson(manifest, env.parseManifest).None? {
        return Some(ManifestInvalid);
      }
      if !disk.session {
        return Some(InvalidPath);
      }
      var current := SessionSize(disk.files);
      if current > U64_MAX {
        return Some(Quota);
      }
      var previous := if Paths.Manifest() in disk.files then |disk.files[Paths.Manifest()]| else 0;
      if Paths.Journal() !in disk.files {
        return Some(Io);
      }
      var recovery := RecoverJournal(disk.files[Paths.Journal()], env.parseLine, env.hash);
      if recovery.Err? {
        return Some(recovery.error);
      }
      var line := ManifestLine(recovery.value.entries, manifest, env);
      if current - previous + |manifest| + |line| > config.maxBundleBytes {
        return Some(Quota);
      }
      refused := None;
    }

    method ReadCaptureBytes(id: Bytes) returns (r: Result<Bytes, StoreError>)
      ensures r == ReadCapture(disk, id, env)
    {
      if !IsId(id) {
        return Err(InvalidPath);
      }
      if !disk.session {
        return Err(InvalidPath);
      }
      if Paths.Manifest() !in disk.files {
        return Err(Io);
      }
      var manifest := FromJson(disk.files[Paths.Manifest()], env.parseManifest);
      if manifest.None? {
        return Err(ManifestInvalid);
      }
      var captures := manifest.value.captures;
      for i := 0 to |captures|
        invariant Lookup(captures, id) == Lookup(captures[i..], id)
      {
        assert captures[i..][1..] == captures[i + 1..];
        if captures[i].captureId == id {
          var image := captures[i].image;
          if image.relativePath !in disk.files {
            return Err(Io);
          }
          var bytes := disk.files[image.relativePath];
          if |bytes| != image.bytes || env.hash(bytes) != image.sha256 {
            return Err(ArchiveInvalid);
          }
          return Ok(bytes);
        }
      }
      assert captures[|captures|..] == [];
      r := Err(InvalidPath);
    }
  }

  lemma OneCall(d: Disk, op: FsOp, n: nat)
    requires !op.Append?
    ensures CostAll([op]) == 1
    ensures Effects(d, [op], n) == if n == 0 then d else Apply(op, d)
  {
    hide Apply;
    assert [op][1..] == [];
    if n > 0 {
      assert Effects(Apply(op, d), [], n - 1) == Apply(op, d);
    }
  }

  /** A step that ended well was carried out in full. */
  lemma DoneRuns(d0: Disk, n0: nat, plan: Plan, d1: Disk, n1: nat)
    requires Done(d0, n0, plan, d1, n1, Ok(()))
    ensures d1 == RunAll(d0, plan.ops)
  {
    EffectsAll(d0, plan.ops, n0);
  }
}
