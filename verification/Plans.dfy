/** What each store operation does to the session: the file-system calls it
    makes, in order, and how it ends when nothing interrupts it. */
module Plans {
  import opened Bytes
  import opened Errors
  import opened Files
  import opened JournalText
  import opened Journal
  import opened Manifest
  import Paths

  /** The foreign code the store calls: SHA-256 and the JSON deserializers. */
  datatype Env = Env(hash: Hash, parseLine: LineParser, parseManifest: ManifestParser)

  /** `maxBundleBytes` and `maxImageBytes` are `u64` fields. */
  datatype Config = Config(maxSessions: nat, maxCaptures: nat, maxImageBytes: nat, maxBundleBytes: nat)

  datatype Plan = Plan(ops: seq<FsOp>, error: Option<StoreError>)

  function Refuse(error: StoreError): Plan {
    Plan([], Some(error))
  }

  function Then(first: Plan, second: Plan): Plan {
    if first.error.Some? then first else Plan(first.ops + second.ops, second.error)
  }

  function Outcome(plan: Plan): Result<(), StoreError> {
    if plan.error.Some? then Err(plan.error.value) else Ok(())
  }

  /** `plan` was carried out from `d0` by a machine that stops after `n0`
      elementary effects, leaving `d1`, `n1` effects unused, and result `r`. */
  ghost predicate Done(d0: Disk, n0: nat, plan: Plan, d1: Disk, n1: nat, r: Result<(), StoreError>) {
    && d1 == Effects(d0, plan.ops, n0)
    && (if n0 >= CostAll(plan.ops) then n1 == n0 - CostAll(plan.ops) && r == Outcome(plan)
        else n1 == 0 && r == Err(Io))
  }

  lemma DoneStops(d0: Disk, n0: nat, a: Plan, d1: Disk, n1: nat, r: Result<(), StoreError>, b: Plan)
    requires Done(d0, n0, a, d1, n1, r) && r.Err?
    ensures Done(d0, n0, Then(a, b), d1, n1, r)
  {
    EffectsConcat(d0, a.ops, b.ops, n0);
    CostConcat(a.ops, b.ops);
  }

  lemma DoneThen(d0: Disk, n0: nat, a: Plan, d1: Disk, n1: nat, b: Plan, d2: Disk, n2: nat, r: Result<(), StoreError>)
    requires Done(d0, n0, a, d1, n1, Ok(())) && Done(d1, n1, b, d2, n2, r)
    ensures Done(d0, n0, Then(a, b), d2, n2, r)
    ensures d1 == RunAll(d0, a.ops)
  {
    EffectsAll(d0, a.ops, n0);
    EffectsConcat(d0, a.ops, b.ops, n0);
    CostConcat(a.ops, b.ops);
  }

  // ----- Atomic objects -----

  function WriteOps(path: Bytes, temp: Bytes, content: Bytes): seq<FsOp> {
    [Create(temp), Append(temp, content), Rename(temp, path)]
  }

  function CreatePlan(d: Disk, path: Bytes, temp: Bytes, content: Bytes): Plan {
    if path in d.files || temp in d.files then Refuse(Exists)
    else if !d.captures then Refuse(Io)
    else Plan(WriteOps(path, temp, content), None)
  }

  function ReplacePlan(d: Disk, path: Bytes, temp: Bytes, content: Bytes): Plan {
    Plan((if temp in d.files then [Remove(temp)] else []) + WriteOps(path, temp, content), None)
  }

  // ----- Journal -----

  function JournalOf(d: Disk): Bytes {
    if Paths.Journal() in d.files then d.files[Paths.Journal()] else []
  }

  function AppendPlan(d: Disk, operation: Operation, path: Bytes, content: Bytes, env: Env): Plan {
    if !Paths.IsJournalPath(path) then Refuse(JournalInvalid)
    else if Paths.Journal() !in d.files then Refuse(Io)
    else
      var recovery := Recovered(JournalOf(d), env.parseLine, env.hash);
      if recovery.Err? then Refuse(recovery.error)
      else
        var repair := if recovery.value.ignoredTruncatedTail
                      then [SetLength(Paths.Journal(), |Repaired(JournalOf(d))|)] else [];
        Plan(repair + [Append(Paths.Journal(),
                              JournalLine(recovery.value.entries, operation, path, content, env.hash))],
             None)
  }

  // ----- Sessions -----

  /** `others` is how many other sessions are stored. */
  function SessionGuard(d: Disk, others: nat, config: Config): Option<StoreError> {
    if d.session then Some(Exists)
    else if others >= config.maxSessions then Some(Quota)
    else if Paths.Journal() in d.files then Some(Io)
    else None
  }

  function MakeOps(): seq<FsOp> {
    [MakeSession, MakeCaptures, Create(Paths.Journal())]
  }

  function SessionPlan(d: Disk, others: nat, config: Config, env: Env): Plan {
    var refused := SessionGuard(d, others, config);
    if refused.Some? then Refuse(refused.value)
    else Then(Plan(MakeOps(), None), AppendPlan(RunAll(d, MakeOps()), SessionCreated, [], [], env))
  }

  // ----- Publishing -----

  /** The two lines a publication is predicted to append. */
  function CaptureLine(entries: seq<Entry>, id: Bytes, image: Bytes, env: Env): Bytes {
    JournalLine(entries, CapturePublished, Paths.ImagePath(id), image, env.hash)
  }

  function WithCapture(entries: seq<Entry>, id: Bytes, image: Bytes, env: Env): seq<Entry> {
    entries + [EntryFor(entries, CapturePublished, Paths.ImagePath(id), image, env.hash)]
  }

  function ManifestLine(entries: seq<Entry>, manifest: Bytes, env: Env): Bytes {
    JournalLine(entries, ManifestPublished, Paths.Manifest(), manifest, env.hash)
  }

  function EntriesOf(d: Disk, env: Env): seq<Entry> {
    var recovery := Recovered(JournalOf(d), env.parseLine, env.hash);
    if recovery.Ok? then recovery.value.entries else []
  }

  ghost function Projected(d: Disk, id: Bytes, image: Bytes, manifest: Bytes, env: Env): nat {
    var entries := EntriesOf(d, env);
    Total(d.files) + |image| + |manifest| + |CaptureLine(entries, id, image, env)|
    + |ManifestLine(WithCapture(entries, id, image, env), manifest, env)|
  }

  function RecoveryError(d: Disk, env: Env): Option<StoreError> {
    if Paths.Journal() !in d.files then Some(Io)
    else
      var recovery := Recovered(JournalOf(d), env.parseLine, env.hash);
      if recovery.Err? then Some(recovery.error) else None
  }

  /** Every check `publish_capture` makes before its first write, in order. */
  ghost function PublishGuard(d: Disk, id: Bytes, image: Bytes, manifest: Bytes, config: Config, env: Env)
    : Option<StoreError>
  {
    if !IsId(id) then Some(InvalidPath)
    else if image == [] || |image| > config.maxImageBytes then Some(Quota)
    else if !d.session then Some(InvalidPath)
    else if Paths.ImagePath(id) in d.files then Some(Exists)
    else if FromJson(manifest, env.parseManifest).None? then Some(ManifestInvalid)
    else if Total(d.files) > U64_MAX then Some(Quota)
    else if RecoveryError(d, env).Some? then RecoveryError(d, env)
    else if Projected(d, id, image, manifest, env) > config.maxBundleBytes then Some(Quota)
    else None
  }

  function ImagePlan(d: Disk, id: Bytes, image: Bytes, env: Env): Plan {
    CreatePlan(d, Paths.ImagePath(id), Paths.ImageTemp(env.hash(image)), image)
  }

  function ManifestPlan(d: Disk, manifest: Bytes, env: Env): Plan {
    ReplacePlan(d, Paths.Manifest(), Paths.ManifestTemp(env.hash(manifest)), manifest)
  }

  function ManifestWrites(d: Disk, manifest: Bytes, env: Env): Plan {
    var a := ManifestPlan(d, manifest, env);
    Then(a, AppendPlan(RunAll(d, a.ops), ManifestPublished, Paths.Manifest(), manifest, env))
  }

  function CaptureWrites(d: Disk, id: Bytes, image: Bytes, env: Env): Plan {
    var a := ImagePlan(d, id, image, env);
    Then(a, AppendPlan(RunAll(d, a.ops), CapturePublished, Paths.ImagePath(id), image, env))
  }

  ghost function PublishPlan(d: Disk, id: Bytes, image: Bytes, manifest: Bytes, config: Config, env: Env): Plan {
    var refused := PublishGuard(d, id, image, manifest, config, env);
    if refused.Some? then Refuse(refused.value)
    else
      var a := CaptureWrites(d, id, image, env);
      Then(a, ManifestWrites(RunAll(d, a.ops), manifest, env))
  }

  // ----- Replacing the manifest -----

  function ManifestSize(d: Disk): nat {
    if Paths.Manifest() in d.files then |d.files[Paths.Manifest()]| else 0
  }

  ghost function ReplaceGuard(d: Disk, manifest: Bytes, config: Config, env: Env): Option<StoreError> {
    if FromJson(manifest, env.parseManifest).None? then Some(ManifestInvalid)
    else if !d.session then Some(InvalidPath)
    else if Total(d.files) > U64_MAX then Some(Quota)
    else if RecoveryError(d, env).Some? then RecoveryError(d, env)
    else if Total(d.files) - ManifestSize(d) + |manifest| + |ManifestLine(EntriesOf(d, env), manifest, env)|
            > config.maxBundleBytes then Some(Quota)
    else None
  }

  ghost function RevisionPlan(d: Disk, manifest: Bytes, config: Config, env: Env): Plan {
    var refused := ReplaceGuard(d, manifest, config, env);
    if refused.Some? then Refuse(refused.value) else ManifestWrites(d, manifest, env)
  }

  // ----- Reading -----

  function ReadManifest(d: Disk): Result<Bytes, StoreError> {
    if !d.session then Err(InvalidPath)
    else if Paths.Manifest() !in d.files then Err(Io)
    else Ok(d.files[Paths.Manifest()])
  }

  predicate ImageMatches(content: Bytes, image: ImageEvidence, env: Env) {
    |content| == image.bytes && env.hash(content) == image.sha256
  }

  function ReadImage(d: Disk, image: ImageEvidence, env: Env): Result<Bytes, StoreError> {
    if image.relativePath !in d.files then Err(Io)
    else if !ImageMatches(d.files[image.relativePath], image, env) then Err(ArchiveInvalid)
    else Ok(d.files[image.relativePath])
  }

  function ReadCapture(d: Disk, id: Bytes, env: Env): Result<Bytes, StoreError> {
    if !IsId(id) then Err(InvalidPath)
    else
      var bytes := ReadManifest(d);
      if bytes.Err? then Err(bytes.error)
      else
        var m := FromJson(bytes.value, env.parseManifest);
        if m.None? then Err(ManifestInvalid)
        else
          var c := Lookup(m.value.captures, id);
          if c.None? then Err(InvalidPath) else ReadImage(d, c.value.image, env)
  }
}
