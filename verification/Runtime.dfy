/** The service: workers interleaving over one session, writers under the
    single-flight lease, readers without it, crashes anywhere. */
module Runtime {
  import opened Bytes
  import opened Errors
  import opened Files
  import opened Flight
  import opened Journal
  import opened Manifest
  import opened Plans
  import opened Integrity
  import opened Compare
  import opened Revision
  import opened Upkeep
  import opened Safety
  import opened Trail
  import Paths

  /** The daemon's surroundings: quotas, foreign code, its PNG decoder. */
  datatype Setup = Setup(config: Config, env: Env, decode: Bytes -> Option<Image>, sessionId: Bytes)

  /** The journal deserializer reads back what was written, and a decoded image
      carries the digest of the octets it was decoded from. */
  ghost predicate Lawful(setup: Setup) {
    && ReadsBack(setup.env.parseLine)
    && forall png: Bytes | setup.decode(png).Some? :: setup.decode(png).value.sha256 == setup.env.hash(png)
  }

  /** What a worker is doing. The first five hold the lease. */
  datatype Worker =
    | Held(ticket: Ticket, capturing: bool)
    | Making(ticket: Ticket, draft: Draft, ops: seq<FsOp>, error: Option<StoreError>)
    | Building(ticket: Ticket, draft: Draft, base: Evidence)
    | Editing(ticket: Ticket, base: Evidence)
    | Writing(ticket: Ticket, ops: seq<FsOp>)
    | Idle
    | Comparing(base: Evidence, todo: seq<Bytes>)
    | Fetching(base: Evidence, todo: seq<Bytes>, record: CaptureRecord)
    | Broken

  predicate Holds(worker: Worker) {
    worker.Held? || worker.Making? || worker.Building? || worker.Editing? || worker.Writing?
  }

  /** `cancelled` is the flag shared with the active lease. */
  datatype System = System(disk: Disk, gate: Gate, cancelled: bool, workers: seq<Worker>)

  datatype Change =
    | Review(captureId: Bytes, agent: Option<AgentResult>)
    | Select(before: Bytes, after: Bytes)
    | Annotate(note: Bytes)

  datatype Step =
    | Start(worker: nat, operationId: Bytes, capturing: bool)
    | Stop(operationId: Bytes, generation: nat)
    | Captured(worker: nat, draft: Draft, others: nat)
    | Effect(worker: nat)
    | Open(worker: nat, createdAt: nat, provenance: Provenance)
    | Publish(worker: nat, manifest: Bytes)
    | Load(worker: nat)
    | Revise(worker: nat, change: Change, manifest: Bytes)
    | Release(worker: nat)
    | Compare(worker: nat, ids: seq<Bytes>)
    | Find(worker: nat)
    | Fetch(worker: nat)
    | Crash

  // ----- Handlers -----

  function Loaded(d: Disk, env: Env): Option<Evidence> {
    if ReadManifest(d).Ok? then FromJson(ReadManifest(d).value, env.parseManifest) else None
  }

  /** `review_input`: the record, and its image read back and decoded. */
  function InputFor(setup: Setup, d: Disk, base: Evidence, id: Bytes): Option<(CaptureRecord, Image)> {
    var c := Lookup(base.captures, id);
    var png := ReadCapture(d, id, setup.env);
    if c.None? || png.Err? || setup.decode(png.value).None? then None
    else Some((c.value, setup.decode(png.value).value))
  }

  /** `latest` names the last capture. */
  function Requested(base: Evidence, id: Bytes): Bytes {
    if id == Ascii("latest") && base.captures != [] then base.captures[|base.captures| - 1].captureId else id
  }

  /** The manifest a review, a selection or a note asks for. */
  function Revised(setup: Setup, d: Disk, base: Evidence, change: Change): Option<Evidence> {
    match change
    case Review(id, agent) =>
      var input := InputFor(setup, d, base, Requested(base, id));
      if input.None? then None
      else
        var r := Reviewed(base, input.value.0, input.value.1, agent, setup.env.hash);
        if r.Ok? then Some(r.value) else None
    case Select(before, after) =>
      var b, a := InputFor(setup, d, base, before), InputFor(setup, d, base, after);
      if b.None? || a.None? then None
      else
        var c := Compared(ReviewOf(b.value.0, b.value.1), ReviewOf(a.value.0, a.value.1), setup.env.hash);
        if c.Ok? then Some(Selected(base, c.value)) else None
    case Annotate(note) => Some(Annotated(base, note))
  }

  function Be(w: System, i: nat, worker: Worker): Option<System>
    requires i < |w.workers|
  {
    Some(w.(workers := w.workers[i := worker]))
  }

  /** Any way a handler ends: a lease it holds is finished. */
  function End(w: System, i: nat): Option<System>
    requires i < |w.workers|
  {
    var gate := if Holds(w.workers[i]) then FinishOn(w.gate, w.workers[i].ticket).0 else w.gate;
    Some(w.(gate := gate, workers := w.workers[i := Idle]))
  }

  // ----- Steps -----

  function TakeStart(w: System, i: nat, operationId: Bytes, capturing: bool): Option<System>
    requires i < |w.workers|
  {
    var begun := BeginOn(w.gate, operationId);
    if !w.workers[i].Idle? || begun.1.Err? then None
    else Some(w.(gate := begun.0, cancelled := false, workers := w.workers[i := Held(begun.1.value, capturing)]))
  }

  /** The one look at the cancellation flag, after the tools have run. */
  function TakeCaptured(setup: Setup, w: System, i: nat, draft: Draft, others: nat): Option<System>
    requires i < |w.workers|
  {
    if !w.workers[i].Held? || !w.workers[i].capturing || setup.decode(draft.png) != Some(draft.image) then None
    else if w.cancelled then End(w, i)
    else
      var plan := SessionPlan(w.disk, others, setup.config, setup.env);
      Be(w, i, Making(w.workers[i].ticket, draft, plan.ops, plan.error))
  }

  /** One elementary effect on the disk. */
  function TakeEffect(w: System, i: nat): Option<System>
    requires i < |w.workers|
  {
    var worker := w.workers[i];
    if worker.Making? && worker.ops != [] then
      Be(w.(disk := First(w.disk, worker.ops)), i, Making(worker.ticket, worker.draft, Rest(worker.ops), worker.error))
    else if worker.Writing? && worker.ops != [] then
      Be(w.(disk := First(w.disk, worker.ops)), i, Writing(worker.ticket, Rest(worker.ops)))
    else None
  }

  /** With the session there, read its manifest or start a fresh one. */
  function TakeOpen(setup: Setup, w: System, i: nat, createdAt: nat, provenance: Provenance): Option<System>
    requires i < |w.workers|
  {
    var worker := w.workers[i];
    if !worker.Making? || worker.ops != [] then None
    else if worker.error !in {None, Some(Exists)} then End(w, i)
    else if !w.disk.session then End(w, i)
    else if ManifestFile(w.disk).None? then
      Be(w, i, Building(worker.ticket, worker.draft, Fresh(setup.sessionId, createdAt, provenance)))
    else if Loaded(w.disk, setup.env).None? then End(w, i)
    else Be(w, i, Building(worker.ticket, worker.draft, Loaded(w.disk, setup.env).value))
  }

  /** `manifest` is the serialized text of the manifest just built. */
  ghost function TakePublish(setup: Setup, w: System, i: nat, manifest: Bytes): Option<System>
    requires i < |w.workers|
  {
    var worker := w.workers[i];
    if !worker.Building? then None
    else
      var built := Published(worker.base, worker.draft, setup.config.maxCaptures, setup.env.hash);
      if built.Err? then End(w, i)
      else if setup.env.parseManifest(manifest) != Some(built.value) then None
      else
        var plan := PublishPlan(w.disk, NextId(worker.base, worker.draft), worker.draft.png, manifest, setup.config,
                                setup.env);
        Be(w, i, Writing(worker.ticket, plan.ops))
  }

  function TakeLoad(setup: Setup, w: System, i: nat): Option<System>
    requires i < |w.workers|
  {
    var worker := w.workers[i];
    if !worker.Held? || worker.capturing then None
    else if Loaded(w.disk, setup.env).None? then End(w, i)
    else Be(w, i, Editing(worker.ticket, Loaded(w.disk, setup.env).value))
  }

  ghost function TakeRevise(setup: Setup, w: System, i: nat, change: Change, manifest: Bytes): Option<System>
    requires i < |w.workers|
  {
    var worker := w.workers[i];
    if !worker.Editing? then None
    else
      var next := Revised(setup, w.disk, worker.base, change);
      if next.None? then End(w, i)
      else if setup.env.parseManifest(manifest) != next then None
      else Be(w, i, Writing(worker.ticket, RevisionPlan(w.disk, manifest, setup.config, setup.env).ops))
  }

  function TakeCompare(setup: Setup, w: System, i: nat, ids: seq<Bytes>): Option<System>
    requires i < |w.workers|
  {
    if !w.workers[i].Idle? then None
    else if Loaded(w.disk, setup.env).None? then Some(w)
    else Be(w, i, Comparing(Loaded(w.disk, setup.env).value, ids))
  }

  /** `read_capture` reads the manifest again, without the lease. */
  function TakeFind(setup: Setup, w: System, i: nat): Option<System>
    requires i < |w.workers|
  {
    var worker := w.workers[i];
    if !worker.Comparing? || worker.todo == [] then None
    else if !Has(worker.base.captures, worker.todo[0]) then End(w, i)
    else if Loaded(w.disk, setup.env).None? then Be(w, i, Broken)
    else
      var c := Lookup(Loaded(w.disk, setup.env).value.captures, worker.todo[0]);
      if c.None? then Be(w, i, Broken) else Be(w, i, Fetching(worker.base, worker.todo, c.value))
  }

  /** And later opens the image that manifest named. */
  function TakeFetch(setup: Setup, w: System, i: nat): Option<System>
    requires i < |w.workers|
  {
    var worker := w.workers[i];
    if !worker.Fetching? || worker.todo == [] then None
    else if ReadImage(w.disk, worker.record.image, setup.env).Err? then Be(w, i, Broken)
    else Be(w, i, Comparing(worker.base, worker.todo[1..]))
  }

  /** The system after one step, when the step is possible. */
  ghost function Take(setup: Setup, w: System, step: Step): Option<System> {
    if step.Stop? then
      Some(if Cancels(w.gate, step.operationId, step.generation) then w.(cancelled := true) else w)
    else if step.Crash? then Some(System(w.disk, OPEN, false, seq(|w.workers|, _ => Idle)))
    else if step.worker >= |w.workers| then None
    else
      match step
      case Start(i, operationId, capturing) => TakeStart(w, i, operationId, capturing)
      case Captured(i, draft, others) => TakeCaptured(setup, w, i, draft, others)
      case Effect(i) => TakeEffect(w, i)
      case Open(i, createdAt, provenance) => TakeOpen(setup, w, i, createdAt, provenance)
      case Publish(i, manifest) => TakePublish(setup, w, i, manifest)
      case Load(i) => TakeLoad(setup, w, i)
      case Revise(i, change, manifest) => TakeRevise(setup, w, i, change, manifest)
      case Release(i) => End(w, i)
      case Compare(i, ids) => TakeCompare(setup, w, i, ids)
      case Find(i) => TakeFind(setup, w, i)
      case Fetch(i) => TakeFetch(setup, w, i)
  }

  /** The system after a run of steps, when all of them are possible. */
  ghost function Run(setup: Setup, w: System, steps: seq<Step>): Option<System> {
    if steps == [] then Some(w)
    else
      var before := Run(setup, w, steps[..|steps| - 1]);
      if before.None? then None else Take(setup, before.value, steps[|steps| - 1])
  }

  predicate Initial(w: System) {
    && w.disk == Disk(false, false, map[]) && w.gate == OPEN && !w.cancelled
    && forall i | 0 <= i < |w.workers| :: w.workers[i].Idle?
  }

  // ----- The invariant -----

  /** What a worker relies on about the disk it shares. */
  ghost predicate WorkerOk(setup: Setup, d: Disk, worker: Worker) {
    match worker
    case Making(_, draft, ops, _) => SafeRun(d, ops, setup.config, setup.env) && Genuine(draft, setup.env)
    case Building(_, draft, base) => IsBase(d, base, setup.env) && Genuine(draft, setup.env)
    case Editing(_, base) => ManifestOf(d, setup.env) == Some(base)
    case Writing(_, ops) => SafeRun(d, ops, setup.config, setup.env)
    case Comparing(base, _) => base.captures <= CapturesOf(d, setup.env)
    case Fetching(base, todo, record) =>
      base.captures <= CapturesOf(d, setup.env) && todo != [] && Lookup(base.captures, todo[0]) == Some(record)
    case Broken => false
    case _ => true
  }

  predicate Exclusive(w: System) {
    && (forall i | 0 <= i < |w.workers| :: Holds(w.workers[i]) ==> w.gate.active == Some(w.workers[i].ticket))
    && (forall i, j | 0 <= i < |w.workers| && 0 <= j < |w.workers| ::
          Holds(w.workers[i]) && Holds(w.workers[j]) ==> i == j)
  }

  ghost predicate Inv(setup: Setup, w: System) {
    && Safe(w.disk, setup.config, setup.env) && Exclusive(w)
    && forall i | 0 <= i < |w.workers| :: WorkerOk(setup, w.disk, w.workers[i])
  }

  /** A step of worker `i` that leaves the disk and the lease alone. */
  lemma Becomes(setup: Setup, w: System, i: nat, worker: Worker)
    requires Inv(setup, w) && i < |w.workers| && WorkerOk(setup, w.disk, worker)
    requires Holds(worker) ==> Holds(w.workers[i]) && worker.ticket == w.workers[i].ticket
    ensures Inv(setup, Be(w, i, worker).value)
  {
    hide WorkerOk, Safe;
  }

  lemma Ends(setup: Setup, w: System, i: nat)
    requires Inv(setup, w) && i < |w.workers|
    ensures Inv(setup, End(w, i).value)
  {
    hide Safe, SafeRun, IsBase, ManifestOf, CapturesOf, Genuine, Lookup;
  }

  lemma StartKeeps(setup: Setup, w: System, i: nat, operationId: Bytes, capturing: bool)
    requires Inv(setup, w) && i < |w.workers| && TakeStart(w, i, operationId, capturing).Some?
    ensures Inv(setup, TakeStart(w, i, operationId, capturing).value)
  {
    hide Safe, SafeRun, IsBase, ManifestOf, CapturesOf, Genuine, Lookup, IsId;
  }

  lemma CapturedKeeps(setup: Setup, w: System, i: nat, draft: Draft, others: nat)
    requires Inv(setup, w) && Lawful(setup) && i < |w.workers| && TakeCaptured(setup, w, i, draft, others).Some?
    ensures Inv(setup, TakeCaptured(setup, w, i, draft, others).value)
  {
    hide Safe, SafeRun, SessionPlan;
    if w.cancelled {
      Ends(setup, w, i);
    } else {
      SessionIsSafe(w.disk, others, setup.config, setup.env);
      var plan := SessionPlan(w.disk, others, setup.config, setup.env);
      Becomes(setup, w, i, Making(w.workers[i].ticket, draft, plan.ops, plan.error));
    }
  }

  /** One effect of the lease holder: nobody else writes, and readers only see
      captures added. */
  lemma EffectKeeps(setup: Setup, w: System, i: nat)
    requires Inv(setup, w) && i < |w.workers| && TakeEffect(w, i).Some?
    ensures Inv(setup, TakeEffect(w, i).value)
    ensures CapturesOf(w.disk, setup.env) <= CapturesOf(TakeEffect(w, i).value.disk, setup.env)
    ensures KeepsImages(w.disk, TakeEffect(w, i).value.disk) && Extends(w.disk, TakeEffect(w, i).value.disk, setup.env)
  {
    hide Safe, SafeRun, IsBase, ManifestOf, CapturesOf, Genuine, Lookup, First, Rest, KeepsImages, Extends;
    assert WorkerOk(setup, w.disk, w.workers[i]);
    SafeRunSteps(w.disk, w.workers[i].ops, setup.config, setup.env);
    var d := First(w.disk, w.workers[i].ops);
    var next := TakeEffect(w, i).value;
    forall j | 0 <= j < |w.workers| ensures WorkerOk(setup, d, next.workers[j]) {
      if j != i {
        assert !Holds(w.workers[j]);
        assert WorkerOk(setup, w.disk, w.workers[j]);
        ReaderSurvives(setup, w.disk, d, w.workers[j]);
      }
    }
  }

  lemma ReaderSurvives(setup: Setup, d: Disk, s: Disk, worker: Worker)
    requires WorkerOk(setup, d, worker) && !Holds(worker)
    requires CapturesOf(d, setup.env) <= CapturesOf(s, setup.env)
    ensures WorkerOk(setup, s, worker)
  {
    hide CapturesOf, Lookup;
  }

  lemma OpenKeeps(setup: Setup, w: System, i: nat, createdAt: nat, provenance: Provenance)
    requires Inv(setup, w) && i < |w.workers| && TakeOpen(setup, w, i, createdAt, provenance).Some?
    ensures Inv(setup, TakeOpen(setup, w, i, createdAt, provenance).value)
  {
    hide Safe, SafeRun, FromJson, Exclusive;
    var worker := w.workers[i];
    assert WorkerOk(setup, w.disk, worker);
    if worker.error !in {None, Some(Exists)} || !w.disk.session
       || (ManifestFile(w.disk).Some? && Loaded(w.disk, setup.env).None?) {
      Ends(setup, w, i);
    } else {
      var base := if ManifestFile(w.disk).None? then Fresh(setup.sessionId, createdAt, provenance)
                  else Loaded(w.disk, setup.env).value;
      Becomes(setup, w, i, Building(worker.ticket, worker.draft, base));
    }
  }

  lemma PublishKeeps(setup: Setup, w: System, i: nat, manifest: Bytes)
    requires Inv(setup, w) && Lawful(setup) && i < |w.workers| && TakePublish(setup, w, i, manifest).Some?
    ensures Inv(setup, TakePublish(setup, w, i, manifest).value)
  {
    hide Safe, SafeRun, PublishPlan, Published, IsBase, Genuine, NextId, Exclusive;
    var worker := w.workers[i];
    assert WorkerOk(setup, w.disk, worker);
    if Published(worker.base, worker.draft, setup.config.maxCaptures, setup.env.hash).Err? {
      Ends(setup, w, i);
    } else {
      PublishIsSafe(w.disk, worker.base, worker.draft, manifest, setup.config, setup.env);
      var plan := PublishPlan(w.disk, NextId(worker.base, worker.draft), worker.draft.png, manifest, setup.config,
                              setup.env);
      Becomes(setup, w, i, Writing(worker.ticket, plan.ops));
    }
  }

  lemma LoadedIsManifest(d: Disk, env: Env)
    ensures Loaded(d, env).Some?
            ==> ManifestOf(d, env) == Loaded(d, env) && CapturesOf(d, env) == Loaded(d, env).value.captures
  {
    hide FromJson;
  }

  lemma LoadKeeps(setup: Setup, w: System, i: nat)
    requires Inv(setup, w) && i < |w.workers| && TakeLoad(setup, w, i).Some?
    ensures Inv(setup, TakeLoad(setup, w, i).value)
  {
    hide Safe, SafeRun, Loaded, Exclusive, ManifestOf;
    LoadedIsManifest(w.disk, setup.env);
    if Loaded(w.disk, setup.env).None? {
      Ends(setup, w, i);
    } else {
      Becomes(setup, w, i, Editing(w.workers[i].ticket, Loaded(w.disk, setup.env).value));
    }
  }

  /** Every revision keeps the captures and the daemon's invariant. */
  lemma RevisedIsKept(setup: Setup, d: Disk, base: Evidence, change: Change)
    requires Safe(d, setup.config, setup.env) && ManifestOf(d, setup.env) == Some(base)
    requires Revised(setup, d, base, change).Some?
    ensures Revised(setup, d, base, change).value.captures == base.captures
    ensures Kept(Revised(setup, d, base, change).value)
  {
    hide Integral, Total, FromJson, Kept, Lookup, ReadCapture;
    ManifestIsValid(d, setup.env);
    match change
    case Review(id, agent) =>
      var input := InputFor(setup, d, base, Requested(base, id)).value;
      hide Requested;
      ReviewedRevision(base, input.0, input.1, agent, setup.env.hash);
    case Select(before, after) => SameKept(base, Revised(setup, d, base, change).value);
    case Annotate(note) => SameKept(base, Revised(setup, d, base, change).value);
  }

  lemma ManifestIsValid(d: Disk, env: Env)
    requires ManifestOf(d, env).Some?
    ensures |ManifestOf(d, env).value.captures| <= MAX_CAPTURE_COUNT
  {
    hide ValidCapture, FindingsOk, AgentFindingsOk, ComparisonOk, BeforeAfterOk, Nesting.NestingWithinLimit, Distinct;
  }

  lemma SameKept(m: Evidence, n: Evidence)
    requires Kept(m) && n.captures == m.captures && n.findings == m.findings
    ensures Kept(n)
  {
    hide Named, Tidy;
  }

  lemma ReviewedRevision(m: Evidence, c: CaptureRecord, image: Image, agent: Option<AgentResult>, hash: Hash)
    requires Kept(m) && |m.captures| <= MAX_CAPTURE_COUNT && Lookup(m.captures, c.captureId).Some?
    requires Reviewed(m, c, image, agent, hash).Ok?
    ensures Reviewed(m, c, image, agent, hash).value.captures == m.captures
            && Kept(Reviewed(m, c, image, agent, hash).value)
  {
    hide Kept, ValidInput, Lookup, Keep, Findings.Found;
    ReviewedIsKept(m, c, image, agent, hash);
  }

  lemma ReviseKeeps(setup: Setup, w: System, i: nat, change: Change, manifest: Bytes)
    requires Inv(setup, w) && Lawful(setup) && i < |w.workers| && TakeRevise(setup, w, i, change, manifest).Some?
    ensures Inv(setup, TakeRevise(setup, w, i, change, manifest).value)
  {
    hide Safe, SafeRun, RevisionPlan, Revised, Exclusive, Kept, ManifestOf;
    var worker := w.workers[i];
    assert WorkerOk(setup, w.disk, worker);
    var next := Revised(setup, w.disk, worker.base, change);
    if next.None? {
      Ends(setup, w, i);
    } else {
      RevisedIsKept(setup, w.disk, worker.base, change);
      ParsedIsRead(manifest, next.value, setup.env);
      RevisionIsSafe(w.disk, manifest, setup.config, setup.env);
      Becomes(setup, w, i, Writing(worker.ticket, RevisionPlan(w.disk, manifest, setup.config, setup.env).ops));
    }
  }

  lemma ParsedIsRead(manifest: Bytes, m: Evidence, env: Env)
    requires env.parseManifest(manifest) == Some(m)
    ensures FromJson(manifest, env.parseManifest).Some? ==> FromJson(manifest, env.parseManifest).value == m
  {
    hide Valid, Nesting.NestingWithinLimit;
  }

  lemma CompareKeeps(setup: Setup, w: System, i: nat, ids: seq<Bytes>)
    requires Inv(setup, w) && i < |w.workers| && TakeCompare(setup, w, i, ids).Some?
    ensures Inv(setup, TakeCompare(setup, w, i, ids).value)
  {
    hide Safe, SafeRun, Loaded, Exclusive, CapturesOf;
    LoadedIsManifest(w.disk, setup.env);
    if Loaded(w.disk, setup.env).Some? {
      Becomes(setup, w, i, Comparing(Loaded(w.disk, setup.env).value, ids));
    }
  }

  /** A snapshot's capture is in every later manifest, with the same record. */
  lemma SnapshotSurvives(old_: seq<CaptureRecord>, now: seq<CaptureRecord>, id: Bytes)
    requires old_ <= now && Has(old_, id)
    ensures Lookup(now, id) == Lookup(old_, id)
  {
    assert now == old_ + now[|old_|..];
    LookupGrows(old_, now[|old_|..], id);
  }

  lemma SafeLoads(d: Disk, config: Config, env: Env)
    requires Safe(d, config, env) && CapturesOf(d, env) != []
    ensures Loaded(d, env).Some? && Loaded(d, env).value.captures == CapturesOf(d, env)
  {
    hide FromJson, AllHeld, Audited, Total, Kept;
  }

  lemma FindKeeps(setup: Setup, w: System, i: nat)
    requires Inv(setup, w) && i < |w.workers| && TakeFind(setup, w, i).Some?
    ensures Inv(setup, TakeFind(setup, w, i).value)
  {
    hide Safe, SafeRun, Loaded, Exclusive, CapturesOf;
    var worker := w.workers[i];
    assert WorkerOk(setup, w.disk, worker);
    if !Has(worker.base.captures, worker.todo[0]) {
      Ends(setup, w, i);
    } else {
      assert worker.base.captures != [];
      SafeLoads(w.disk, setup.config, setup.env);
      SnapshotSurvives(worker.base.captures, CapturesOf(w.disk, setup.env), worker.todo[0]);
      Becomes(setup, w, i, Fetching(worker.base, worker.todo, Lookup(worker.base.captures, worker.todo[0]).value));
    }
  }

  lemma ImageIsThere(d: Disk, c: CaptureRecord, config: Config, env: Env)
    requires Safe(d, config, env) && c in CapturesOf(d, env)
    ensures ReadImage(d, c.image, env).Ok?
  {
    hide FromJson, Audited, Total, Kept, Paths.ImagePath;
    var i :| 0 <= i < |CapturesOf(d, env)| && CapturesOf(d, env)[i] == c;
    assert ImageHeld(d, CapturesOf(d, env)[i], env);
  }

  lemma FetchKeeps(setup: Setup, w: System, i: nat)
    requires Inv(setup, w) && i < |w.workers| && TakeFetch(setup, w, i).Some?
    ensures Inv(setup, TakeFetch(setup, w, i).value)
  {
    hide Safe, SafeRun, ReadImage, Exclusive, CapturesOf;
    var worker := w.workers[i];
    assert WorkerOk(setup, w.disk, worker);
    assert worker.record in worker.base.captures;
    var k :| 0 <= k < |worker.base.captures| && worker.base.captures[k] == worker.record;
    assert CapturesOf(w.disk, setup.env)[k] == worker.record;
    ImageIsThere(w.disk, worker.record, setup.config, setup.env);
    Becomes(setup, w, i, Comparing(worker.base, worker.todo[1..]));
  }

  /** Only a lease holder's effects touch the disk. */
  lemma OnlyEffectsWrite(setup: Setup, w: System, step: Step)
    requires Take(setup, w, step).Some? && !step.Effect?
    ensures Take(setup, w, step).value.disk == w.disk
  {
    hide SessionPlan, PublishPlan, RevisionPlan, Loaded, Lookup, Revised, Published, ReadImage, Has, FinishOn, BeginOn;
  }

  lemma CrashKeeps(setup: Setup, w: System)
    requires Inv(setup, w)
    ensures Inv(setup, System(w.disk, OPEN, false, seq(|w.workers|, _ => Idle)))
  {
    hide Safe;
  }

  lemma StopKeeps(setup: Setup, w: System)
    requires Inv(setup, w)
    ensures Inv(setup, w.(cancelled := true))
  {
    hide Safe, WorkerOk;
  }

  lemma SameKeepsAll(d: Disk, env: Env)
    ensures KeepsImages(d, d) && Extends(d, d, env)
  {
    SameJournal(d, d, env);
    hide Extends;
  }

  /** Every step of every handler, and every crash, keeps the invariant; the
      captures on disk and the journal's entries only grow at the end, and no
      image is rewritten. */
  lemma StepKeeps(setup: Setup, w: System, step: Step)
    requires Inv(setup, w) && Lawful(setup) && Take(setup, w, step).Some?
    ensures Inv(setup, Take(setup, w, step).value)
    ensures CapturesOf(w.disk, setup.env) <= CapturesOf(Take(setup, w, step).value.disk, setup.env)
    ensures KeepsImages(w.disk, Take(setup, w, step).value.disk)
    ensures Extends(w.disk, Take(setup, w, step).value.disk, setup.env)
  {
    SameKeepsAll(w.disk, setup.env);
    hide KeepsImages, Extends, Inv, Lawful, CapturesOf, TakeStart, TakeCaptured, TakeEffect, TakeOpen, TakePublish,
         TakeLoad, TakeRevise, End, TakeCompare, TakeFind, TakeFetch, Cancels;
    if !step.Effect? {
      OnlyEffectsWrite(setup, w, step);
    }
    match step {
      case Start(i, operationId, capturing) => StartKeeps(setup, w, i, operationId, capturing);
      case Captured(i, draft, others) => CapturedKeeps(setup, w, i, draft, others);
      case Effect(i) => EffectKeeps(setup, w, i);
      case Open(i, createdAt, provenance) => OpenKeeps(setup, w, i, createdAt, provenance);
      case Publish(i, manifest) => PublishKeeps(setup, w, i, manifest);
      case Load(i) => LoadKeeps(setup, w, i);
      case Revise(i, change, manifest) => ReviseKeeps(setup, w, i, change, manifest);
      case Release(i) => Ends(setup, w, i);
      case Compare(i, ids) => CompareKeeps(setup, w, i, ids);
      case Find(i) => FindKeeps(setup, w, i);
      case Fetch(i) => FetchKeeps(setup, w, i);
      case Stop(operationId, generation) => StopKeeps(setup, w);
      case Crash => CrashKeeps(setup, w);
    }
  }

  lemma InitialIsSafe(setup: Setup, w: System)
    requires Initial(w)
    ensures Inv(setup, w)
  {
    EmptyDisk(setup.config, setup.env);
    hide Safe;
  }

  lemma EmptyDisk(config: Config, env: Env)
    ensures Safe(Disk(false, false, map[]), config, env)
  {
  }

  /** So every run from an empty store keeps the invariant. */
  lemma {:induction false} RunKeeps(setup: Setup, w: System, steps: seq<Step>)
    requires Inv(setup, w) && Lawful(setup) && Run(setup, w, steps).Some?
    ensures Inv(setup, Run(setup, w, steps).value)
    ensures CapturesOf(w.disk, setup.env) <= CapturesOf(Run(setup, w, steps).value.disk, setup.env)
    ensures KeepsImages(w.disk, Run(setup, w, steps).value.disk)
    ensures Extends(w.disk, Run(setup, w, steps).value.disk, setup.env)
    decreases |steps|
  {
    SameKeepsAll(w.disk, setup.env);
    hide Inv, Lawful, Take, CapturesOf, KeepsImages, Extends;
    if steps != [] {
      var n := |steps| - 1;
      RunKeeps(setup, w, steps[..n]);
      StepKeeps(setup, Run(setup, w, steps[..n]).value, steps[n]);
      ImagesKeptTwice(w.disk, Run(setup, w, steps[..n]).value.disk, Run(setup, w, steps).value.disk);
      ExtendsTwice(w.disk, Run(setup, w, steps[..n]).value.disk, Run(setup, w, steps).value.disk, setup.env);
    }
  }

  lemma ImagesKeptTwice(a: Disk, b: Disk, c: Disk)
    requires KeepsImages(a, b) && KeepsImages(b, c)
    ensures KeepsImages(a, c)
  {
    hide IsImageKey;
  }

  // ----- What it means -----

  /** In every run from an empty store, at every moment and after every crash,
      each capture the manifest names can be read back, with the recorded length
      and digest. */
  lemma EvidenceIsIntact(setup: Setup, w: System, steps: seq<Step>, id: Bytes)
    requires Initial(w) && Lawful(setup) && Run(setup, w, steps).Some?
    requires var d := Run(setup, w, steps).value.disk; IsId(id) && Has(CapturesOf(d, setup.env), id)
    ensures var d := Run(setup, w, steps).value.disk;
            var c := Lookup(CapturesOf(d, setup.env), id).value;
            var png := ReadCapture(d, id, setup.env);
            png.Ok? && |png.value| == c.image.bytes && setup.env.hash(png.value) == c.image.sha256
  {
    InitialIsSafe(setup, w);
    RunKeeps(setup, w, steps);
    hide Run, CapturesOf, Initial, Lawful, WorkerOk, Sound, ReadCapture, Lookup, Kept, Total, Audited;
    IntegralReads(Run(setup, w, steps).value.disk, id, setup.env);
  }

  /** And the journal, while within its bound, records every one of them. */
  lemma EvidenceIsJournaled(setup: Setup, w: System, steps: seq<Step>)
    requires Initial(w) && Lawful(setup) && Run(setup, w, steps).Some?
    requires var d := Run(setup, w, steps).value.disk;
             Paths.Journal() in d.files && |JournalOf(d)| <= MAX_JOURNAL_BYTES
    ensures var d := Run(setup, w, steps).value.disk;
            && Recovered(JournalOf(d), setup.env.parseLine, setup.env.hash).Ok?
            && EntriesHeld(d, EntriesOf(d, setup.env), setup.env)
            && AllJournaled(EntriesOf(d, setup.env), CapturesOf(d, setup.env))
  {
    InitialIsSafe(setup, w);
    RunKeeps(setup, w, steps);
    hide Run, CapturesOf, Initial, Lawful, WorkerOk, Sound, Recovered, EntriesHeld, AllJournaled, EntriesOf, Kept,
         Total;
  }

  /** No reader without the lease ever finds a capture of its snapshot missing
      or altered, whatever a writer is doing meanwhile. */
  lemma ReadersNeverBreak(setup: Setup, w: System, steps: seq<Step>, i: nat)
    requires Initial(w) && Lawful(setup) && Run(setup, w, steps).Some? && i < |Run(setup, w, steps).value.workers|
    ensures !Run(setup, w, steps).value.workers[i].Broken?
  {
    InitialIsSafe(setup, w);
    RunKeeps(setup, w, steps);
    hide Run, Initial, Lawful, Safe;
    assert WorkerOk(setup, Run(setup, w, steps).value.disk, Run(setup, w, steps).value.workers[i]);
  }

  lemma {:induction false} RunSplits(setup: Setup, w: System, a: seq<Step>, b: seq<Step>)
    requires Run(setup, w, a + b).Some?
    ensures Run(setup, w, a).Some? && Run(setup, Run(setup, w, a).value, b) == Run(setup, w, a + b)
    decreases |b|
  {
    hide Take;
    if b == [] {
      assert a + b == a;
    } else {
      var n := |b| - 1;
      assert (a + b)[..|a + b| - 1] == a + b[..n];
      RunSplits(setup, w, a, b[..n]);
    }
  }

  /** No capture is ever lost: whatever happens later, crashes included, the
      list at one moment is a prefix of the list at every later one. */
  lemma CapturesAreNeverLost(setup: Setup, w: System, steps: seq<Step>, k: nat)
    requires Initial(w) && Lawful(setup) && Run(setup, w, steps).Some? && k <= |steps|
    ensures Run(setup, w, steps[..k]).Some?
    ensures CapturesOf(Run(setup, w, steps[..k]).value.disk, setup.env)
            <= CapturesOf(Run(setup, w, steps).value.disk, setup.env)
  {
    hide *;
    assert steps == steps[..k] + steps[k..];
    RunSplits(setup, w, steps[..k], steps[k..]);
    InitialIsSafe(setup, w);
    RunKeeps(setup, w, steps[..k]);
    RunKeeps(setup, Run(setup, w, steps[..k]).value, steps[k..]);
  }

  /** No image is ever rewritten: one that lies on disk at some moment is there,
      octet for octet, at every later one. */
  lemma ImagesAreImmutable(setup: Setup, w: System, steps: seq<Step>, k: nat, id: Bytes)
    requires Initial(w) && Lawful(setup) && Run(setup, w, steps).Some? && k <= |steps| && IsId(id)
    ensures Run(setup, w, steps[..k]).Some?
    ensures var path := Paths.ImagePath(id);
            var before, after := Run(setup, w, steps[..k]).value.disk, Run(setup, w, steps).value.disk;
            path in before.files ==> path in after.files && after.files[path] == before.files[path]
  {
    hide Run, Initial, Lawful, Inv, CapturesOf, Paths.ImagePath, IsImageKey, IsId;
    assert steps == steps[..k] + steps[k..];
    RunSplits(setup, w, steps[..k], steps[k..]);
    InitialIsSafe(setup, w);
    KeysAreDistinct(id, Repeat(48, 64), Repeat(48, 64));
    RunKeeps(setup, w, steps[..k]);
    RunKeeps(setup, Run(setup, w, steps[..k]).value, steps[k..]);
  }

  /** The audit trail is append-only: while the journal at some moment is within
      the recovery bound, it was so before, and the entries at every earlier
      moment are the first of those it has now, torn tails, repairs and crashes
      included. */
  lemma JournalIsAppendOnly(setup: Setup, w: System, steps: seq<Step>, k: nat)
    requires Initial(w) && Lawful(setup) && Run(setup, w, steps).Some? && k <= |steps|
    ensures Run(setup, w, steps[..k]).Some?
    ensures var before, after := Run(setup, w, steps[..k]).value.disk, Run(setup, w, steps).value.disk;
            |JournalOf(after)| <= MAX_JOURNAL_BYTES ==>
              |JournalOf(before)| <= MAX_JOURNAL_BYTES && EntriesOf(before, setup.env) <= EntriesOf(after, setup.env)
  {
    hide Run, Initial, Lawful, Inv, CapturesOf, KeepsImages, EntriesOf;
    assert steps == steps[..k] + steps[k..];
    RunSplits(setup, w, steps[..k], steps[k..]);
    InitialIsSafe(setup, w);
    RunKeeps(setup, w, steps[..k]);
    RunKeeps(setup, Run(setup, w, steps[..k]).value, steps[k..]);
  }

  /** The findings stay few over every run: at most five for each capture, so at
      most 160, and the limit of 256 is never met. */
  lemma FindingsStayFew(setup: Setup, w: System, steps: seq<Step>)
    requires Initial(w) && Lawful(setup) && Run(setup, w, steps).Some?
    requires ManifestOf(Run(setup, w, steps).value.disk, setup.env).Some?
    ensures var m := ManifestOf(Run(setup, w, steps).value.disk, setup.env).value;
            |m.findings| <= 5 * |m.captures| <= 160
  {
    InitialIsSafe(setup, w);
    RunKeeps(setup, w, steps);
    var d := Run(setup, w, steps).value.disk;
    ManifestIsValid(d, setup.env);
    hide Run, Initial, Lawful, WorkerOk, Integral, Total, ManifestOf, Tidy, Named;
    var m := ManifestOf(d, setup.env).value;
    TidyIsShort(m.captures, m.findings);
  }

  /** A second review of the same capture without an agent, on any later disk
      that shows the first one's manifest, asks for that very manifest. */
  lemma RepeatedReviewChangesNothing(setup: Setup, d: Disk, later: Disk, base: Evidence, id: Bytes)
    requires Safe(d, setup.config, setup.env) && ManifestOf(d, setup.env) == Some(base)
    requires Revised(setup, d, base, Review(id, None)).Some?
    requires Safe(later, setup.config, setup.env) && KeepsImages(d, later)
    requires ManifestOf(later, setup.env) == Revised(setup, d, base, Review(id, None))
    ensures var next := Revised(setup, d, base, Review(id, None)).value;
            Revised(setup, later, next, Review(id, None)) == Some(next)
  {
    var next := Revised(setup, d, base, Review(id, None)).value;
    var chosen := Requested(base, id);
    RevisedIsKept(setup, d, base, Review(id, None));
    assert Requested(next, id) == chosen;
    hide Safe, Requested, Kept, ReadCapture, Reviewed, ManifestOf, Lookup, KeepsImages;
    var input := InputFor(setup, d, base, chosen).value;
    SameImage(setup, d, later, base, next, chosen);
    FirstReview(setup, base, input, next);
  }

  lemma FirstReview(setup: Setup, base: Evidence, input: (CaptureRecord, Image), next: Evidence)
    requires Reviewed(base, input.0, input.1, None, setup.env.hash) == Ok(next)
    ensures Reviewed(next, input.0, input.1, None, setup.env.hash) == Ok(next)
  {
    hide Reviewed;
    ReviewIsIdempotent(base, input.0, input.1, setup.env.hash);
  }

  lemma SameImage(setup: Setup, d: Disk, later: Disk, base: Evidence, next: Evidence, id: Bytes)
    requires Safe(d, setup.config, setup.env) && ManifestOf(d, setup.env) == Some(base)
    requires Safe(later, setup.config, setup.env) && ManifestOf(later, setup.env) == Some(next)
    requires KeepsImages(d, later) && next.captures == base.captures && InputFor(setup, d, base, id).Some?
    ensures InputFor(setup, later, next, id) == InputFor(setup, d, base, id)
  {
    assert IsId(id) && Has(base.captures, id);
    KeysAreDistinct(id, Repeat(48, 64), Repeat(48, 64));
    hide ReadCapture, ManifestFile, FromJson, Lookup, Sound, Audited, Kept, Total, IsImageKey, IsId, Paths.ImagePath;
    IntegralReads(d, id, setup.env);
    IntegralReads(later, id, setup.env);
  }

  /** The session never weighs more than its quota and one manifest. */
  lemma SessionStaysSmall(setup: Setup, w: System, steps: seq<Step>)
    requires Initial(w) && Lawful(setup) && Run(setup, w, steps).Some?
    ensures Total(Run(setup, w, steps).value.disk.files) <= setup.config.maxBundleBytes + 1_048_576
  {
    InitialIsSafe(setup, w);
    RunKeeps(setup, w, steps);
    hide Run, Initial, Lawful, WorkerOk, Integral, Kept, Total;
  }

  /** At most one worker holds the lease, and it is the gate's active one. */
  lemma LeaseIsExclusive(setup: Setup, w: System, steps: seq<Step>)
    requires Initial(w) && Lawful(setup) && Run(setup, w, steps).Some?
    ensures Exclusive(Run(setup, w, steps).value)
  {
    InitialIsSafe(setup, w);
    RunKeeps(setup, w, steps);
    hide Run, Initial, Lawful, WorkerOk, Safe;
  }

  /** What a writer read under its lease is still what is on disk when it builds
      the next manifest from it: no update is lost. */
  lemma NoUpdateIsLost(setup: Setup, w: System, steps: seq<Step>, i: nat)
    requires Initial(w) && Lawful(setup) && Run(setup, w, steps).Some? && i < |Run(setup, w, steps).value.workers|
    ensures var s := Run(setup, w, steps).value;
            && (s.workers[i].Editing? ==> ManifestOf(s.disk, setup.env) == Some(s.workers[i].base))
            && (s.workers[i].Building? ==> IsBase(s.disk, s.workers[i].base, setup.env))
  {
    InitialIsSafe(setup, w);
    RunKeeps(setup, w, steps);
    hide Run, Initial, Lawful, Safe, ManifestOf, IsBase;
    assert WorkerOk(setup, Run(setup, w, steps).value.disk, Run(setup, w, steps).value.workers[i]);
  }

  // ----- Effects add up -----

  lemma {:induction false} RunsOn(setup: Setup, w: System, step: Step, steps: seq<Step>)
    requires Take(setup, w, step).Some?
    ensures Run(setup, w, [step] + steps) == Run(setup, Take(setup, w, step).value, steps)
    decreases |steps|
  {
    hide Take;
    if steps == [] {
      assert [step] + steps == [step] && [step][..0] == [];
      assert Run(setup, w, []) == Some(w);
    } else {
      var n := |steps| - 1;
      assert ([step] + steps)[..n + 1] == [step] + steps[..n];
      RunsOn(setup, w, step, steps[..n]);
    }
  }

  lemma WholeOfRest(d: Disk, ops: seq<FsOp>)
    requires ops != []
    ensures RunAll(First(d, ops), Rest(ops)) == RunAll(d, ops)
    ensures CostAll(Rest(ops)) + |Rest(ops)| < CostAll(ops) + |ops|
  {
    var op := ops[0];
    if op.Append? && |op.data| > 1 {
      var rest := Append(op.path, op.data[1..]);
      assert ([rest] + ops[1..])[1..] == ops[1..];
      AppendTwice(d, op.path, op.data[..1], op.data[1..]);
      assert op.data[..1] + op.data[1..] == op.data;
    }
  }

  /** A writer that is left alone ends with the whole of its plan carried out,
      and nothing else in the system has changed. */
  lemma {:induction false} WriterFinishes(setup: Setup, w: System, i: nat) returns (steps: seq<Step>)
    requires i < |w.workers| && w.workers[i].Writing?
    ensures var worker := w.workers[i];
            Run(setup, w, steps)
            == Some(w.(disk := RunAll(w.disk, worker.ops), workers := w.workers[i := Writing(worker.ticket, [])]))
    ensures forall step | step in steps :: step == Effect(i)
    decreases CostAll(w.workers[i].ops) + |w.workers[i].ops|
  {
    var worker := w.workers[i];
    if worker.ops == [] {
      steps := [];
      assert w.workers[i := Writing(worker.ticket, [])] == w.workers;
    } else {
      hide First, Rest, CostAll, Run;
      WholeOfRest(w.disk, worker.ops);
      var next := Take(setup, w, Effect(i)).value;
      var rest := WriterFinishes(setup, next, i);
      RunsOn(setup, w, Effect(i), rest);
      steps := [Effect(i)] + rest;
      assert next.workers[i := Writing(worker.ticket, [])] == w.workers[i := Writing(worker.ticket, [])];
    }
  }
}
