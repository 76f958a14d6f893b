/** The handlers as they run, one request at a time: lease, store calls in
    order, release. The machine may stop after any elementary disk effect. */
module Service {
  import opened Bytes
  import opened Errors
  import opened Files
  import opened Flight
  import opened Manifest
  import opened Plans
  import opened Store
  import opened Quota
  import opened Integrity
  import opened Compare
  import opened Revision
  import opened Safety
  import opened Runtime
  import Completion
  import Contents
  import Measures
  import Journal
  import Paths

  datatype Response = Busy | Cancelled | ToolFailed | Failed(error: StoreError) | NotFound | Done

  /** A handler's run: safe where it ends, and no capture lost on the way. */
  ghost predicate Progress(d0: Disk, d1: Disk, setup: Setup) {
    Safe(d1, setup.config, setup.env) && CapturesOf(d0, setup.env) <= CapturesOf(d1, setup.env)
  }

  lemma ProgressStays(d: Disk, setup: Setup)
    requires Safe(d, setup.config, setup.env)
    ensures Progress(d, d, setup)
  {
    hide Safe, CapturesOf;
  }

  lemma ProgressThen(d0: Disk, d1: Disk, d2: Disk, setup: Setup)
    requires Progress(d0, d1, setup) && Progress(d1, d2, setup)
    ensures Progress(d0, d2, setup)
  {
    hide Safe, CapturesOf;
  }

  /** However far a safe plan got, it made progress. */
  lemma RunProgresses(d0: Disk, n0: nat, plan: Plan, d1: Disk, n1: nat, r: Result<(), StoreError>, setup: Setup)
    requires SafeRun(d0, plan.ops, setup.config, setup.env) && Plans.Done(d0, n0, plan, d1, n1, r)
    ensures Progress(d0, d1, setup)
  {
    hide Safe, CapturesOf, Effects, CostAll;
    ZeroEffects(d0, plan.ops);
    assert CapturesOf(Effects(d0, plan.ops, 0), setup.env) <= CapturesOf(Effects(d0, plan.ops, n0), setup.env);
  }

  lemma DoneWhole(d0: Disk, n0: nat, plan: Plan, d1: Disk, n1: nat, r: Result<(), StoreError>)
    requires Plans.Done(d0, n0, plan, d1, n1, r)
    ensures n0 >= CostAll(plan.ops) ==> d1 == RunAll(d0, plan.ops)
  {
    if n0 >= CostAll(plan.ops) {
      EffectsAll(d0, plan.ops, n0);
    }
  }

  // ----- When a request succeeds -----

  /** The session is there or can be made before the machine stops, and a
      manifest in it can be read. */
  predicate WillOpen(setup: Setup, d: Disk, budget: nat, others: nat) {
    var made, d1 := SessionPlan(d, others, setup.config, setup.env), Completion.Opened(setup, d, others);
    && budget >= CostAll(made.ops) && made.error in {None, Some(Exists)} && d1.session
    && (ManifestFile(d1).Some? ==> Loaded(d1, setup.env).Some?)
  }

  /** The manifest can be built and serialized, and the publication planned with
      it completes before the machine stops. */
  ghost predicate WillComplete(setup: Setup, serialize: Evidence -> Option<Bytes>, d: Disk, budget: nat, base: Evidence,
                               draft: Draft)
  {
    var built := Published(base, draft, setup.config.maxCaptures, setup.env.hash);
    && built.Ok? && serialize(built.value).Some?
    && var plan := PublishPlan(d, NextId(base, draft), draft.png, serialize(built.value).value, setup.config,
                               setup.env);
       plan.error == None && budget >= CostAll(plan.ops)
  }

  ghost predicate WillPublish(setup: Setup, serialize: Evidence -> Option<Bytes>, d: Disk, budget: nat, draft: Draft,
                              others: nat, createdAt: nat, provenance: Provenance)
  {
    var made, d1 := SessionPlan(d, others, setup.config, setup.env), Completion.Opened(setup, d, others);
    && WillOpen(setup, d, budget, others)
    && WillComplete(setup, serialize, d1, budget - CostAll(made.ops),
                    Completion.BaseOn(setup, d1, createdAt, provenance), draft)
  }

  /** What a publication starts from: the manifest on disk, or a fresh one. */
  function BaseFor(setup: Setup, d: Disk, createdAt: nat, provenance: Provenance): Evidence {
    if ManifestOf(d, setup.env).Some? then ManifestOf(d, setup.env).value
    else Fresh(setup.sessionId, createdAt, provenance)
  }

  lemma BaseIsFromDisk(setup: Setup, d: Disk, others: nat, createdAt: nat, provenance: Provenance)
    requires Safe(d, setup.config, setup.env) && Lawful(setup)
    ensures var d1 := Completion.Opened(setup, d, others);
            d1.session ==>
              Completion.BaseOn(setup, d1, createdAt, provenance) == BaseFor(setup, d, createdAt, provenance)
  {
    var plan := SessionPlan(d, others, setup.config, setup.env);
    SessionKeepsIntegrity(d, others, setup.config, setup.env, CostAll(plan.ops));
    EffectsAll(d, plan.ops, CostAll(plan.ops));
    hide SessionPlan, Integral, FromJson, Upkeep.Kept, Total, RunAll, Effects, CostAll;
  }

  /** The comparison measures the images of the two captures, each decoded from
      octets on disk that match the record. */
  ghost predicate Compares(setup: Setup, d: Disk, before: Bytes, after: Bytes, r: Comparison) {
    exists b, x, a, y ::
      && Loaded(d, setup.env).Some?
      && Contents.IsNamed(Loaded(d, setup.env).value, before, b) && Contents.IsEvidence(setup, d, before, x)
      && Contents.IsNamed(Loaded(d, setup.env).value, after, a) && Contents.IsEvidence(setup, d, after, y)
      && Measures.Measures(r, ReviewOf(b, x), ReviewOf(a, y), setup.env.hash)
  }

  lemma InputsCompare(setup: Setup, d: Disk, base: Evidence, before: Bytes, after: Bytes, b: (CaptureRecord, Image),
                      a: (CaptureRecord, Image))
    requires Loaded(d, setup.env) == Some(base)
    requires InputFor(setup, d, base, before) == Some(b) && InputFor(setup, d, base, after) == Some(a)
    requires Compared(ReviewOf(b.0, b.1), ReviewOf(a.0, a.1), setup.env.hash).Ok?
    ensures Compares(setup, d, before, after, Compared(ReviewOf(b.0, b.1), ReviewOf(a.0, a.1), setup.env.hash).value)
  {
    Contents.InputIsEvidence(setup, d, base, before);
    Contents.InputIsEvidence(setup, d, base, after);
    Measures.ComparedMeasures(ReviewOf(b.0, b.1), ReviewOf(a.0, a.1), setup.env.hash);
    hide InputFor, Compared, Loaded, Contents.IsNamed, Contents.IsEvidence, Measures.Measures;
  }

  /** The session's manifest can be read, the change can be built and serialized,
      and the revision planned with it completes before the machine stops. */
  ghost predicate WillRevise(setup: Setup, serialize: Evidence -> Option<Bytes>, d: Disk, budget: nat, change: Change) {
    && Loaded(d, setup.env).Some?
    && var next := Revised(setup, d, Loaded(d, setup.env).value, change);
       && next.Some? && serialize(next.value).Some?
       && var plan := RevisionPlan(d, serialize(next.value).value, setup.config, setup.env);
          plan.error == None && budget >= CostAll(plan.ops)
  }

  class RuntimeService {
    const setup: Setup
    const store: EvidenceStore
    const flight: SingleFlight
    /** `to_canonical_json`, left abstract; `None` when it refuses. */
    const serialize: Evidence -> Option<Bytes>

    constructor (setup: Setup, store: EvidenceStore, flight: SingleFlight, serialize: Evidence -> Option<Bytes>)
      ensures this.setup == setup && this.store == store && this.flight == flight && this.serialize == serialize
    {
      this.setup, this.store, this.flight, this.serialize := setup, store, flight, serialize;
    }

    /** The serializer's output is read back as what was serialized. */
    ghost predicate Ready()
      reads store
    {
      && Lawful(setup) && store.config == setup.config && store.env == setup.env
      && Safe(store.disk, setup.config, setup.env)
      && forall m: Evidence | serialize(m).Some? :: setup.env.parseManifest(serialize(m).value) == Some(m)
    }

    /** Create the session if it is new, and read its manifest or start one. */
    method OpenSession(others: nat, createdAt: nat, provenance: Provenance) returns (r: Result<Evidence, StoreError>)
      requires Ready()
      modifies store
      ensures Ready() && Progress(old(store.disk), store.disk, setup)
      ensures r.Ok? ==> IsBase(store.disk, r.value, setup.env)
      ensures r.Ok? <==> WillOpen(setup, old(store.disk), old(store.budget), others)
      ensures r.Ok? ==>
                && store.disk == Completion.Opened(setup, old(store.disk), others)
                && store.budget
                    == old(store.budget) - CostAll(SessionPlan(old(store.disk), others, setup.config, setup.env).ops)
                && r.value == Completion.BaseOn(setup, store.disk, createdAt, provenance)
    {
      hide Safe, SafeRun, SessionPlan, FromJson, CapturesOf;
      SessionIsSafe(store.disk, others, setup.config, setup.env);
      ghost var d0, n0 := store.disk, store.budget;
      var created := store.CreateSession(others);
      RunProgresses(d0, n0, SessionPlan(d0, others, setup.config, setup.env), store.disk, store.budget, created, setup);
      DoneWhole(d0, n0, SessionPlan(d0, others, setup.config, setup.env), store.disk, store.budget, created);
      if created.Err? && created.error != Exists {
        return Err(created.error);
      }
      if !store.disk.session {
        return Err(InvalidPath);
      }
      if Paths.Manifest() !in store.disk.files {
        return Ok(Fresh(setup.sessionId, createdAt, provenance));
      }
      var base := FromJson(store.disk.files[Paths.Manifest()], setup.env.parseManifest);
      if base.None? {
        return Err(ManifestInvalid);
      }
      r := Ok(base.value);
    }

    /** Build the manifest with the new capture and hand it to the store. */
    method PublishOn(base: Evidence, draft: Draft) returns (r: Result<(), StoreError>)
      requires Ready() && Genuine(draft, setup.env) && IsBase(store.disk, base, setup.env)
      modifies store
      ensures Ready() && Progress(old(store.disk), store.disk, setup)
      ensures r.Ok? <==> WillComplete(setup, serialize, old(store.disk), old(store.budget), base, draft)
      ensures r.Ok? ==>
                ManifestOf(store.disk, setup.env)
                == Some(Published(base, draft, setup.config.maxCaptures, setup.env.hash).value)
    {
      ProgressStays(store.disk, setup);
      hide Safe, Published, PublishPlan, CapturesOf, IsBase, Genuine, NextId, Progress;
      ghost var d1, n1 := store.disk, store.budget;
      var built := BuildPublished(base, draft, setup.config.maxCaptures, setup.env.hash);
      if built.Err? {
        return Err(built.error);
      }
      var bytes := serialize(built.value);
      if bytes.None? {
        return Err(ManifestInvalid);
      }
      var id := NextId(base, draft);
      PublishIsSafe(d1, base, draft, bytes.value, setup.config, setup.env);
      r := store.PublishCapture(id, draft.png, bytes.value);
      ghost var plan := PublishPlan(d1, id, draft.png, bytes.value, setup.config, setup.env);
      PublicationRan(d1, n1, id, draft.png, bytes.value, built.value, setup, store.disk, store.budget, r);
    }

    /** `publish_capture` of the service. */
    method PublishCapture(draft: Draft, others: nat, createdAt: nat, provenance: Provenance)
      returns (r: Result<(), StoreError>, ghost base: Evidence)
      requires Ready() && Genuine(draft, setup.env)
      modifies store
      ensures Ready() && Progress(old(store.disk), store.disk, setup)
      ensures r.Ok?
         <==> WillPublish(setup, serialize, old(store.disk), old(store.budget), draft, others, createdAt, provenance)
      ensures r.Ok? ==>
                && Published(base, draft, setup.config.maxCaptures, setup.env.hash).Ok?
                && ManifestOf(store.disk, setup.env)
                    == Some(Published(base, draft, setup.config.maxCaptures, setup.env.hash).value)
                && CapturesOf(store.disk, setup.env) == base.captures + [RecordFor(base, draft)]
                && CapturesOf(old(store.disk), setup.env) <= base.captures
                && base == BaseFor(setup, old(store.disk), createdAt, provenance)
                && Contents.Publishes(base, draft, ManifestOf(store.disk, setup.env).value, setup.env.hash)
    {
      BaseIsFromDisk(setup, store.disk, others, createdAt, provenance);
      hide Safe, Published, CapturesOf, IsBase, Genuine, RecordFor, Completion.Opened, Completion.BaseOn, BaseFor,
           WillOpen, WillComplete, Contents.Publishes, ManifestOf, Progress;
      var start := OpenSession(others, createdAt, provenance);
      base := Fresh(setup.sessionId, createdAt, provenance);
      if start.Err? {
        return Err(start.error), base;
      }
      base := start.value;
      ghost var d1 := store.disk;
      r := PublishOn(start.value, draft);
      ProgressThen(old(store.disk), d1, store.disk, setup);
      if r.Ok? {
        PublishedOn(setup, old(store.disk), d1, store.disk, base, draft);
      }
    }

    /** `capture`: tools run under the lease, `tools` is what they brought, and a
        cancellation may arrive meanwhile. */
    method Capture(requestId: Bytes, tools: Option<Draft>, cancelMeanwhile: bool, others: nat, createdAt: nat,
                   provenance: Provenance)
      returns (response: Response, ghost base: Evidence)
      requires Ready() && (tools.Some? ==> Genuine(tools.value, setup.env))
      modifies store, flight
      ensures Ready() && Progress(old(store.disk), store.disk, setup)
      ensures response.Busy? <==> !IsId(requestId) || old(flight.active) != null
      ensures response.Busy? ==> flight.active == old(flight.active)
      ensures !response.Busy? ==> flight.active == null
      ensures response.Cancelled? <==> !response.Busy? && tools.Some? && cancelMeanwhile
      ensures response in {Busy, Cancelled, ToolFailed} ==> store.disk == old(store.disk)
      ensures response.Done? ==>
                && tools.Some?
                && CapturesOf(store.disk, setup.env) == base.captures + [RecordFor(base, tools.value)]
                && CapturesOf(old(store.disk), setup.env) <= base.captures
                && base == BaseFor(setup, old(store.disk), createdAt, provenance)
                && ManifestOf(store.disk, setup.env).Some?
                && Contents.Publishes(base, tools.value, ManifestOf(store.disk, setup.env).value, setup.env.hash)
      ensures response.ToolFailed? <==> !response.Busy? && tools.None?
      ensures response.Done?
         <==> && !response.Busy? && tools.Some? && !cancelMeanwhile
              && WillPublish(setup, serialize, old(store.disk), old(store.budget), tools.value, others, createdAt,
                             provenance)
    {
      hide Safe, Published, CapturesOf, Genuine, NextId, RecordFor, IsId, Advance, ManifestOf, WillPublish, BaseFor,
           Contents.Publishes, Progress;
      ProgressStays(store.disk, setup);
      base := Fresh(setup.sessionId, createdAt, provenance);
      var begun := flight.Begin(requestId);
      if begun.Err? {
        return Busy, base;
      }
      var lease := begun.value;
      if cancelMeanwhile {
        var accepted := flight.Cancel(lease.ticket.operationId, lease.ticket.generation);
        assert accepted;
      }
      if tools.None? {
        response := ToolFailed;
      } else {
        var cancelled := lease.IsCancelled();
        if cancelled {
          response := Cancelled;
        } else {
          var published, from := PublishCapture(tools.value, others, createdAt, provenance);
          base := from;
          response := if published.Ok? then Response.Done else Failed(published.error);
        }
      }
      var finished := flight.Finish(lease);
      assert finished;
    }

    method ReadBase() returns (r: Option<Evidence>)
      ensures r == Loaded(store.disk, setup.env)
    {
      hide FromJson;
      if !store.disk.session || Paths.Manifest() !in store.disk.files {
        return None;
      }
      r := FromJson(store.disk.files[Paths.Manifest()], setup.env.parseManifest);
    }

    /** `review_input`: look the capture up, read it back, decode it. */
    method ReviewInputFor(base: Evidence, id: Bytes) returns (r: Option<(CaptureRecord, Image)>)
      requires store.env == setup.env
      ensures r == InputFor(setup, store.disk, base, id)
    {
      hide ReadCapture, Lookup;
      var c := Lookup(base.captures, id);
      if c.None? {
        return None;
      }
      var png := store.ReadCaptureBytes(id);
      if png.Err? || setup.decode(png.value).None? {
        return None;
      }
      r := Some((c.value, setup.decode(png.value).value));
    }

    /** `compare`: no lease. Every capture of the manifest is found, so it only
        fails on an unknown ID, an undecodable image or incompatible images. */
    method CompareCaptures(before: Bytes, after: Bytes) returns (r: Option<Comparison>)
      requires Ready()
      ensures r.Some? ==> Loaded(store.disk, setup.env).Some?
                          && Has(Loaded(store.disk, setup.env).value.captures, before)
                          && Has(Loaded(store.disk, setup.env).value.captures, after)
                          && r.value.beforeCaptureId == before && r.value.afterCaptureId == after
      ensures r.Some? ==> Compares(setup, store.disk, before, after, r.value)
      ensures r.None? && Loaded(store.disk, setup.env).Some?
              && Has(Loaded(store.disk, setup.env).value.captures, before)
              && Has(Loaded(store.disk, setup.env).value.captures, after) ==>
                && ReadCapture(store.disk, before, setup.env).Ok? && ReadCapture(store.disk, after, setup.env).Ok?
                && var b := InputFor(setup, store.disk, Loaded(store.disk, setup.env).value, before);
                   var a := InputFor(setup, store.disk, Loaded(store.disk, setup.env).value, after);
                   b.None? || a.None?
                   || Compared(ReviewOf(b.value.0, b.value.1), ReviewOf(a.value.0, a.value.1), setup.env.hash).Err?
    {
      hide Safe, CapturesOf, Loaded, ReadCapture, Compared, Lawful, Lookup;
      var base := ReadBase();
      if base.None? {
        return None;
      }
      LoadedIsManifest(store.disk, setup.env);
      if Has(base.value.captures, before) && Has(base.value.captures, after) {
        CapturesRead(store.disk, before, setup);
        CapturesRead(store.disk, after, setup);
      }
      var b := ReviewInputFor(base.value, before);
      if b.None? {
        return None;
      }
      var a := ReviewInputFor(base.value, after);
      if a.None? {
        return None;
      }
      var c := Compare.Compare(ReviewOf(b.value.0, b.value.1), ReviewOf(a.value.0, a.value.1), setup.env.hash);
      if c.Err? {
        return None;
      }
      ComparedIds(ReviewOf(b.value.0, b.value.1), ReviewOf(a.value.0, a.value.1), setup.env.hash);
      InputsCompare(setup, store.disk, base.value, before, after, b.value, a.value);
      r := Some(c.value);
    }

    /** The new manifest that a review, a selection or a note asks for. */
    method BuildRevision(base: Evidence, change: Change) returns (r: Option<Evidence>)
      requires store.env == setup.env
      ensures r == Revised(setup, store.disk, base, change)
    {
      hide InputFor, Reviewed, Compared, Selected, Requested;
      match change {
        case Review(id, agent) =>
          var input := ReviewInputFor(base, Requested(base, id));
          if input.None? {
            return None;
          }
          var reviewed := BuildReviewed(base, input.value.0, input.value.1, agent, setup.env.hash);
          return if reviewed.Ok? then Some(reviewed.value) else None;
        case Select(before, after) =>
          var b := ReviewInputFor(base, before);
          if b.None? {
            return None;
          }
          var a := ReviewInputFor(base, after);
          if a.None? {
            return None;
          }
          var c := Compare.Compare(ReviewOf(b.value.0, b.value.1), ReviewOf(a.value.0, a.value.1), setup.env.hash);
          return if c.Ok? then Some(Selected(base, c.value)) else None;
        case Annotate(note) =>
          return Some(Annotated(base, note));
      }
    }

    /** `review`, `select_before_after` and `annotate`: read the manifest, revise
        it and replace it, all under one lease. */
    method Revise(requestId: Bytes, change: Change) returns (response: Response)
      requires Ready()
      modifies store, flight
      ensures Ready() && Progress(old(store.disk), store.disk, setup)
      ensures response.Busy? <==> !IsId(requestId) || old(flight.active) != null
      ensures !response.Busy? ==> flight.active == null
      ensures CapturesOf(store.disk, setup.env) == CapturesOf(old(store.disk), setup.env)
      ensures response.Done? ==>
                && Loaded(old(store.disk), setup.env).Some?
                && ManifestOf(store.disk, setup.env)
                   == Revised(setup, old(store.disk), Loaded(old(store.disk), setup.env).value, change)
                && ManifestOf(store.disk, setup.env).Some?
                && Contents.Revises(setup, old(store.disk), Loaded(old(store.disk), setup.env).value, change,
                                    ManifestOf(store.disk, setup.env).value)
      ensures response.Done?
         <==> !response.Busy? && WillRevise(setup, serialize, old(store.disk), old(store.budget), change)
    {
      hide Safe, CapturesOf, IsId, Advance, ManifestOf, Loaded, Revised, Lawful, WillRevise, Contents.Revises, Progress;
      ProgressStays(store.disk, setup);
      var begun := flight.Begin(requestId);
      if begun.Err? {
        return Busy;
      }
      response := ReviseUnderLease(change);
      var finished := flight.Finish(begun.value);
      assert finished;
    }

    method ReviseUnderLease(change: Change) returns (response: Response)
      requires Ready()
      modifies store
      ensures Ready() && Progress(old(store.disk), store.disk, setup) && !response.Busy?
      ensures CapturesOf(store.disk, setup.env) == CapturesOf(old(store.disk), setup.env)
      ensures response.Done? ==>
                && Loaded(old(store.disk), setup.env).Some?
                && ManifestOf(store.disk, setup.env)
                   == Revised(setup, old(store.disk), Loaded(old(store.disk), setup.env).value, change)
                && ManifestOf(store.disk, setup.env).Some?
                && Contents.Revises(setup, old(store.disk), Loaded(old(store.disk), setup.env).value, change,
                                    ManifestOf(store.disk, setup.env).value)
      ensures response.Done? <==> WillRevise(setup, serialize, old(store.disk), old(store.budget), change)
    {
      hide Safe, CapturesOf, ManifestOf, Loaded, Revised, RevisionPlan, Contents.Revises;
      ghost var d0, n0 := store.disk, store.budget;
      ProgressStays(d0, setup);
      var base := ReadBase();
      if base.None? {
        return NotFound;
      }
      var next := BuildRevision(base.value, change);
      if next.None? {
        return Failed(ManifestInvalid);
      }
      var bytes := serialize(next.value);
      if bytes.None? {
        return Failed(ManifestInvalid);
      }
      var replaced := store.ReplaceManifest(bytes.value);
      RevisionRan(setup, d0, n0, base.value, change, bytes.value, next.value, store.disk, store.budget, replaced);
      response := if replaced.Ok? then Response.Done else Failed(replaced.error);
    }
  }

  lemma ComparedIds(before: ReviewInput, after: ReviewInput, hash: Hash)
    requires Compared(before, after, hash).Ok?
    ensures Compared(before, after, hash).value.beforeCaptureId == before.captureId
    ensures Compared(before, after, hash).value.afterCaptureId == after.captureId
  {
    hide ValidInput, SumUp, ComparisonId, PixelCount;
  }

  lemma CapturesRead(d: Disk, id: Bytes, setup: Setup)
    requires Safe(d, setup.config, setup.env) && Has(CapturesOf(d, setup.env), id)
    ensures ReadCapture(d, id, setup.env).Ok?
  {
    ManifestIds(d, setup.env);
    hide CapturesOf, Sound, Audited, ReadCapture, Total, Upkeep.Kept, IsId;
    var c := Lookup(CapturesOf(d, setup.env), id).value;
    var i :| 0 <= i < |CapturesOf(d, setup.env)| && CapturesOf(d, setup.env)[i] == c;
    assert IsId(CapturesOf(d, setup.env)[i].captureId);
    IntegralReads(d, id, setup.env);
  }

  // ----- What completion leaves -----

  lemma RevisionRan(setup: Setup, d: Disk, n: nat, base: Evidence, change: Change, manifest: Bytes, next: Evidence,
                    s: Disk, left: nat, r: Result<(), StoreError>)
    requires Lawful(setup) && Safe(d, setup.config, setup.env) && Loaded(d, setup.env) == Some(base)
    requires Revised(setup, d, base, change) == Some(next) && setup.env.parseManifest(manifest) == Some(next)
    requires Plans.Done(d, n, RevisionPlan(d, manifest, setup.config, setup.env), s, left, r)
    ensures Progress(d, s, setup) && CapturesOf(s, setup.env) == CapturesOf(d, setup.env)
    ensures var plan := RevisionPlan(d, manifest, setup.config, setup.env);
            r.Ok? <==> plan.error == None && n >= CostAll(plan.ops)
    ensures r.Ok? ==> ManifestOf(s, setup.env) == Some(next) && Contents.Revises(setup, d, base, change, next)
  {
    hide Safe, SafeRun, CapturesOf, ManifestOf, Loaded, Revised, RevisionPlan, Contents.Revises, Progress, CostAll,
         Lists, Journal.ReadsBack;
    RevisionRunsSafely(setup, d, base, change, manifest, next);
    RunProgresses(d, n, RevisionPlan(d, manifest, setup.config, setup.env), s, left, r, setup);
    RevisionCaptures(d, manifest, setup, n);
    Contents.RevisedSays(setup, d, base, change);
    if r.Ok? {
      CompletedRevision(d, manifest, setup, n, s, left);
      ReadOff(s, manifest, next, setup.env);
    }
  }

  lemma RevisionRunsSafely(setup: Setup, d: Disk, base: Evidence, change: Change, manifest: Bytes, next: Evidence)
    requires Lawful(setup) && Safe(d, setup.config, setup.env) && Loaded(d, setup.env) == Some(base)
    requires Revised(setup, d, base, change) == Some(next) && setup.env.parseManifest(manifest) == Some(next)
    ensures SafeRun(d, RevisionPlan(d, manifest, setup.config, setup.env).ops, setup.config, setup.env)
    ensures FromJson(manifest, setup.env.parseManifest).Some? ==> Lists(manifest, CapturesOf(d, setup.env), setup.env)
  {
    LoadedIsManifest(d, setup.env);
    ParsedIsRead(manifest, next, setup.env);
    hide Safe, SafeRun, ManifestOf, Loaded, Revised, RevisionPlan, Upkeep.Kept, FromJson;
    RevisedIsKept(setup, d, base, change);
    RevisionIsSafe(d, manifest, setup.config, setup.env);
  }

  lemma PublicationRan(d: Disk, n: nat, id: Bytes, image: Bytes, manifest: Bytes, m: Evidence, setup: Setup, s: Disk,
                       left: nat, r: Result<(), StoreError>)
    requires Lawful(setup) && setup.env.parseManifest(manifest) == Some(m)
    requires SafeRun(d, PublishPlan(d, id, image, manifest, setup.config, setup.env).ops, setup.config, setup.env)
    requires Plans.Done(d, n, PublishPlan(d, id, image, manifest, setup.config, setup.env), s, left, r)
    ensures Progress(d, s, setup)
    ensures var plan := PublishPlan(d, id, image, manifest, setup.config, setup.env);
            r.Ok? <==> plan.error == None && n >= CostAll(plan.ops)
    ensures r.Ok? ==> ManifestOf(s, setup.env) == Some(m)
  {
    hide SafeRun, PublishPlan, Progress, FromJson;
    RunProgresses(d, n, PublishPlan(d, id, image, manifest, setup.config, setup.env), s, left, r, setup);
    if r.Ok? {
      CompletedPublication(d, id, image, manifest, setup, n, s, left);
      ReadOff(s, manifest, m, setup.env);
    }
  }

  lemma PublishedOn(setup: Setup, d0: Disk, d1: Disk, d2: Disk, base: Evidence, draft: Draft)
    requires Progress(d0, d1, setup) && IsBase(d1, base, setup.env)
    requires Published(base, draft, setup.config.maxCaptures, setup.env.hash).Ok?
    requires ManifestOf(d2, setup.env) == Some(Published(base, draft, setup.config.maxCaptures, setup.env.hash).value)
    ensures CapturesOf(d2, setup.env) == base.captures + [RecordFor(base, draft)]
    ensures CapturesOf(d0, setup.env) <= base.captures
    ensures Contents.Publishes(base, draft, ManifestOf(d2, setup.env).value, setup.env.hash)
  {
    BaseIsKept(d1, base, setup.config, setup.env);
    Contents.PublishedSays(base, draft, setup.config.maxCaptures, setup.env.hash);
    PublishedCaptures(base, draft, setup);
    hide Published, RecordFor, Contents.Publishes, ManifestOf, Safe, IsBase, ValidInput, Findings.Found;
  }

  lemma ReadOff(d: Disk, bytes: Bytes, m: Evidence, env: Env)
    requires ManifestFile(d) == Some(bytes) && env.parseManifest(bytes) == Some(m)
    requires FromJson(bytes, env.parseManifest).Some?
    ensures ManifestOf(d, env) == Some(m) && CapturesOf(d, env) == m.captures
  {
    ParsedIsRead(bytes, m, env);
    hide FromJson;
  }

  lemma PublishedCaptures(base: Evidence, draft: Draft, setup: Setup)
    requires Published(base, draft, setup.config.maxCaptures, setup.env.hash).Ok?
    ensures Published(base, draft, setup.config.maxCaptures, setup.env.hash).value.captures
         == base.captures + [RecordFor(base, draft)]
  {
    hide ValidInput, Findings.Found, RecordFor;
  }

  lemma CompletedPublication(d: Disk, id: Bytes, image: Bytes, manifest: Bytes, setup: Setup, n: nat, s: Disk,
                             left: nat)
    requires Journal.ReadsBack(setup.env.parseLine)
    requires Plans.Done(d, n, PublishPlan(d, id, image, manifest, setup.config, setup.env), s, left, Ok(()))
    ensures ManifestFile(s) == Some(manifest) && FromJson(manifest, setup.env.parseManifest).Some?
  {
    var config, env := setup.config, setup.env;
    DoneRuns(d, n, PublishPlan(d, id, image, manifest, config, env), s, left);
    hide PublishGuard, FromJson, Journal.JournalLine, CaptureWritten, AfterCapture, CaptureLine, ManifestLine,
         ImagePlan, RunAll, Effects, CostAll, CaptureWrites, ManifestWrites;
    assert PublishGuard(d, id, image, manifest, config, env) == None;
    GuardedDisk(d, id, image, manifest, config, env);
    if ImagePlan(d, id, image, env).error.Some? {
      ImageRefused(d, id, image, manifest, config, env);
      assert false;
    } else {
      PredictedLinesAreAppended(d, id, image, manifest, config, env);
      assert Paths.Journal()[0] != Paths.Manifest()[0];
    }
  }

  lemma CompletedRevision(d: Disk, manifest: Bytes, setup: Setup, n: nat, s: Disk, left: nat)
    requires Plans.Done(d, n, RevisionPlan(d, manifest, setup.config, setup.env), s, left, Ok(()))
    ensures ManifestFile(s) == Some(manifest) && FromJson(manifest, setup.env.parseManifest).Some?
  {
    var config, env := setup.config, setup.env;
    DoneRuns(d, n, RevisionPlan(d, manifest, config, env), s, left);
    hide ReplaceGuard, FromJson, Journal.JournalLine, RunAll, Effects, CostAll, ManifestWrites, Journal.Recovered;
    assert ReplaceGuard(d, manifest, config, env) == None;
    GuardedRevision(d, manifest, config, env);
    JournalIsThere(d, manifest, config, env);
    RevisionSegment(d, manifest, env);
    assert Paths.Journal()[0] != Paths.Manifest()[0];
  }

  lemma JournalIsThere(d: Disk, manifest: Bytes, config: Config, env: Env)
    requires ReplaceGuard(d, manifest, config, env) == None
    ensures Paths.Journal() in d.files
  {
    hide FromJson, Journal.JournalLine, Total;
  }

  /** At whatever point a revision stops, the captures are the same. */
  lemma RevisionCaptures(d: Disk, manifest: Bytes, setup: Setup, n: nat)
    requires Safe(d, setup.config, setup.env) && Journal.ReadsBack(setup.env.parseLine)
    requires FromJson(manifest, setup.env.parseManifest).Some? ==> Lists(manifest, CapturesOf(d, setup.env), setup.env)
    ensures CapturesOf(Effects(d, RevisionPlan(d, manifest, setup.config, setup.env).ops, n), setup.env)
         == CapturesOf(d, setup.env)
  {
    var config, env := setup.config, setup.env;
    if ReplaceGuard(d, manifest, config, env) == None {
      GuardedRevision(d, manifest, config, env);
      hide ReplaceGuard, RevisionPlan, Effects, FromJson, SwitchPoint, Sound, Audited, ManifestFile, Total;
      RevisionKeepsIntegrity(d, manifest, config, env, n);
    } else {
      RefusedRevision(d, manifest, config, env);
      NothingRuns(d, n);
    }
  }
}
