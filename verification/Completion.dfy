/** What happens when nothing goes wrong: a capture left alone is published. */
module Completion {
  import opened Bytes
  import opened Errors
  import opened Files
  import opened Flight
  import opened Manifest
  import opened Plans
  import opened Quota
  import opened Integrity
  import opened Compare
  import opened Revision
  import opened Runtime
  import Journal
  import Paths

  /** Like a writer, a worker creating its session finishes when left alone. */
  lemma {:induction false} MakerFinishes(setup: Setup, w: System, i: nat) returns (steps: seq<Step>)
    requires i < |w.workers| && w.workers[i].Making?
    ensures var m := w.workers[i];
            Run(setup, w, steps)
            == Some(w.(disk := RunAll(w.disk, m.ops),
                       workers := w.workers[i := Making(m.ticket, m.draft, [], m.error)]))
    decreases CostAll(w.workers[i].ops) + |w.workers[i].ops|
  {
    var m := w.workers[i];
    if m.ops == [] {
      steps := [];
      assert w.workers[i := Making(m.ticket, m.draft, [], m.error)] == w.workers;
    } else {
      hide First, Rest, CostAll, Run;
      WholeOfRest(w.disk, m.ops);
      var next := Take(setup, w, Effect(i)).value;
      var rest := MakerFinishes(setup, next, i);
      RunsOn(setup, w, Effect(i), rest);
      steps := [Effect(i)] + rest;
      assert next.workers[i := Making(m.ticket, m.draft, [], m.error)]
          == w.workers[i := Making(m.ticket, m.draft, [], m.error)];
    }
  }

  lemma {:induction false} RunsJoin(setup: Setup, w: System, a: seq<Step>, b: seq<Step>)
    requires Run(setup, w, a).Some?
    ensures Run(setup, w, a + b) == Run(setup, Run(setup, w, a).value, b)
    decreases |b|
  {
    hide Take;
    if b == [] {
      assert a + b == a;
    } else {
      var n := |b| - 1;
      assert (a + b)[..|a + b| - 1] == a + b[..n];
      RunsJoin(setup, w, a, b[..n]);
    }
  }

  lemma OneStep(setup: Setup, w: System, step: Step)
    ensures Run(setup, w, [step]) == Take(setup, w, step)
  {
    hide Take;
    assert [step][..0] == [] && Run(setup, w, []) == Some(w);
  }

  /** The disk once the session is there. */
  function Opened(setup: Setup, d: Disk, others: nat): Disk {
    RunAll(d, SessionPlan(d, others, setup.config, setup.env).ops)
  }

  function BaseOn(setup: Setup, d: Disk, createdAt: nat, provenance: Provenance): Evidence {
    if ManifestFile(d).Some? && Loaded(d, setup.env).Some? then Loaded(d, setup.env).value
    else Fresh(setup.sessionId, createdAt, provenance)
  }

  /** The session can be had, and the publication planned on it completes. */
  ghost predicate WouldPublish(setup: Setup, d: Disk, draft: Draft, others: nat, createdAt: nat, provenance: Provenance,
                               manifest: Bytes)
  {
    var made, d1 := SessionPlan(d, others, setup.config, setup.env), Opened(setup, d, others);
    var base := BaseOn(setup, d1, createdAt, provenance);
    var built := Published(base, draft, setup.config.maxCaptures, setup.env.hash);
    && made.error in {None, Some(Exists)} && d1.session
    && (ManifestFile(d1).Some? ==> Loaded(d1, setup.env).Some?)
    && built.Ok? && setup.env.parseManifest(manifest) == Some(built.value)
    && PublishPlan(d1, NextId(base, draft), draft.png, manifest, setup.config, setup.env).error == None
  }

  /** From the tools' outcome to a session with its manifest read. */
  lemma Opens(setup: Setup, w: System, i: nat, draft: Draft, others: nat, createdAt: nat, provenance: Provenance,
              manifest: Bytes)
    returns (steps: seq<Step>)
    requires i < |w.workers| && w.workers[i].Held? && w.workers[i].capturing && !w.cancelled
    requires setup.decode(draft.png) == Some(draft.image)
    requires WouldPublish(setup, w.disk, draft, others, createdAt, provenance, manifest)
    ensures var d1 := Opened(setup, w.disk, others);
            Run(setup, w, steps)
            == Some(w.(disk := d1, workers := w.workers[i := Building(w.workers[i].ticket, draft,
                                                                     BaseOn(setup, d1, createdAt, provenance))]))
  {
    hide SessionPlan, Run, RunAll, Published, PublishPlan, NextId, Loaded;
    var t := w.workers[i].ticket;
    var plan := SessionPlan(w.disk, others, setup.config, setup.env);
    var w1 := w.(workers := w.workers[i := Making(t, draft, plan.ops, plan.error)]);
    assert Take(setup, w, Captured(i, draft, others)) == Some(w1);
    var effects := MakerFinishes(setup, w1, i);
    var d1 := Opened(setup, w.disk, others);
    var w2 := w.(disk := d1, workers := w.workers[i := Making(t, draft, [], plan.error)]);
    assert w1.workers[i := Making(t, draft, [], plan.error)] == w2.workers;
    OneStep(setup, w2, Open(i, createdAt, provenance));
    RunsOn(setup, w, Captured(i, draft, others), effects);
    steps := ([Captured(i, draft, others)] + effects) + [Open(i, createdAt, provenance)];
    RunsJoin(setup, w, [Captured(i, draft, others)] + effects, [Open(i, createdAt, provenance)]);
    assert w2.workers[i := Building(t, draft, BaseOn(setup, d1, createdAt, provenance))]
        == w.workers[i := Building(t, draft, BaseOn(setup, d1, createdAt, provenance))];
  }

  /** From the built manifest to the whole publication on disk. */
  lemma Publishes(setup: Setup, w: System, i: nat, manifest: Bytes) returns (steps: seq<Step>)
    requires i < |w.workers| && w.workers[i].Building?
    requires var b := w.workers[i];
             var built := Published(b.base, b.draft, setup.config.maxCaptures, setup.env.hash);
             built.Ok? && setup.env.parseManifest(manifest) == Some(built.value)
    ensures var b := w.workers[i];
            var plan := PublishPlan(w.disk, NextId(b.base, b.draft), b.draft.png, manifest, setup.config, setup.env);
            Run(setup, w, steps)
            == Some(w.(disk := RunAll(w.disk, plan.ops), workers := w.workers[i := Writing(b.ticket, [])]))
    ensures steps != [] && steps[0] == Publish(i, manifest) && forall step | step in steps[1..] :: step == Effect(i)
  {
    hide Run, RunAll, Published, PublishPlan, NextId;
    var b := w.workers[i];
    var plan := PublishPlan(w.disk, NextId(b.base, b.draft), b.draft.png, manifest, setup.config, setup.env);
    var w1 := w.(workers := w.workers[i := Writing(b.ticket, plan.ops)]);
    assert Take(setup, w, Publish(i, manifest)) == Some(w1);
    var effects := WriterFinishes(setup, w1, i);
    RunsOn(setup, w, Publish(i, manifest), effects);
    steps := [Publish(i, manifest)] + effects;
    assert w1.workers[i := Writing(b.ticket, [])] == w.workers[i := Writing(b.ticket, [])];
  }

  lemma CompletedManifest(d: Disk, id: Bytes, image: Bytes, manifest: Bytes, m: Evidence, config: Config, env: Env)
    requires Journal.ReadsBack(env.parseLine) && env.parseManifest(manifest) == Some(m)
    requires PublishPlan(d, id, image, manifest, config, env).error == None
    ensures ManifestOf(RunAll(d, PublishPlan(d, id, image, manifest, config, env).ops), env) == Some(m)
  {
    PublicationSucceeds(d, id, image, manifest, config, env);
    GuardedDisk(d, id, image, manifest, config, env);
    ParsedIsRead(manifest, m, env);
    hide PublishGuard, FromJson, CaptureWritten, AfterCapture, CaptureLine, ManifestLine, PublishPlan, RunAll,
         ImagePlan;
    Admitted(d, id, image, env);
    PredictedLinesAreAppended(d, id, image, manifest, config, env);
    assert Paths.Journal()[0] != Paths.Manifest()[0];
  }

  lemma Admitted(d: Disk, id: Bytes, image: Bytes, env: Env)
    requires d.captures && Paths.ImageTemp(env.hash(image)) !in d.files && Paths.ImagePath(id) !in d.files
    ensures ImagePlan(d, id, image, env).error == None
  {
  }

  /** Whenever the gate is open and a worker idle, a capture whose publication
      would be admitted does publish if nobody interferes: there is a run after
      which the session lists exactly that capture more, and the gate is open
      again. */
  lemma UndisturbedCapturePublishes(setup: Setup, w: System, i: nat, operationId: Bytes, draft: Draft, others: nat,
                                    createdAt: nat, provenance: Provenance, manifest: Bytes)
    returns (steps: seq<Step>)
    requires Lawful(setup) && i < |w.workers| && w.workers[i].Idle? && w.gate.active.None? && IsId(operationId)
    requires setup.decode(draft.png) == Some(draft.image)
    requires WouldPublish(setup, w.disk, draft, others, createdAt, provenance, manifest)
    ensures Run(setup, w, steps).Some? && Run(setup, w, steps).value.gate.active.None?
    ensures var base := BaseOn(setup, Opened(setup, w.disk, others), createdAt, provenance);
            CapturesOf(Run(setup, w, steps).value.disk, setup.env) == base.captures + [RecordFor(base, draft)]
  {
    hide Run, RunAll, SessionPlan, PublishPlan, Published, NextId, Loaded, CapturesOf, RecordFor, BaseOn, Opened,
         IsId, Advance;
    var begun := BeginOn(w.gate, operationId);
    var t := begun.1.value;
    var w1 := w.(gate := begun.0, cancelled := false, workers := w.workers[i := Held(t, true)]);
    assert Take(setup, w, Start(i, operationId, true)) == Some(w1);
    var opening := Opens(setup, w1, i, draft, others, createdAt, provenance, manifest);
    var d1 := Opened(setup, w.disk, others);
    var base := BaseOn(setup, d1, createdAt, provenance);
    var w2 := w1.(disk := d1, workers := w1.workers[i := Building(t, draft, base)]);
    var writing := Publishes(setup, w2, i, manifest);
    var plan := PublishPlan(d1, NextId(base, draft), draft.png, manifest, setup.config, setup.env);
    var w3 := w2.(disk := RunAll(d1, plan.ops), workers := w2.workers[i := Writing(t, [])]);
    OneStep(setup, w3, Release(i));
    RunsOn(setup, w, Start(i, operationId, true), opening);
    RunsJoin(setup, w, [Start(i, operationId, true)] + opening, writing);
    RunsJoin(setup, w, [Start(i, operationId, true)] + opening + writing, [Release(i)]);
    steps := [Start(i, operationId, true)] + opening + writing + [Release(i)];
    var built := Published(base, draft, setup.config.maxCaptures, setup.env.hash).value;
    CompletedManifest(d1, NextId(base, draft), draft.png, manifest, built, setup.config, setup.env);
    FinalCaptures(w3.disk, built, base, draft, setup);
  }

  lemma FinalCaptures(d: Disk, built: Evidence, base: Evidence, draft: Draft, setup: Setup)
    requires Published(base, draft, setup.config.maxCaptures, setup.env.hash) == Ok(built)
    requires ManifestOf(d, setup.env) == Some(built)
    ensures CapturesOf(d, setup.env) == base.captures + [RecordFor(base, draft)]
  {
    hide ValidInput, Findings.Found, RecordFor, ManifestOf;
  }
}
