/** What a cancellation does to the capture it names: before the one look at the
    flag it stops everything, after it nothing. */
module Cancellation {
  import opened Bytes
  import opened Files
  import opened Flight
  import opened Manifest
  import opened Plans
  import opened Integrity
  import opened Revision
  import opened Safety
  import opened Runtime
  import opened Completion

  // ----- Before the check -----

  /** A capture still running its tools, whose lease has been cancelled. */
  predicate Doomed(w: System, i: nat) {
    i < |w.workers| && w.workers[i].Held? && w.workers[i].capturing && w.cancelled
    && w.gate.active == Some(w.workers[i].ticket)
  }

  /** A cancelled capture either waits on or ends: no step lets it write. */
  lemma DoomedNeverWrites(setup: Setup, w: System, i: nat, step: Step)
    requires Doomed(w, i) && Exclusive(w) && Take(setup, w, step).Some?
    ensures var next := Take(setup, w, step).value;
            |next.workers| == |w.workers| && next.disk == w.disk && (Doomed(next, i) || next.workers[i].Idle?)
  {
    hide SessionPlan, PublishPlan, RevisionPlan, Loaded, Lookup, Revised, Published, ReadImage, Has, First, Rest, IsId;
  }

  /** Over a whole run: until a capture cancelled before the check has ended, the
      disk does not change at all, so it never publishes. */
  lemma {:induction false} CancelledCaptureNeverPublishes(setup: Setup, w: System, i: nat, steps: seq<Step>)
    returns (k: nat)
    requires Inv(setup, w) && Lawful(setup) && Doomed(w, i) && Run(setup, w, steps).Some?
    ensures k <= |steps| && Run(setup, w, steps[..k]).Some?
    ensures var s := Run(setup, w, steps[..k]).value;
            && s.disk == w.disk && i < |s.workers|
            && (s.workers[i].Idle? || (k == |steps| && Doomed(s, i) && Inv(setup, s)))
    decreases |steps|
  {
    hide Take, Safe, WorkerOk, Lawful;
    if steps == [] {
      k := 0;
      assert steps[..0] == [];
    } else {
      var n := |steps| - 1;
      k := CancelledCaptureNeverPublishes(setup, w, i, steps[..n]);
      assert steps[..n][..k] == steps[..k];
      var s := Run(setup, w, steps[..k]).value;
      if !s.workers[i].Idle? {
        assert steps[..k] == steps[..n];
        DoomedNeverWrites(setup, s, i, steps[n]);
        StepKeeps(setup, s, steps[n]);
        k := n + 1;
        assert steps[..k] == steps;
      }
    }
  }

  // ----- After the check -----

  predicate PastCheck(worker: Worker) {
    worker.Making? || worker.Building? || worker.Writing?
  }

  predicate Tooling(worker: Worker) {
    worker.Held? && worker.capturing
  }

  /** Equal but for a cancellation flag that nobody will look at. */
  predicate Alike(a: System, b: System) {
    && a == b.(cancelled := a.cancelled)
    && (a.cancelled == b.cancelled || forall j | 0 <= j < |a.workers| :: !Tooling(a.workers[j]))
  }

  ghost predicate SameOutcome(a: Option<System>, b: Option<System>) {
    if a.None? then b.None? else b.Some? && Alike(a.value, b.value)
  }

  /** No other step looks at the flag, and none but `Start` begins a capture. */
  lemma AlikeWrites(setup: Setup, a: System, b: System, step: Step)
    requires Alike(a, b) && (step.Effect? || step.Open? || step.Publish? || step.Load? || step.Revise?)
    ensures SameOutcome(Take(setup, a, step), Take(setup, b, step))
  {
    hide PublishPlan, RevisionPlan, Loaded, Revised, Published, First, Rest, NextId, ManifestFile;
  }

  lemma AlikeReads(setup: Setup, a: System, b: System, step: Step)
    requires Alike(a, b) && (step.Release? || step.Compare? || step.Find? || step.Fetch?)
    ensures SameOutcome(Take(setup, a, step), Take(setup, b, step))
  {
    hide Loaded, Lookup, ReadImage, Has;
  }

  lemma AlikeSignals(setup: Setup, a: System, b: System, step: Step)
    requires Alike(a, b) && (step.Start? || step.Stop? || step.Captured? || step.Crash?)
    ensures SameOutcome(Take(setup, a, step), Take(setup, b, step))
  {
    hide SessionPlan, IsId, Advance;
  }

  lemma AlikeSteps(setup: Setup, a: System, b: System, step: Step)
    requires Alike(a, b)
    ensures SameOutcome(Take(setup, a, step), Take(setup, b, step))
  {
    hide Take, Alike, SameOutcome;
    if step.Start? || step.Stop? || step.Captured? || step.Crash? {
      AlikeSignals(setup, a, b, step);
    } else if step.Release? || step.Compare? || step.Find? || step.Fetch? {
      AlikeReads(setup, a, b, step);
    } else {
      AlikeWrites(setup, a, b, step);
    }
  }

  lemma {:induction false} AlikeRuns(setup: Setup, a: System, b: System, steps: seq<Step>)
    requires Alike(a, b)
    ensures SameOutcome(Run(setup, a, steps), Run(setup, b, steps))
    decreases |steps|
  {
    hide Take, Alike;
    if steps != [] {
      var n := |steps| - 1;
      AlikeRuns(setup, a, b, steps[..n]);
      if Run(setup, a, steps[..n]).Some? {
        AlikeSteps(setup, Run(setup, a, steps[..n]).value, Run(setup, b, steps[..n]).value, steps[n]);
      }
    }
  }

  lemma LateIsAlike(w: System, i: nat)
    requires Exclusive(w) && i < |w.workers| && PastCheck(w.workers[i])
    ensures Alike(w, w.(cancelled := true))
  {
  }

  /** A cancellation that comes after the check is accepted and reported as done,
      and every run from there is possible with it exactly when it is possible
      without it, and ends with the same disk, gate and workers. */
  lemma LateCancelIsIgnored(setup: Setup, w: System, i: nat, steps: seq<Step>)
    requires Exclusive(w) && i < |w.workers| && PastCheck(w.workers[i])
    ensures var t := w.workers[i].ticket;
            var late := Run(setup, w, [Stop(t.operationId, t.generation)] + steps);
            var undisturbed := Run(setup, w, steps);
            && Cancels(w.gate, t.operationId, t.generation)
            && (late.Some? <==> undisturbed.Some?)
            && (late.Some? ==> late.value == undisturbed.value.(cancelled := late.value.cancelled))
  {
    hide Run;
    var t := w.workers[i].ticket;
    RunsOn(setup, w, Stop(t.operationId, t.generation), steps);
    LateIsAlike(w, i);
    AlikeRuns(setup, w, w.(cancelled := true), steps);
  }

  /** In particular the image is published: whenever a capture left alone would
      be, there is also a run in which it is cancelled while it holds the lease,
      the cancellation reaches it, and the same capture is listed at the end. */
  lemma LateCancelledCapturePublishes(setup: Setup, w: System, i: nat, operationId: Bytes, draft: Draft, others: nat,
                                      createdAt: nat, provenance: Provenance, manifest: Bytes)
    returns (before: seq<Step>, stop: Step, after: seq<Step>)
    requires Lawful(setup) && i < |w.workers| && w.workers[i].Idle? && w.gate.active.None? && IsId(operationId)
    requires setup.decode(draft.png) == Some(draft.image)
    requires WouldPublish(setup, w.disk, draft, others, createdAt, provenance, manifest)
    ensures stop.Stop? && stop.operationId == operationId
    ensures Run(setup, w, before).Some? && Cancels(Run(setup, w, before).value.gate, operationId, stop.generation)
    ensures Run(setup, w, before + [stop] + after).Some?
    ensures var base := BaseOn(setup, Opened(setup, w.disk, others), createdAt, provenance);
            CapturesOf(Run(setup, w, before + [stop] + after).value.disk, setup.env)
            == base.captures + [RecordFor(base, draft)]
  {
    hide Run, RunAll, SessionPlan, PublishPlan, Published, NextId, Loaded, CapturesOf, RecordFor, BaseOn, Opened,
         IsId, Advance;
    var begun := BeginOn(w.gate, operationId);
    var t := begun.1.value;
    var w1 := w.(gate := begun.0, cancelled := false, workers := w.workers[i := Held(t, true)]);
    assert Take(setup, w, Start(i, operationId, true)) == Some(w1);
    var opening := Opens(setup, w1, i, draft, others, createdAt, provenance, manifest);
    RunsOn(setup, w, Start(i, operationId, true), opening);
    before := [Start(i, operationId, true)] + opening;
    var d1 := Opened(setup, w.disk, others);
    var base := BaseOn(setup, d1, createdAt, provenance);
    var w2 := w1.(disk := d1, workers := w1.workers[i := Building(t, draft, base)]);
    stop := Stop(operationId, t.generation);
    var w3 := w2.(cancelled := true);
    assert Take(setup, w2, stop) == Some(w3);
    OneStep(setup, w2, stop);
    RunsJoin(setup, w, before, [stop]);
    after := Publishes(setup, w3, i, manifest);
    RunsJoin(setup, w, before + [stop], after);
    var built := Published(base, draft, setup.config.maxCaptures, setup.env.hash).value;
    CompletedManifest(d1, NextId(base, draft), draft.png, manifest, built, setup.config, setup.env);
    FinalCaptures(Run(setup, w, before + [stop] + after).value.disk, built, base, draft, setup);
  }

  // ----- The exact condition -----

  /** Whatever happens, the disk stays as it is until worker `i` has ended. */
  ghost predicate Spares(setup: Setup, w: System, i: nat) {
    forall steps | Run(setup, w, steps).Some? :: exists k :: UnchangedUntil(setup, w, i, steps, k)
  }

  ghost predicate UnchangedUntil(setup: Setup, w: System, i: nat, steps: seq<Step>, k: nat) {
    && k <= |steps| && Run(setup, w, steps[..k]).Some?
    && var s := Run(setup, w, steps[..k]).value;
       s.disk == w.disk && i < |s.workers| && (s.workers[i].Idle? || k == |steps|)
  }

  lemma AlikeSpares(setup: Setup, a: System, b: System, i: nat)
    requires Alike(a, b) && Spares(setup, a, i)
    ensures Spares(setup, b, i)
  {
    hide Run;
    forall steps | Run(setup, b, steps).Some? ensures exists k :: UnchangedUntil(setup, b, i, steps, k) {
      AlikeRuns(setup, a, b, steps);
      var k :| UnchangedUntil(setup, a, i, steps, k);
      AlikeRuns(setup, a, b, steps[..k]);
      assert UnchangedUntil(setup, b, i, steps, k);
    }
  }

  lemma DoomedSpares(setup: Setup, w: System, i: nat)
    requires Inv(setup, w) && Lawful(setup) && Doomed(w, i)
    ensures Spares(setup, w, i)
  {
    hide Run, Inv, Lawful, Doomed;
    forall steps | Run(setup, w, steps).Some? ensures exists k :: UnchangedUntil(setup, w, i, steps, k) {
      var k := CancelledCaptureNeverPublishes(setup, w, i, steps);
      assert UnchangedUntil(setup, w, i, steps, k);
    }
  }

  /** An accepted cancellation of a capture guarantees an unchanged disk if and
      only if the capture still waits for its tools, or would have left the disk
      alone in any case. */
  lemma CancellationSparesExactly(setup: Setup, w: System, i: nat)
    requires Inv(setup, w) && Lawful(setup) && i < |w.workers| && (Tooling(w.workers[i]) || PastCheck(w.workers[i]))
    ensures var t := w.workers[i].ticket;
            var late := Take(setup, w, Stop(t.operationId, t.generation));
            && Cancels(w.gate, t.operationId, t.generation)
            && late.Some?
            && (Spares(setup, late.value, i) <==> w.workers[i].Held? || Spares(setup, w, i))
  {
    hide Spares, Safe, WorkerOk, Lawful;
    var late := w.(cancelled := true);
    StopKeeps(setup, w);
    if w.workers[i].Held? {
      DoomedSpares(setup, late, i);
    } else {
      LateIsAlike(w, i);
      if Spares(setup, w, i) {
        AlikeSpares(setup, w, late, i);
      }
      if Spares(setup, late, i) {
        AlikeSpares(setup, late, w, i);
      }
    }
  }

  /** A worker that only performs effects keeps its lease at every step. */
  lemma {:induction false} EffectsKeepWriting(setup: Setup, w: System, i: nat, steps: seq<Step>)
    requires i < |w.workers| && w.workers[i].Writing? && Run(setup, w, steps).Some?
    requires forall step | step in steps :: step == Effect(i)
    ensures |Run(setup, w, steps).value.workers| == |w.workers| && Run(setup, w, steps).value.workers[i].Writing?
    decreases |steps|
  {
    hide First, Rest;
    if steps != [] {
      var n := |steps| - 1;
      assert forall step | step in steps[..n] :: step in steps;
      EffectsKeepWriting(setup, w, i, steps[..n]);
      assert steps[n] in steps;
    }
  }

  /** A worker about to carry out a publication that will complete. */
  ghost predicate Ready(setup: Setup, w: System, i: nat, manifest: Bytes) {
    && i < |w.workers| && w.workers[i].Building?
    && var b := w.workers[i];
       var built := Published(b.base, b.draft, setup.config.maxCaptures, setup.env.hash);
       && built.Ok? && setup.env.parseManifest(manifest) == Some(built.value)
       && PublishPlan(w.disk, NextId(b.base, b.draft), b.draft.png, manifest, setup.config, setup.env).error == None
  }

  /** No cancellation keeps it from the disk. */
  lemma ReadyIsNotSpared(setup: Setup, w: System, i: nat, manifest: Bytes)
    requires Inv(setup, w) && Lawful(setup) && Ready(setup, w, i, manifest)
    ensures var t := w.workers[i].ticket;
            !Spares(setup, Take(setup, w, Stop(t.operationId, t.generation)).value, i)
  {
    hide Inv, Lawful, Spares, Take, Published, PublishPlan, NextId;
    CancellationSparesExactly(setup, w, i);
    ReadyPublishes(setup, w, i, manifest);
  }

  lemma ReadyPublishes(setup: Setup, w: System, i: nat, manifest: Bytes)
    requires Inv(setup, w) && Lawful(setup) && Ready(setup, w, i, manifest)
    ensures !Spares(setup, w, i)
  {
    hide Run, Inv, Lawful, Ready, UnchangedUntil;
    var steps := ReadyWrites(setup, w, i, manifest);
    forall k ensures !UnchangedUntil(setup, w, i, steps, k) {
      ReadyIsDisturbed(setup, w, i, manifest, steps, k);
    }
  }

  lemma ReadyIsDisturbed(setup: Setup, w: System, i: nat, manifest: Bytes, steps: seq<Step>, k: nat)
    requires Ready(setup, w, i, manifest) && Run(setup, w, steps).Some? && Run(setup, w, steps).value.disk != w.disk
    requires steps != [] && steps[0] == Publish(i, manifest) && forall step | step in steps[1..] :: step == Effect(i)
    ensures !UnchangedUntil(setup, w, i, steps, k)
  {
    hide Run, Ready;
    if k <= |steps| && Run(setup, w, steps[..k]).Some? {
      NeverIdle(setup, w, i, manifest, steps, k);
      if k == |steps| {
        assert steps[..k] == steps;
      }
    }
  }

  lemma ReadyWrites(setup: Setup, w: System, i: nat, manifest: Bytes) returns (steps: seq<Step>)
    requires Inv(setup, w) && Lawful(setup) && Ready(setup, w, i, manifest)
    ensures Run(setup, w, steps).Some? && Run(setup, w, steps).value.disk != w.disk
    ensures steps != [] && steps[0] == Publish(i, manifest) && forall step | step in steps[1..] :: step == Effect(i)
  {
    assert WorkerOk(setup, w.disk, w.workers[i]);
    var b := w.workers[i];
    BaseIsKept(w.disk, b.base, setup.config, setup.env);
    hide Run, Safe, Exclusive, WorkerOk, RunAll, PublishPlan, Published, NextId, CapturesOf, RecordFor, Genuine, IsBase;
    steps := Publishes(setup, w, i, manifest);
    var built := Published(b.base, b.draft, setup.config.maxCaptures, setup.env.hash).value;
    CompletedManifest(w.disk, NextId(b.base, b.draft), b.draft.png, manifest, built, setup.config, setup.env);
    FinalCaptures(Run(setup, w, steps).value.disk, built, b.base, b.draft, setup);
  }

  lemma NeverIdle(setup: Setup, w: System, i: nat, manifest: Bytes, steps: seq<Step>, k: nat)
    requires Ready(setup, w, i, manifest) && k <= |steps| && Run(setup, w, steps[..k]).Some?
    requires steps != [] && steps[0] == Publish(i, manifest) && forall step | step in steps[1..] :: step == Effect(i)
    ensures i < |Run(setup, w, steps[..k]).value.workers| && !Run(setup, w, steps[..k]).value.workers[i].Idle?
  {
    hide Run, RunAll, PublishPlan, Published, NextId;
    if k == 0 {
      NoSteps(setup, w, steps[..0]);
    } else {
      assert steps[..k] == [steps[0]] + steps[1..k];
      RunsOn(setup, w, steps[0], steps[1..k]);
      assert forall step | step in steps[1..k] :: step in steps[1..];
      EffectsKeepWriting(setup, Take(setup, w, steps[0]).value, i, steps[1..k]);
    }
  }

  lemma NoSteps(setup: Setup, w: System, steps: seq<Step>)
    requires steps == []
    ensures Run(setup, w, steps) == Some(w)
  {
  }
}
