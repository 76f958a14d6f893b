/** What every disk the daemon can leave behind satisfies, and the proof that
    each planned operation passes only through such disks. */
module Safety {
  import opened Bytes
  import opened Files
  import opened Journal
  import opened Manifest
  import opened Plans
  import opened Quota
  import opened Integrity
  import opened Images
  import opened Trail
  import opened Compare
  import opened Revision
  import opened Upkeep
  import Findings
  import Paths

  /** Integrity of the evidence, the daemon's own naming and tidy findings, and
      a size within the quota and one manifest more. */
  ghost predicate Safe(d: Disk, config: Config, env: Env) {
    && Integral(d, env)
    && (ManifestOf(d, env).Some? ==> Kept(ManifestOf(d, env).value))
    && Total(d.files) <= config.maxBundleBytes + MAX_JSON_FRAME_BYTES
    && (!d.session ==> d.files == map[])
  }

  ghost predicate AlwaysSafe(d: Disk, ops: seq<FsOp>, config: Config, env: Env) {
    forall n: nat :: Safe(Effects(d, ops, n), config, env)
  }

  /** The captures on disk only ever grow at the end. */
  ghost predicate OnlyGrows(d: Disk, ops: seq<FsOp>, env: Env) {
    forall n: nat, k: nat | n <= k :: CapturesOf(Effects(d, ops, n), env) <= CapturesOf(Effects(d, ops, k), env)
  }

  /** No image on disk is ever removed or rewritten. */
  ghost predicate OnlyAddsImages(d: Disk, ops: seq<FsOp>) {
    forall n: nat, k: nat | n <= k :: KeepsImages(Effects(d, ops, n), Effects(d, ops, k))
  }

  ghost predicate SafeRun(d: Disk, ops: seq<FsOp>, config: Config, env: Env) {
    AlwaysSafe(d, ops, config, env) && OnlyGrows(d, ops, env) && OnlyAddsImages(d, ops) && OnlyExtends(d, ops, env)
  }

  // ----- One effect of a safe run -----

  /** The states of what remains are states of the whole, in order. */
  lemma RestOfEffects(d: Disk, ops: seq<FsOp>, n: nat)
    requires ops != []
    ensures Effects(First(d, ops), Rest(ops), n) == Effects(d, ops, n + if Cost(ops[0]) > 0 then 1 else 0)
  {
    if Cost(ops[0]) > 0 {
      FirstThenRest(d, ops, n);
    } else {
      EmptyAppend(d, ops[0]);
    }
  }

  /** One effect of a safe run reaches a safe disk with at least the same
      captures, and what remains is a safe run. */
  lemma SafeRunSteps(d: Disk, ops: seq<FsOp>, config: Config, env: Env)
    requires SafeRun(d, ops, config, env) && ops != []
    ensures SafeRun(First(d, ops), Rest(ops), config, env)
    ensures Safe(First(d, ops), config, env) && CapturesOf(d, env) <= CapturesOf(First(d, ops), env)
    ensures KeepsImages(d, First(d, ops)) && Extends(d, First(d, ops), env)
  {
    hide Safe, CapturesOf, Effects, First, Rest, Cost, KeepsImages, Extends;
    var s, rest := First(d, ops), Rest(ops);
    var shift := if Cost(ops[0]) > 0 then 1 else 0;
    forall n: nat ensures Safe(Effects(s, rest, n), config, env) {
      RestOfEffects(d, ops, n);
    }
    forall n: nat, k: nat | n <= k
      ensures CapturesOf(Effects(s, rest, n), env) <= CapturesOf(Effects(s, rest, k), env)
    {
      RestOfEffects(d, ops, n);
      RestOfEffects(d, ops, k);
      assert CapturesOf(Effects(d, ops, n + shift), env) <= CapturesOf(Effects(d, ops, k + shift), env);
    }
    forall n: nat, k: nat | n <= k ensures KeepsImages(Effects(s, rest, n), Effects(s, rest, k)) {
      RestOfEffects(d, ops, n);
      RestOfEffects(d, ops, k);
      assert KeepsImages(Effects(d, ops, n + shift), Effects(d, ops, k + shift));
    }
    forall n: nat, k: nat | n <= k ensures Extends(Effects(s, rest, n), Effects(s, rest, k), env) {
      RestOfEffects(d, ops, n);
      RestOfEffects(d, ops, k);
      assert Extends(Effects(d, ops, n + shift), Effects(d, ops, k + shift), env);
    }
    ZeroEffects(s, rest);
    ZeroEffects(d, ops);
    RestOfEffects(d, ops, 0);
    assert CapturesOf(Effects(d, ops, 0), env) <= CapturesOf(Effects(d, ops, shift), env);
    assert KeepsImages(Effects(d, ops, 0), Effects(d, ops, shift));
    assert Extends(Effects(d, ops, 0), Effects(d, ops, shift), env);
    assert Safe(Effects(s, rest, 0), config, env);
  }

  lemma NoRun(d: Disk, config: Config, env: Env)
    requires Safe(d, config, env)
    ensures SafeRun(d, [], config, env)
  {
    NoOps(d, env);
    hide Safe, CapturesOf, IsImageKey, OnlyExtends;
  }

  /** One set of images all along. */
  lemma SteadyImages(d: Disk, ops: seq<FsOp>)
    requires forall n: nat :: ImagesOf(Effects(d, ops, n)) == ImagesOf(d)
    ensures OnlyAddsImages(d, ops)
  {
    hide Effects, ImagesOf, KeepsImages;
    forall n: nat, k: nat | n <= k ensures KeepsImages(Effects(d, ops, n), Effects(d, ops, k)) {
      assert ImagesOf(Effects(d, ops, n)) == ImagesOf(d) == ImagesOf(Effects(d, ops, k));
      KeptImages(Effects(d, ops, n), Effects(d, ops, k));
    }
  }

  lemma PublishedImages(d: Disk, id: Bytes, image: Bytes, manifest: Bytes, config: Config, env: Env)
    requires PublishGuard(d, id, image, manifest, config, env) == None
    ensures OnlyAddsImages(d, PublishPlan(d, id, image, manifest, config, env).ops)
  {
    FreshImage(d, id, image, manifest, config, env);
    hide Effects, ImagesOf, KeepsImages, PublishPlan, PublishGuard, ImagePlan, Paths.ImagePath;
    var ops := PublishPlan(d, id, image, manifest, config, env).ops;
    forall n: nat, k: nat | n <= k ensures KeepsImages(Effects(d, ops, n), Effects(d, ops, k)) {
      PublishImages(d, id, image, manifest, config, env, n);
      PublishImages(d, id, image, manifest, config, env, k);
      KeptImages(Effects(d, ops, n), Effects(d, ops, k));
    }
  }

  lemma FreshImage(d: Disk, id: Bytes, image: Bytes, manifest: Bytes, config: Config, env: Env)
    requires PublishGuard(d, id, image, manifest, config, env) == None
    ensures Paths.ImagePath(id) !in ImagesOf(d)
  {
    hide FromJson, Projected, Total, Paths.ImagePath, IsId;
  }

  // ----- The three plans -----

  lemma {:induction false} SessionStays(d: Disk, ops: seq<FsOp>, n: nat)
    requires d.session || d.files == map[]
    requires d.session || ops == [] || ops[0] == MakeSession
    ensures Effects(d, ops, n).session || Effects(d, ops, n).files == map[]
    decreases ops
  {
    if ops != [] && n >= Cost(ops[0]) {
      SessionStays(Apply(ops[0], d), ops[1..], n - Cost(ops[0]));
    }
  }

  /** What the size of a valid manifest on disk can add. */
  lemma ManifestIsBounded(d: Disk, env: Env)
    requires Sound(d, env)
    ensures ManifestSize(d) <= MAX_JSON_FRAME_BYTES
  {
    hide Valid, AllHeld;
  }

  lemma SessionPlanStart(d: Disk, others: nat, config: Config, env: Env)
    requires !d.session
    ensures var ops := SessionPlan(d, others, config, env).ops; ops == [] || ops[0] == MakeSession
  {
    hide AppendPlan, Paths.Journal;
  }

  lemma SessionIsSafe(d: Disk, others: nat, config: Config, env: Env)
    requires Safe(d, config, env) && ReadsBack(env.parseLine)
    ensures SafeRun(d, SessionPlan(d, others, config, env).ops, config, env)
  {
    hide Integral, CapturesOf, Total, Effects, SessionPlan, Kept, ManifestFile, ImagesOf, OnlyAddsImages, OnlyGrows,
         OnlyExtends;
    var ops := SessionPlan(d, others, config, env).ops;
    if d.session {
      assert ops == [] by { RefusedSession(d, others, config, env); }
      NoRun(d, config, env);
    } else {
      forall n: nat
        ensures Safe(Effects(d, ops, n), config, env) && ManifestFile(Effects(d, ops, n)) == ManifestFile(d)
      {
        SessionKeepsIntegrity(d, others, config, env, n);
        SessionIsLight(d, others, config, env, n);
        SessionPlanStart(d, others, config, env);
        SessionStays(d, ops, n);
      }
      SameManifests(d, ops, env);
      forall n: nat ensures ImagesOf(Effects(d, ops, n)) == ImagesOf(d) {
        SessionImages(d, others, config, env, n);
      }
      SteadyImages(d, ops);
      SessionExtends(d, others, config, env);
    }
  }

  lemma RefusedSession(d: Disk, others: nat, config: Config, env: Env)
    requires d.session
    ensures SessionPlan(d, others, config, env).ops == []
  {
  }

  lemma SameManifests(d: Disk, ops: seq<FsOp>, env: Env)
    requires forall n: nat :: ManifestFile(Effects(d, ops, n)) == ManifestFile(d)
    ensures OnlyGrows(d, ops, env)
  {
    hide Effects, ManifestFile;
    forall n: nat, k: nat | n <= k ensures CapturesOf(Effects(d, ops, n), env) <= CapturesOf(Effects(d, ops, k), env) {
      assert ManifestFile(Effects(d, ops, n)) == ManifestFile(d) == ManifestFile(Effects(d, ops, k));
    }
  }

  /** One switch, from the old manifest to one that lists at least as much. */
  lemma OneSwitch(d: Disk, ops: seq<FsOp>, at: nat, manifest: Bytes, env: Env)
    requires forall n: nat :: ManifestFile(Effects(d, ops, n)) == if n < at then ManifestFile(d) else Some(manifest)
    requires Lists(manifest, CapturesOf(d, env), env)
          || exists c :: Lists(manifest, CapturesOf(d, env) + [c], env)
    ensures OnlyGrows(d, ops, env)
  {
    hide Effects, ManifestFile, FromJson;
    forall n: nat, k: nat | n <= k ensures CapturesOf(Effects(d, ops, n), env) <= CapturesOf(Effects(d, ops, k), env) {
      var s, t := Effects(d, ops, n), Effects(d, ops, k);
      assert ManifestFile(s) == if n < at then ManifestFile(d) else Some(manifest);
      assert ManifestFile(t) == if k < at then ManifestFile(d) else Some(manifest);
    }
  }

  /** `base` is what the daemon takes for the session's manifest: what is on
      disk, or a fresh one with no captures when there is none. */
  predicate IsBase(d: Disk, base: Evidence, env: Env) {
    if ManifestFile(d).Some? then ManifestOf(d, env) == Some(base) else base.captures == [] && base.findings == []
  }

  lemma BaseIsKept(d: Disk, base: Evidence, config: Config, env: Env)
    requires Safe(d, config, env) && IsBase(d, base, env)
    ensures Kept(base) && CapturesOf(d, env) == base.captures
  {
    hide FromJson, AllHeld, Audited, Total;
  }

  /** The draft's image is the decoding of its PNG. */
  predicate Genuine(draft: Draft, env: Env) {
    draft.image.sha256 == env.hash(draft.png)
  }

  /** A publication by the daemon, planned on a safe disk, is a safe run. */
  lemma PublishIsSafe(d: Disk, base: Evidence, draft: Draft, manifest: Bytes, config: Config, env: Env)
    requires Safe(d, config, env) && ReadsBack(env.parseLine) && IsBase(d, base, env) && Genuine(draft, env)
    requires Published(base, draft, config.maxCaptures, env.hash).Ok?
    requires env.parseManifest(manifest) == Some(Published(base, draft, config.maxCaptures, env.hash).value)
    ensures SafeRun(d, PublishPlan(d, NextId(base, draft), draft.png, manifest, config, env).ops, config, env)
  {
    var id := NextId(base, draft);
    var ops := PublishPlan(d, id, draft.png, manifest, config, env).ops;
    if PublishGuard(d, id, draft.png, manifest, config, env) == None {
      PublishedLists(d, base, draft, manifest, config, env);
      var c := RecordFor(base, draft);
      PublishedIsSafe(d, id, draft.png, manifest, c, config, env);
    } else {
      assert ops == [];
      NoRun(d, config, env);
    }
  }

  lemma PublishedLists(d: Disk, base: Evidence, draft: Draft, manifest: Bytes, config: Config, env: Env)
    requires Safe(d, config, env) && IsBase(d, base, env) && Genuine(draft, env)
    requires Published(base, draft, config.maxCaptures, env.hash).Ok?
    requires env.parseManifest(manifest) == Some(Published(base, draft, config.maxCaptures, env.hash).value)
    requires PublishGuard(d, NextId(base, draft), draft.png, manifest, config, env) == None
    ensures var c := RecordFor(base, draft);
            && Lists(manifest, CapturesOf(d, env) + [c], env) && Cites(c, NextId(base, draft), draft.png, env)
            && Kept(FromJson(manifest, env.parseManifest).value)
  {
    BaseIsKept(d, base, config, env);
    GuardedDisk(d, NextId(base, draft), draft.png, manifest, config, env);
    hide Safe, PublishGuard, Kept, NextId, Findings.Found, ValidInput, FindingsOk, AgentFindingsOk, ComparisonOk,
         BeforeAfterOk, ValidProvenance, NoteOk, Nesting.NestingWithinLimit, CapturesOf, Paths.ImagePath;
    assert |base.captures| < MAX_CAPTURE_COUNT;
    PublishedIsKept(base, draft, config.maxCaptures, env.hash);
  }

  lemma PublishedStateIsSafe(d: Disk, id: Bytes, image: Bytes, manifest: Bytes, c: CaptureRecord, config: Config,
                             env: Env, n: nat)
    requires Safe(d, config, env) && ReadsBack(env.parseLine)
    requires PublishGuard(d, id, image, manifest, config, env) == None
    requires Lists(manifest, CapturesOf(d, env) + [c], env) && Cites(c, id, image, env)
    requires Kept(FromJson(manifest, env.parseManifest).value)
    ensures var s := Effects(d, PublishPlan(d, id, image, manifest, config, env).ops, n);
            Safe(s, config, env) && ManifestFile(s) == ManifestAfter(d, id, image, manifest, env, n)
  {
    var ops := PublishPlan(d, id, image, manifest, config, env).ops;
    GuardedDisk(d, id, image, manifest, config, env);
    hide PublishGuard, PublishPlan, Cites, Integral, Effects, Total, Kept, ManifestFile, FromJson, ImagePlan,
         PublishPoint;
    PublishKeepsIntegrity(d, id, image, manifest, c, config, env, n);
    PublishStaysWithinQuota(d, id, image, manifest, config, env, n);
    SessionStays(d, ops, n);
  }

  lemma PublishedIsSafe(d: Disk, id: Bytes, image: Bytes, manifest: Bytes, c: CaptureRecord, config: Config, env: Env)
    requires Safe(d, config, env) && ReadsBack(env.parseLine)
    requires PublishGuard(d, id, image, manifest, config, env) == None
    requires Lists(manifest, CapturesOf(d, env) + [c], env) && Cites(c, id, image, env)
    requires Kept(FromJson(manifest, env.parseManifest).value)
    ensures SafeRun(d, PublishPlan(d, id, image, manifest, config, env).ops, config, env)
  {
    hide PublishGuard, PublishPlan, Cites, Safe, Effects, Kept, ManifestFile, FromJson, ImagePlan, PublishPoint, Lists,
         OnlyGrows, OnlyAddsImages, OnlyExtends;
    var ops := PublishPlan(d, id, image, manifest, config, env).ops;
    forall n: nat
      ensures Safe(Effects(d, ops, n), config, env)
      ensures ManifestFile(Effects(d, ops, n)) == ManifestAfter(d, id, image, manifest, env, n)
    {
      PublishedStateIsSafe(d, id, image, manifest, c, config, env, n);
    }
    PublishedImages(d, id, image, manifest, config, env);
    PublishExtends(d, id, image, manifest, config, env);
    if ImagePlan(d, id, image, env).error == None {
      OneSwitch(d, ops, PublishPoint(d, id, image, manifest, env), manifest, env);
    } else {
      SameManifests(d, ops, env);
    }
  }

  lemma RevisedStateIsSafe(d: Disk, manifest: Bytes, config: Config, env: Env, n: nat)
    requires Safe(d, config, env) && ReadsBack(env.parseLine) && ReplaceGuard(d, manifest, config, env) == None
    requires Lists(manifest, CapturesOf(d, env), env) && Kept(FromJson(manifest, env.parseManifest).value)
    ensures var s := Effects(d, RevisionPlan(d, manifest, config, env).ops, n);
            && Safe(s, config, env)
            && ManifestFile(s) == if n < SwitchPoint(d, manifest, env) then ManifestFile(d) else Some(manifest)
  {
    var ops := RevisionPlan(d, manifest, config, env).ops;
    GuardedRevision(d, manifest, config, env);
    hide ReplaceGuard, RevisionPlan, Integral, Effects, Total, Kept, ManifestFile, FromJson, SwitchPoint, ManifestSize;
    SoundOf(d, env);
    ManifestIsBounded(d, env);
    RevisionKeepsIntegrity(d, manifest, config, env, n);
    RevisionExcess(d, manifest, config, env, n);
    SessionStays(d, ops, n);
  }

  lemma AdmittedRevisionIsSafe(d: Disk, manifest: Bytes, config: Config, env: Env)
    requires Safe(d, config, env) && ReadsBack(env.parseLine) && ReplaceGuard(d, manifest, config, env) == None
    requires Lists(manifest, CapturesOf(d, env), env) && Kept(FromJson(manifest, env.parseManifest).value)
    ensures SafeRun(d, RevisionPlan(d, manifest, config, env).ops, config, env)
  {
    hide ReplaceGuard, RevisionPlan, Safe, Effects, Kept, ManifestFile, FromJson, SwitchPoint, Lists, OnlyGrows,
         OnlyAddsImages, ImagesOf, OnlyExtends;
    var ops := RevisionPlan(d, manifest, config, env).ops;
    forall n: nat
      ensures Safe(Effects(d, ops, n), config, env)
      ensures ManifestFile(Effects(d, ops, n))
           == if n < SwitchPoint(d, manifest, env) then ManifestFile(d) else Some(manifest)
    {
      RevisedStateIsSafe(d, manifest, config, env, n);
    }
    OneSwitch(d, ops, SwitchPoint(d, manifest, env), manifest, env);
    forall n: nat ensures ImagesOf(Effects(d, ops, n)) == ImagesOf(d) {
      RevisionImages(d, manifest, config, env, n);
    }
    SteadyImages(d, ops);
    RevisionExtends(d, manifest, config, env);
  }

  /** A revision that leaves the captures alone, planned on a safe disk, is a
      safe run. */
  lemma RevisionIsSafe(d: Disk, manifest: Bytes, config: Config, env: Env)
    requires Safe(d, config, env) && ReadsBack(env.parseLine)
    requires FromJson(manifest, env.parseManifest).Some? ==>
               Lists(manifest, CapturesOf(d, env), env) && Kept(FromJson(manifest, env.parseManifest).value)
    ensures SafeRun(d, RevisionPlan(d, manifest, config, env).ops, config, env)
  {
    hide *;
    if ReplaceGuard(d, manifest, config, env) == None {
      GuardedRevision(d, manifest, config, env);
      AdmittedRevisionIsSafe(d, manifest, config, env);
    } else {
      RefusedRevision(d, manifest, config, env);
      NoRun(d, config, env);
    }
  }

  lemma RefusedRevision(d: Disk, manifest: Bytes, config: Config, env: Env)
    requires ReplaceGuard(d, manifest, config, env) != None
    ensures RevisionPlan(d, manifest, config, env).ops == []
  {
    hide ReplaceGuard;
  }

  lemma SoundOf(d: Disk, env: Env)
    requires Integral(d, env)
    ensures Sound(d, env)
  {
  }

  lemma GuardedRevision(d: Disk, manifest: Bytes, config: Config, env: Env)
    requires ReplaceGuard(d, manifest, config, env) == None
    ensures d.session && FromJson(manifest, env.parseManifest).Some?
  {
    hide FromJson, Recovered, JournalLine, Total;
  }
}
