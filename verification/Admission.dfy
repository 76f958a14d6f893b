/** When the store must admit a publication or a revision: exactly when what it
    is going to write fits into the quota and no other check fails. */
module Admission {
  import opened Bytes
  import opened Errors
  import opened Files
  import opened Journal
  import opened Manifest
  import opened Plans
  import opened Quota
  import Paths

  /** The same configuration with another quota. */
  function WithQuota(config: Config, quota: nat): Config {
    config.(maxBundleBytes := quota)
  }

  /** A session whose journal recovery succeeds. */
  predicate IsOpen(d: Disk, env: Env) {
    && d.session && Paths.Journal() in d.files
    && Recovered(d.files[Paths.Journal()], env.parseLine, env.hash).Ok?
  }

  // ----- Publishing -----

  /** Everything a publication is checked for but the quota. */
  ghost predicate Publishable(d: Disk, id: Bytes, image: Bytes, manifest: Bytes, config: Config, env: Env) {
    && IsId(id) && 0 < |image| <= config.maxImageBytes && IsOpen(d, env)
    && Ascii("captures/") + id + Ascii(".png") !in d.files
    && FromJson(manifest, env.parseManifest).Some?
    && Total(d.files) < 0x1_0000_0000_0000_0000
  }

  /** The other checks pass exactly when some quota admits the publication. */
  lemma SomeQuotaAdmits(d: Disk, id: Bytes, image: Bytes, manifest: Bytes, config: Config, env: Env)
    returns (quota: nat)
    ensures Publishable(d, id, image, manifest, config, env)
       ==> PublishGuard(d, id, image, manifest, WithQuota(config, quota), env) == None
    ensures PublishGuard(d, id, image, manifest, config, env) == None
            ==> Publishable(d, id, image, manifest, config, env)
  {
    Paths.ImagePathIs(id);
    quota := Projected(d, id, image, manifest, env);
    hide Projected, Total, Recovered, FromJson, IsId, Paths.ImagePath, Paths.Journal;
  }

  lemma OnlyQuotaDiffers(d: Disk, id: Bytes, image: Bytes, manifest: Bytes, config: Config, env: Env, quota: nat)
    requires PublishGuard(d, id, image, manifest, WithQuota(config, quota), env) == None
    ensures PublishGuard(d, id, image, manifest, config, env)
         == if Projected(d, id, image, manifest, env) > config.maxBundleBytes then Some(Quota) else None
  {
    hide Projected, Total, Recovered, FromJson, IsId, Paths.ImagePath, Paths.Journal;
  }

  /** A publication that nothing else stops is refused exactly when the session
      and all the octets it would write weigh more than the quota. */
  lemma PublicationIsAdmitted(d: Disk, id: Bytes, image: Bytes, manifest: Bytes, config: Config, env: Env, quota: nat)
    requires ReadsBack(env.parseLine)
    requires PublishGuard(d, id, image, manifest, WithQuota(config, quota), env) == None
    requires ImagePlan(d, id, image, env).error == None
    requires |AfterCapture(d, id, image, env)| <= 67_108_864
    ensures var plan := PublishPlan(d, id, image, manifest, WithQuota(config, quota), env);
            PublishGuard(d, id, image, manifest, config, env)
            == if Total(d.files) + Written(plan.ops) > config.maxBundleBytes then Some(Quota) else None
  {
    assert MAX_JOURNAL_BYTES == 67_108_864;
    hide *;
    OnlyQuotaDiffers(d, id, image, manifest, config, env, quota);
    PredictedLinesAreAppended(d, id, image, manifest, WithQuota(config, quota), env);
    ProjectedIsWritten(d, id, image, manifest, WithQuota(config, quota), env);
  }

  lemma ProjectedIsWritten(d: Disk, id: Bytes, image: Bytes, manifest: Bytes, config: Config, env: Env)
    requires ReadsBack(env.parseLine) && PublishGuard(d, id, image, manifest, config, env) == None
    requires ImagePlan(d, id, image, env).error == None
    requires |AfterCapture(d, id, image, env)| <= MAX_JOURNAL_BYTES
    ensures Projected(d, id, image, manifest, env)
         == Total(d.files) + Written(PublishPlan(d, id, image, manifest, config, env).ops)
  {
    hide PublishGuard, ImagePlan, AfterCapture, PublishPlan, Written, CaptureLine, ManifestLine, EntriesOf,
         WithCapture, Total, CaptureWritten, ManifestWritten, RunAll, ReadsBack;
    PredictedLinesAreAppended(d, id, image, manifest, config, env);
  }

  /** So a publication that nothing interrupts succeeds exactly when: its checks
      pass, no temporary file of the same content is left over, the journal stays
      recoverable after its first line, and what it writes fits. */
  lemma PublicationCompletes(d: Disk, id: Bytes, image: Bytes, manifest: Bytes, config: Config, env: Env)
    returns (quota: nat)
    requires ReadsBack(env.parseLine)
    ensures PublishPlan(d, id, image, manifest, config, env).error == None
       <==> && Publishable(d, id, image, manifest, config, env) && d.captures
            && Ascii("captures/.tmp-") + env.hash(image) !in d.files
            && |AfterCapture(d, id, image, env)| <= 67_108_864
            && Total(d.files) + Written(PublishPlan(d, id, image, manifest, WithQuota(config, quota), env).ops)
               <= config.maxBundleBytes
    ensures Publishable(d, id, image, manifest, config, env)
       ==> PublishGuard(d, id, image, manifest, WithQuota(config, quota), env) == None
  {
    assert MAX_JOURNAL_BYTES == 67_108_864;
    hide *;
    Paths.ImageTempIs(env.hash(image));
    quota := SomeQuotaAdmits(d, id, image, manifest, config, env);
    PublicationSucceeds(d, id, image, manifest, config, env);
    if Publishable(d, id, image, manifest, config, env) && d.captures && Paths.ImageTemp(env.hash(image)) !in d.files
       && |AfterCapture(d, id, image, env)| <= 67_108_864 {
      PathIsFree(d, id, image, manifest, config, env);
      PublicationIsAdmitted(d, id, image, manifest, config, env, quota);
    }
  }

  lemma PathIsFree(d: Disk, id: Bytes, image: Bytes, manifest: Bytes, config: Config, env: Env)
    requires Publishable(d, id, image, manifest, config, env) && d.captures
             && Paths.ImageTemp(env.hash(image)) !in d.files
    ensures ImagePlan(d, id, image, env).error == None
  {
    Paths.ImagePathIs(id);
    hide Total, IsOpen, FromJson, IsId, Paths.ImagePath, Paths.ImageTemp;
  }

  // ----- Replacing -----

  /** Everything a revision is checked for but the quota. */
  ghost predicate Revisable(d: Disk, manifest: Bytes, env: Env) {
    IsOpen(d, env) && FromJson(manifest, env.parseManifest).Some? && Total(d.files) < 0x1_0000_0000_0000_0000
  }

  lemma SomeQuotaRevises(d: Disk, manifest: Bytes, config: Config, env: Env) returns (quota: nat)
    ensures Revisable(d, manifest, env) ==> ReplaceGuard(d, manifest, WithQuota(config, quota), env) == None
    ensures ReplaceGuard(d, manifest, config, env) == None ==> Revisable(d, manifest, env)
  {
    quota := TightQuota(d, manifest, env);
    ManifestIsCounted(d);
    hide Total, Recovered, FromJson, Paths.Journal, ManifestLine;
  }

  lemma OnlyRevisionQuotaDiffers(d: Disk, manifest: Bytes, config: Config, env: Env, quota: nat)
    requires ReplaceGuard(d, manifest, WithQuota(config, quota), env) == None
    ensures ReplaceGuard(d, manifest, config, env)
         == if TightQuota(d, manifest, env) > config.maxBundleBytes then Some(Quota) else None
  {
    ManifestIsCounted(d);
    hide Total, Recovered, FromJson, Paths.Journal, ManifestLine;
  }

  /** A revision that nothing else stops is refused exactly when the session
      without the manifest it replaces, and all the octets it would write, weigh
      more than the quota. */
  lemma RevisionIsAdmitted(d: Disk, manifest: Bytes, config: Config, env: Env, quota: nat)
    requires ReplaceGuard(d, manifest, WithQuota(config, quota), env) == None
    ensures var plan := RevisionPlan(d, manifest, WithQuota(config, quota), env);
            var kept := Total((d.files - {Ascii("manifest.json")}));
            ReplaceGuard(d, manifest, config, env)
            == if kept + Written(plan.ops) > config.maxBundleBytes then Some(Quota) else None
  {
    hide *;
    OnlyRevisionQuotaDiffers(d, manifest, config, env, quota);
    RevisionWrites(d, manifest, WithQuota(config, quota), env);
  }

  lemma RevisionWrites(d: Disk, manifest: Bytes, config: Config, env: Env)
    requires ReplaceGuard(d, manifest, config, env) == None
    ensures TightQuota(d, manifest, env)
         == Total(d.files - {Ascii("manifest.json")}) + Written(RevisionPlan(d, manifest, config, env).ops)
  {
    RevisionOpens(d, manifest, config, env);
    RevisionSegment(d, manifest, env);
    TotalPut(d.files, Paths.Manifest(), []);
    hide Total, Recovered, FromJson, Paths.Journal, ManifestLine, ManifestWrites, ReplaceGuard, Written, RunAll,
         Repaired, ManifestWritten, EntriesOf;
    assert Paths.Manifest() == Ascii("manifest.json");
  }

  lemma RevisionOpens(d: Disk, manifest: Bytes, config: Config, env: Env)
    requires ReplaceGuard(d, manifest, config, env) == None
    ensures Paths.Journal() in d.files && Recovered(JournalOf(d), env.parseLine, env.hash).Ok?
  {
    hide Total, FromJson, Recovered, Paths.Journal, ManifestLine;
  }

  /** And a revision that nothing interrupts succeeds exactly when its checks pass
      and what it writes fits. */
  lemma RevisionCompletes(d: Disk, manifest: Bytes, config: Config, env: Env) returns (quota: nat)
    ensures RevisionPlan(d, manifest, config, env).error == None
       <==> && Revisable(d, manifest, env)
            && Total(d.files - {Ascii("manifest.json")})
               + Written(RevisionPlan(d, manifest, WithQuota(config, quota), env).ops) <= config.maxBundleBytes
    ensures Revisable(d, manifest, env) ==> ReplaceGuard(d, manifest, WithQuota(config, quota), env) == None
  {
    hide *;
    quota := SomeQuotaRevises(d, manifest, config, env);
    if Revisable(d, manifest, env) {
      RevisionIsAdmitted(d, manifest, config, env, quota);
    }
    RevisionSucceeds(d, manifest, config, env);
  }

  lemma RevisionSucceeds(d: Disk, manifest: Bytes, config: Config, env: Env)
    ensures RevisionPlan(d, manifest, config, env).error == None <==> ReplaceGuard(d, manifest, config, env) == None
  {
    hide ReplaceGuard, ManifestWrites, Recovered, EntriesOf, ManifestLine, RunAll, Written, Repaired, ManifestWritten;
    if ReplaceGuard(d, manifest, config, env) == None {
      RevisionOpens(d, manifest, config, env);
      RevisionSegment(d, manifest, env);
    }
  }
}
