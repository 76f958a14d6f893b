/** Image objects are written once: along every planned operation the images on
    disk are the old ones, and at one instant a publication adds its own. */
module Images {
  import opened Bytes
  import opened Files
  import opened JournalText
  import opened Journal
  import opened Manifest
  import opened Plans
  import opened Quota
  import opened Integrity
  import Paths

  function ImagesOf(d: Disk): map<Bytes, Bytes> {
    map k | k in d.files && IsImageKey(k) :: d.files[k]
  }

  lemma SameImages(d: Disk, s: Disk, keys: set<Bytes>)
    requires Agrees(d, s, keys) && forall k | k in keys :: !IsImageKey(k)
    ensures ImagesOf(s) == ImagesOf(d)
  {
    hide IsImageKey;
  }

  lemma NoImages(keys: set<Bytes>, id: Bytes, image: Digest, manifest: Digest)
    requires IsId(id)
             && keys <= {Paths.ImageTemp(image), Paths.ManifestTemp(manifest), Paths.Journal(), Paths.Manifest()}
    ensures forall k | k in keys :: !IsImageKey(k)
  {
    KeysAreDistinct(id, image, manifest);
    hide IsImageKey, Paths.ImageTemp, Paths.ManifestTemp, Paths.Journal, Paths.Manifest;
  }

  lemma AppendAgrees(d: Disk, operation: Operation, path: Bytes, content: Bytes, env: Env, n: nat)
    requires Paths.Journal() in d.files
    ensures Agrees(d, Effects(d, AppendPlan(d, operation, path, content, env).ops, n), {Paths.Journal()})
  {
    hide JournalLine, Repaired, AppendPlan, Effects, Paths.Journal;
    AppendStates(d, operation, path, content, env, n);
  }

  lemma AppendImages(d: Disk, operation: Operation, path: Bytes, content: Bytes, env: Env, n: nat)
    requires Paths.Journal() in d.files
    ensures ImagesOf(Effects(d, AppendPlan(d, operation, path, content, env).ops, n)) == ImagesOf(d)
  {
    hide AppendPlan, Effects, Paths.Journal, IsImageKey, ImagesOf, Agrees;
    AppendAgrees(d, operation, path, content, env, n);
    NoImages({Paths.Journal()}, [65], Repeat(48, 64), Repeat(48, 64));
    SameImages(d, Effects(d, AppendPlan(d, operation, path, content, env).ops, n), {Paths.Journal()});
  }

  /** When a publication's image appears. */
  function AppearsAt(image: Bytes): nat {
    |image| + 2
  }

  function ImagesAfter(d: Disk, id: Bytes, image: Bytes, n: nat): map<Bytes, Bytes> {
    if n >= AppearsAt(image) then ImagesOf(d)[Paths.ImagePath(id) := image] else ImagesOf(d)
  }

  lemma PutImage(d: Disk, id: Bytes, image: Bytes, temp: Digest)
    requires IsId(id)
    ensures ImagesOf(ImageWritten(d, id, image)) == ImagesOf(d)[Paths.ImagePath(id) := image]
    ensures ImagesOf(WithoutTemp(d, Paths.ImageTemp(temp))) == ImagesOf(d)
  {
    KeysAreDistinct(id, temp, temp);
    hide IsImageKey, Paths.ImagePath, Paths.ImageTemp;
  }

  lemma NotYet(d: Disk, s: Disk, path: Bytes, temp: Bytes)
    requires Agrees(d, s, {temp, path}) && SameFile(d, s, path) && !IsImageKey(temp)
    ensures ImagesOf(s) == ImagesOf(d)
  {
    hide IsImageKey;
    forall k | k in s.files && IsImageKey(k) ensures k in d.files && s.files[k] == d.files[k] {
    }
    forall k | k in d.files && IsImageKey(k) ensures k in s.files {
    }
  }

  lemma ImageImages(d: Disk, id: Bytes, image: Bytes, env: Env, n: nat)
    requires IsId(id) && ImagePlan(d, id, image, env).error == None
    ensures ImagesOf(Effects(d, ImagePlan(d, id, image, env).ops, n)) == ImagesAfter(d, id, image, n)
    ensures CostAll(ImagePlan(d, id, image, env).ops) == AppearsAt(image)
  {
    var path, temp := Paths.ImagePath(id), Paths.ImageTemp(env.hash(image));
    KeysAreDistinct(id, env.hash(image), env.hash(image));
    hide Effects, IsImageKey, Paths.ImagePath, Paths.ImageTemp, CostAll, ImagesOf, Agrees, SameFile, WriteOps, IsId;
    WriteStates(d, path, temp, image, n);
    if n < AppearsAt(image) {
      NotYet(d, Effects(d, WriteOps(path, temp, image), n), path, temp);
    } else {
      PutImage(d, id, image, env.hash(image));
      PutImage(WithoutTemp(d, temp), id, image, env.hash(image));
    }
  }

  lemma CaptureImages(d: Disk, id: Bytes, image: Bytes, env: Env, n: nat)
    requires IsId(id) && Paths.Journal() in d.files && ImagePlan(d, id, image, env).error == None
    ensures ImagesOf(Effects(d, CaptureWrites(d, id, image, env).ops, n)) == ImagesAfter(d, id, image, n)
  {
    hide Effects, IsImageKey, IsId, Paths.ImagePath, Paths.Journal, CostAll, ImagesOf, AppendPlan, RunAll, ImagePlan,
         JournalOf;
    var a := ImagePlan(d, id, image, env);
    var d1 := ImageWritten(d, id, image);
    ImageSegment(d, id, image, env);
    ImageImages(d, id, image, env, n);
    var b := AppendPlan(d1, CapturePublished, Paths.ImagePath(id), image, env);
    EffectsConcat(d, a.ops, b.ops, n);
    if n >= CostAll(a.ops) {
      PutImage(d, id, image, env.hash(image));
      AppendImages(d1, CapturePublished, Paths.ImagePath(id), image, env, n - CostAll(a.ops));
    }
  }

  lemma ManifestImages(d: Disk, manifest: Bytes, env: Env, n: nat)
    requires Paths.Journal() in d.files
    ensures ImagesOf(Effects(d, ManifestWrites(d, manifest, env).ops, n)) == ImagesOf(d)
  {
    var a := ManifestPlan(d, manifest, env);
    var d1 := ManifestWritten(d, manifest, env);
    var keys := {Paths.ManifestTemp(env.hash(manifest)), Paths.Manifest()};
    ManifestSegment(d, manifest, env);
    hide Effects, IsImageKey, Paths.Manifest, Paths.ManifestTemp, Paths.Journal, CostAll, ImagesOf, AppendPlan, RunAll,
         ManifestPlan, Agrees;
    NoImages(keys, [65], env.hash(manifest), env.hash(manifest));
    var b := AppendPlan(d1, ManifestPublished, Paths.Manifest(), manifest, env);
    EffectsConcat(d, a.ops, b.ops, n);
    ManifestStates(d, manifest, env, n);
    ManifestStates(d, manifest, env, CostAll(a.ops));
    SameImages(d, Effects(d, a.ops, n), keys);
    SameImages(d, Effects(d, a.ops, CostAll(a.ops)), keys);
    if n >= CostAll(a.ops) {
      JournalStays(d, manifest, env);
      AppendImages(d1, ManifestPublished, Paths.Manifest(), manifest, env, n - CostAll(a.ops));
    }
  }

  lemma JournalStays(d: Disk, manifest: Bytes, env: Env)
    requires Paths.Journal() in d.files
    ensures Paths.Journal() in ManifestWritten(d, manifest, env).files
  {
    ManifestSegment(d, manifest, env);
    hide Paths.Manifest, Paths.ManifestTemp, Paths.Journal, RunAll;
  }

  lemma WrittenImages(d: Disk, id: Bytes, image: Bytes, manifest: Bytes, config: Config, env: Env)
    requires PublishGuard(d, id, image, manifest, config, env) == None && ImagePlan(d, id, image, env).error == None
    ensures ImagesOf(CaptureWritten(d, id, image, env)) == ImagesAfter(d, id, image, AppearsAt(image))
    ensures CostAll(CaptureWrites(d, id, image, env).ops) >= AppearsAt(image)
    ensures Paths.Journal() in CaptureWritten(d, id, image, env).files
  {
    GuardedDisk(d, id, image, manifest, config, env);
    LongEnough(d, id, image, env);
    PutImage(d, id, image, env.hash(image));
    JournalPutImages(ImageWritten(d, id, image), AfterCapture(d, id, image, env));
    hide PublishGuard, ImagePlan, CaptureWrites, ImagesOf, ImageWritten, AfterCapture, Paths.Journal;
  }

  lemma JournalPutImages(d: Disk, bytes: Bytes)
    ensures ImagesOf(Put(d, Paths.Journal(), bytes)) == ImagesOf(d)
  {
    KeysAreDistinct([65], Repeat(48, 64), Repeat(48, 64));
    hide IsImageKey, Paths.Journal;
  }

  lemma LateImages(d: Disk, id: Bytes, image: Bytes, manifest: Bytes, config: Config, env: Env, n: nat)
    requires PublishGuard(d, id, image, manifest, config, env) == None && ImagePlan(d, id, image, env).error == None
    requires n >= CostAll(CaptureWrites(d, id, image, env).ops)
    ensures ImagesOf(Effects(d, PublishPlan(d, id, image, manifest, config, env).ops, n))
         == ImagesAfter(d, id, image, n)
  {
    hide *;
    var m := CostAll(CaptureWrites(d, id, image, env).ops);
    PublishEffects(d, id, image, manifest, config, env, n);
    WrittenImages(d, id, image, manifest, config, env);
    AppearsBoth(d, id, image, AppearsAt(image), n);
    ManifestImages(CaptureWritten(d, id, image, env), manifest, env, n - m);
  }

  lemma EarlyImages(d: Disk, id: Bytes, image: Bytes, manifest: Bytes, config: Config, env: Env, n: nat)
    requires PublishGuard(d, id, image, manifest, config, env) == None && ImagePlan(d, id, image, env).error == None
    requires n < CostAll(CaptureWrites(d, id, image, env).ops)
    ensures ImagesOf(Effects(d, PublishPlan(d, id, image, manifest, config, env).ops, n))
         == ImagesAfter(d, id, image, n)
  {
    hide *;
    PublishEffects(d, id, image, manifest, config, env, n);
    GuardedDisk(d, id, image, manifest, config, env);
    CaptureImages(d, id, image, env, n);
  }

  /** Along a publication: the old images until its own is complete, then those
      and that one, each with its octets unchanged. */
  lemma PublishImages(d: Disk, id: Bytes, image: Bytes, manifest: Bytes, config: Config, env: Env, n: nat)
    requires PublishGuard(d, id, image, manifest, config, env) == None
    ensures ImagesOf(Effects(d, PublishPlan(d, id, image, manifest, config, env).ops, n))
         == if ImagePlan(d, id, image, env).error == None then ImagesAfter(d, id, image, n) else ImagesOf(d)
  {
    hide *;
    if ImagePlan(d, id, image, env).error != None {
      ImageRefused(d, id, image, manifest, config, env);
      NothingRuns(d, n);
    } else if n < CostAll(CaptureWrites(d, id, image, env).ops) {
      EarlyImages(d, id, image, manifest, config, env, n);
    } else {
      LateImages(d, id, image, manifest, config, env, n);
    }
  }

  lemma AppearsBoth(d: Disk, id: Bytes, image: Bytes, m: nat, n: nat)
    requires AppearsAt(image) <= m <= n
    ensures ImagesAfter(d, id, image, m) == ImagesAfter(d, id, image, n)
  {
  }

  lemma LongEnough(d: Disk, id: Bytes, image: Bytes, env: Env)
    requires IsId(id) && ImagePlan(d, id, image, env).error == None
    ensures CostAll(CaptureWrites(d, id, image, env).ops) >= AppearsAt(image)
  {
    ImageImages(d, id, image, env, 0);
    hide ImagesOf, ImagePlan, AppendPlan, RunAll, CostAll;
    var a := ImagePlan(d, id, image, env);
    CostConcat(a.ops, AppendPlan(RunAll(d, a.ops), CapturePublished, Paths.ImagePath(id), image, env).ops);
  }

  lemma RevisionImages(d: Disk, manifest: Bytes, config: Config, env: Env, n: nat)
    ensures ImagesOf(Effects(d, RevisionPlan(d, manifest, config, env).ops, n)) == ImagesOf(d)
  {
    hide ImagesOf, ManifestWrites, Effects, Recovered, Total, FromJson, JournalLine, Paths.Journal;
    if ReplaceGuard(d, manifest, config, env) == None {
      ManifestImages(d, manifest, env, n);
    } else {
      NothingRuns(d, n);
    }
  }

  lemma SessionImages(d: Disk, others: nat, config: Config, env: Env, n: nat)
    ensures ImagesOf(Effects(d, SessionPlan(d, others, config, env).ops, n)) == ImagesOf(d)
  {
    hide ImagesOf, AppendPlan, Effects, RunAll, CostAll, MakeOps, Paths.Journal, SessionMade, SessionGuard;
    if SessionGuard(d, others, config) == None {
      MakeStates(d, n);
      MadeImages(d);
      var d1 := SessionMade(d);
      var b := AppendPlan(d1, SessionCreated, [], [], env);
      EffectsConcat(d, MakeOps(), b.ops, n);
      if n < 3 {
        FilesImages(d, Effects(d, MakeOps(), n));
      } else {
        AppendImages(d1, SessionCreated, [], [], env, n - 3);
      }
    } else {
      NothingRuns(d, n);
    }
  }

  lemma FilesImages(d: Disk, s: Disk)
    requires s.files == d.files
    ensures ImagesOf(s) == ImagesOf(d)
  {
  }

  lemma MadeImages(d: Disk)
    ensures ImagesOf(SessionMade(d)) == ImagesOf(d) && Paths.Journal() in SessionMade(d).files
  {
    KeysAreDistinct([65], Repeat(48, 64), Repeat(48, 64));
    hide IsImageKey, Paths.Journal;
  }

  /** From images to files: nothing lost, nothing changed. */
  lemma KeptImages(d: Disk, s: Disk)
    requires forall k | k in ImagesOf(d) :: k in ImagesOf(s) && ImagesOf(s)[k] == ImagesOf(d)[k]
    ensures KeepsImages(d, s)
  {
    hide IsImageKey;
    forall k | k in d.files && IsImageKey(k) ensures k in s.files && s.files[k] == d.files[k] {
      assert k in ImagesOf(d);
    }
  }

  // ----- What an interruption leaves in the way -----

  lemma TempIsThere(d: Disk, path: Bytes, temp: Bytes, content: Bytes, n: nat)
    requires temp != path && 1 <= n < |content| + 2
    ensures temp in Effects(d, WriteOps(path, temp, content), n).files
  {
    var ops := WriteOps(path, temp, content);
    var b := ops[1..];
    assert b[1..] == [ops[2]] && b[0] == Append(temp, content);
    var d1 := Put(d, temp, []);
    assert Effects(d, ops, n) == Effects(d1, b, n - 1);
    if n - 1 >= |content| {
      var d2 := Put(d1, temp, [] + content);
      assert Effects(d1, b, n - 1) == Effects(d2, [ops[2]], 0) == d2;
    }
  }

  /** The image's temporary file is there until the rename. */
  lemma LeftoverTemp(d: Disk, id: Bytes, image: Bytes, manifest: Bytes, config: Config, env: Env, n: nat)
    requires PublishGuard(d, id, image, manifest, config, env) == None && ImagePlan(d, id, image, env).error == None
    requires 1 <= n < AppearsAt(image)
    ensures Paths.ImageTemp(env.hash(image))
            in Effects(d, PublishPlan(d, id, image, manifest, config, env).ops, n).files
  {
    GuardedDisk(d, id, image, manifest, config, env);
    var a := ImagePlan(d, id, image, env);
    var b := AppendPlan(RunAll(d, a.ops), CapturePublished, Paths.ImagePath(id), image, env);
    Paths.PathsDiffer(id, id, env.hash(image), env.hash(image));
    hide Effects, PublishPlan, PublishGuard, Paths.ImagePath, Paths.ImageTemp, AppendPlan, RunAll, CostAll, ImagesOf;
    ImageImages(d, id, image, env, n);
    LongEnough(d, id, image, env);
    PublishEffects(d, id, image, manifest, config, env, n);
    EffectsConcat(d, a.ops, b.ops, n);
    TempIsThere(d, Paths.ImagePath(id), Paths.ImageTemp(env.hash(image)), image, n);
  }

  lemma TempRefuses(d: Disk, id: Bytes, image: Bytes, manifest: Bytes, config: Config, env: Env)
    requires Paths.ImageTemp(env.hash(image)) in d.files || Paths.ImagePath(id) in d.files
    ensures PublishPlan(d, id, image, manifest, config, env).ops == []
    ensures PublishPlan(d, id, image, manifest, config, env).error.Some?
  {
    hide PublishGuard, AppendPlan, ManifestWrites, Paths.ImagePath, Paths.ImageTemp, CaptureWrites;
    ImageRefused(d, id, image, manifest, config, env);
  }

  /** Once an interrupted publication has had any effect at all, publishing the
      same image under the same ID is refused and writes nothing, whatever
      manifest comes with it. */
  lemma InterruptedRetryIsRefused(d: Disk, id: Bytes, image: Bytes, manifest: Bytes, again: Bytes, config: Config,
                                  env: Env, n: nat)
    requires PublishGuard(d, id, image, manifest, config, env) == None && ImagePlan(d, id, image, env).error == None
    ensures var s := Effects(d, PublishPlan(d, id, image, manifest, config, env).ops, n);
            var retry := PublishPlan(s, id, image, again, config, env);
            if n == 0 then s == d else retry.ops == [] && retry.error.Some?
  {
    hide *;
    var s := Effects(d, PublishPlan(d, id, image, manifest, config, env).ops, n);
    if n == 0 {
      NothingYet(d, id, image, manifest, config, env);
    } else if n < AppearsAt(image) {
      LeftoverTemp(d, id, image, manifest, config, env, n);
      TempRefuses(s, id, image, again, config, env);
    } else {
      PublishImages(d, id, image, manifest, config, env, n);
      Appeared(d, s, id, image, n);
      TempRefuses(s, id, image, again, config, env);
    }
  }

  lemma Appeared(d: Disk, s: Disk, id: Bytes, image: Bytes, n: nat)
    requires n >= AppearsAt(image) && ImagesOf(s) == ImagesAfter(d, id, image, n)
    ensures Paths.ImagePath(id) in s.files
  {
    hide IsImageKey, Paths.ImagePath;
    assert Paths.ImagePath(id) in ImagesOf(s);
  }

  lemma NothingYet(d: Disk, id: Bytes, image: Bytes, manifest: Bytes, config: Config, env: Env)
    requires PublishGuard(d, id, image, manifest, config, env) == None && ImagePlan(d, id, image, env).error == None
    ensures Effects(d, PublishPlan(d, id, image, manifest, config, env).ops, 0) == d
  {
    LongEnough(d, id, image, env);
    PublishEffects(d, id, image, manifest, config, env, 0);
    hide PublishGuard, PublishPlan, AppendPlan, Paths.ImagePath, Paths.ImageTemp, RunAll;
    var a := ImagePlan(d, id, image, env);
    assert CaptureWrites(d, id, image, env).ops[0] == a.ops[0];
    assert !a.ops[0].Append?;
  }
}
