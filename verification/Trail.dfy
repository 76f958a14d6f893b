/** The audit trail: along every planned operation the journal's entries are
    only ever extended, torn tails and repairs included. */
module Trail {
  import opened Bytes
  import opened Files
  import opened JournalText
  import opened Journal
  import opened Plans
  import opened Quota
  import opened Integrity
  import Paths
  import Utf8

  /** While the later journal is within the recovery bound, so was the earlier
      one, and its entries come first. */
  predicate Extends(d: Disk, s: Disk, env: Env) {
    |JournalOf(s)| <= MAX_JOURNAL_BYTES ==>
      |JournalOf(d)| <= MAX_JOURNAL_BYTES && EntriesOf(d, env) <= EntriesOf(s, env)
  }

  ghost predicate OnlyExtends(d: Disk, ops: seq<FsOp>, env: Env) {
    forall n: nat, k: nat | n <= k :: Extends(Effects(d, ops, n), Effects(d, ops, k), env)
  }

  lemma ExtendsTwice(a: Disk, b: Disk, c: Disk, env: Env)
    requires Extends(a, b, env) && Extends(b, c, env)
    ensures Extends(a, c, env)
  {
    hide EntriesOf;
  }

  lemma SameJournal(d: Disk, s: Disk, env: Env)
    requires JournalOf(s) == JournalOf(d)
    ensures Extends(d, s, env) && Extends(s, d, env)
  {
    hide Recovered;
  }

  lemma SteadyJournal(d: Disk, ops: seq<FsOp>, env: Env)
    requires forall n: nat :: JournalOf(Effects(d, ops, n)) == JournalOf(d)
    ensures OnlyExtends(d, ops, env)
  {
    hide Effects, Extends, JournalOf;
    forall n: nat, k: nat | n <= k ensures Extends(Effects(d, ops, n), Effects(d, ops, k), env) {
      assert JournalOf(Effects(d, ops, n)) == JournalOf(d) == JournalOf(Effects(d, ops, k));
      SameJournal(Effects(d, ops, n), Effects(d, ops, k), env);
    }
  }

  lemma NoOps(d: Disk, env: Env)
    ensures OnlyExtends(d, [], env)
  {
    hide JournalOf;
    SteadyJournal(d, [], env);
  }

  lemma ExtendsInTurn(d: Disk, a: seq<FsOp>, b: seq<FsOp>, env: Env)
    requires OnlyExtends(d, a, env) && OnlyExtends(RunAll(d, a), b, env)
    ensures OnlyExtends(d, a + b, env)
  {
    hide Effects, Extends, RunAll, CostAll;
    var m, d1 := CostAll(a), RunAll(d, a);
    forall n: nat, k: nat | n <= k ensures Extends(Effects(d, a + b, n), Effects(d, a + b, k), env) {
      EffectsConcat(d, a, b, n);
      EffectsConcat(d, a, b, k);
      if n < m <= k {
        EffectsAll(d, a, m);
        ZeroEffects(d1, b);
        assert Extends(Effects(d, a, n), Effects(d, a, m), env);
        assert Extends(Effects(d1, b, 0), Effects(d1, b, k - m), env);
        ExtendsTwice(Effects(d, a, n), d1, Effects(d1, b, k - m), env);
      }
    }
  }

  // ----- An append -----

  lemma RepairExtends(d: Disk, env: Env)
    requires Paths.Journal() in d.files && Recovered(JournalOf(d), env.parseLine, env.hash).Ok?
    ensures OnlyExtends(d, [SetLength(Paths.Journal(), |Repaired(JournalOf(d))|)], env)
  {
    hide Paths.Journal, Recovered, Repaired, Effects;
    var base := Repaired(JournalOf(d));
    var ops := [SetLength(Paths.Journal(), |base|)];
    RepairedIsWhole(JournalOf(d), env.parseLine, env.hash);
    RecoveredFits(JournalOf(d), env);
    var s := Put(d, Paths.Journal(), base);
    assert JournalOf(s) == base;
    forall n: nat, k: nat | n <= k ensures Extends(Effects(d, ops, n), Effects(d, ops, k), env) {
      RepairStates(d, base, n);
      RepairStates(d, base, k);
      if n >= 1 {
        EffectsAll(d, ops, n);
      }
      if k >= 1 {
        EffectsAll(d, ops, k);
      }
    }
  }

  /** Octet by octet the line is nothing yet, then one entry. */
  lemma LineExtends(d: Disk, operation: Operation, path: Bytes, content: Bytes, env: Env)
    requires Paths.Journal() in d.files && Recovered(JournalOf(d), env.parseLine, env.hash).Ok?
    requires Repaired(JournalOf(d)) == JournalOf(d)
    requires ReadsBack(env.parseLine) && Paths.IsJournalPath(path) && Utf8.IsUtf8(path)
    ensures var line := JournalLine(EntriesOf(d, env), operation, path, content, env.hash);
            OnlyExtends(d, [Append(Paths.Journal(), line)], env)
  {
    hide Paths.Journal, Recovered, Repaired, Effects, JournalLine, EntryFor, Paths.IsJournalPath, Utf8.IsUtf8,
         ReadsBack;
    var line := JournalLine(EntriesOf(d, env), operation, path, content, env.hash);
    var ops := [Append(Paths.Journal(), line)];
    forall n: nat, k: nat | n <= k ensures Extends(Effects(d, ops, n), Effects(d, ops, k), env) {
      LineStates(d, Paths.Journal(), line, n);
      LineStates(d, Paths.Journal(), line, k);
      var p, q := Least(n, |line|), Least(k, |line|);
      if |JournalOf(d)| + q <= MAX_JOURNAL_BYTES {
        AppendIsAtomic(JournalOf(d), operation, path, content, p, env.parseLine, env.hash);
        AppendIsAtomic(JournalOf(d), operation, path, content, q, env.parseLine, env.hash);
      }
    }
  }

  lemma AppendExtends(d: Disk, operation: Operation, path: Bytes, content: Bytes, env: Env)
    requires ReadsBack(env.parseLine) && Utf8.IsUtf8(path)
    ensures OnlyExtends(d, AppendPlan(d, operation, path, content, env).ops, env)
  {
    hide Paths.Journal, Recovered, Repaired, JournalLine, Paths.IsJournalPath, Utf8.IsUtf8, ReadsBack, OnlyExtends;
    var plan := AppendPlan(d, operation, path, content, env);
    if plan.error.Some? {
      NoOps(d, env);
    } else if Recovered(JournalOf(d), env.parseLine, env.hash).value.ignoredTruncatedTail {
      var base := Repaired(JournalOf(d));
      var repair := [SetLength(Paths.Journal(), |base|)];
      var d1 := Put(d, Paths.Journal(), base);
      RepairExtends(d, env);
      RepairStates(d, base, 0);
      RepairedIsWhole(JournalOf(d), env.parseLine, env.hash);
      WholeJournal(d1, base, EntriesOf(d, env), env);
      LineExtends(d1, operation, path, content, env);
      hide AppendPlan, RunAll;
      ExtendsInTurn(d, repair,
                    [Append(Paths.Journal(), JournalLine(EntriesOf(d, env), operation, path, content, env.hash))], env);
    } else {
      NoTornTail(JournalOf(d), env);
      LineExtends(d, operation, path, content, env);
      assert plan.ops == [Append(Paths.Journal(), JournalLine(EntriesOf(d, env), operation, path, content, env.hash))];
    }
  }

  // ----- The plans -----

  lemma JournalApart(d: Disk, s: Disk, keys: set<Bytes>)
    requires Agrees(d, s, keys) && Paths.Journal() !in keys
    ensures JournalOf(s) == JournalOf(d)
  {
    hide Paths.Journal;
  }

  lemma ImageExtends(d: Disk, id: Bytes, image: Bytes, env: Env)
    requires IsId(id)
    ensures OnlyExtends(d, ImagePlan(d, id, image, env).ops, env)
  {
    var path, temp := Paths.ImagePath(id), Paths.ImageTemp(env.hash(image));
    KeysAreDistinct(id, env.hash(image), env.hash(image));
    hide Paths.ImagePath, Paths.ImageTemp, Paths.Journal, Effects, JournalOf, Agrees, OnlyExtends, WriteOps, IsImageKey;
    if ImagePlan(d, id, image, env).error.Some? {
      NoOps(d, env);
    } else {
      var ops := WriteOps(path, temp, image);
      forall n: nat ensures JournalOf(Effects(d, ops, n)) == JournalOf(d) {
        WriteStates(d, path, temp, image, n);
        JournalApart(d, Effects(d, ops, n), {temp, path});
      }
      SteadyJournal(d, ops, env);
    }
  }

  lemma CaptureExtends(d: Disk, id: Bytes, image: Bytes, env: Env)
    requires IsId(id) && ReadsBack(env.parseLine)
    ensures OnlyExtends(d, CaptureWrites(d, id, image, env).ops, env)
  {
    hide OnlyExtends, ImagePlan, AppendPlan, Paths.ImagePath, ReadsBack, Utf8.IsUtf8, RunAll, IsId;
    var a := ImagePlan(d, id, image, env);
    ImageExtends(d, id, image, env);
    if a.error.None? {
      ImagePathIsUtf8(id);
      AppendExtends(RunAll(d, a.ops), CapturePublished, Paths.ImagePath(id), image, env);
      ExtendsInTurn(d, a.ops, AppendPlan(RunAll(d, a.ops), CapturePublished, Paths.ImagePath(id), image, env).ops, env);
    }
  }

  lemma ReplacementExtends(d: Disk, manifest: Bytes, env: Env)
    ensures OnlyExtends(d, ManifestPlan(d, manifest, env).ops, env)
  {
    assert IsId([65]);
    KeysAreDistinct([65], env.hash(manifest), env.hash(manifest));
    hide Paths.ManifestTemp, Paths.Manifest, Paths.Journal, Effects, JournalOf, Agrees, OnlyExtends, ManifestPlan,
         IsImageKey;
    var ops := ManifestPlan(d, manifest, env).ops;
    forall n: nat ensures JournalOf(Effects(d, ops, n)) == JournalOf(d) {
      ManifestStates(d, manifest, env, n);
      JournalApart(d, Effects(d, ops, n), {Paths.ManifestTemp(env.hash(manifest)), Paths.Manifest()});
    }
    SteadyJournal(d, ops, env);
  }

  lemma ManifestExtends(d: Disk, manifest: Bytes, env: Env)
    requires ReadsBack(env.parseLine)
    ensures OnlyExtends(d, ManifestWrites(d, manifest, env).ops, env)
  {
    ManifestSegment(d, manifest, env);
    hide OnlyExtends, ManifestPlan, AppendPlan, Paths.Manifest, Paths.ManifestTemp, ReadsBack, Utf8.IsUtf8, RunAll,
         WithoutTemp;
    var a := ManifestPlan(d, manifest, env);
    ReplacementExtends(d, manifest, env);
    ManifestNameIsUtf8();
    AppendExtends(RunAll(d, a.ops), ManifestPublished, Paths.Manifest(), manifest, env);
    ExtendsInTurn(d, a.ops, AppendPlan(RunAll(d, a.ops), ManifestPublished, Paths.Manifest(), manifest, env).ops, env);
  }

  /** Along a publication the journal is only extended. */
  lemma PublishExtends(d: Disk, id: Bytes, image: Bytes, manifest: Bytes, config: Config, env: Env)
    requires ReadsBack(env.parseLine)
    ensures OnlyExtends(d, PublishPlan(d, id, image, manifest, config, env).ops, env)
  {
    hide OnlyExtends, CaptureWrites, ManifestWrites, ReadsBack, RunAll, PublishGuard;
    if PublishGuard(d, id, image, manifest, config, env).Some? {
      NoOps(d, env);
    } else {
      GuardedDisk(d, id, image, manifest, config, env);
      CaptureExtends(d, id, image, env);
      var a := CaptureWrites(d, id, image, env);
      if a.error.None? {
        ManifestExtends(RunAll(d, a.ops), manifest, env);
        ExtendsInTurn(d, a.ops, ManifestWrites(RunAll(d, a.ops), manifest, env).ops, env);
      }
    }
  }

  /** And along a revision. */
  lemma RevisionExtends(d: Disk, manifest: Bytes, config: Config, env: Env)
    requires ReadsBack(env.parseLine)
    ensures OnlyExtends(d, RevisionPlan(d, manifest, config, env).ops, env)
  {
    hide OnlyExtends, ManifestWrites, ReadsBack, ReplaceGuard;
    if ReplaceGuard(d, manifest, config, env).Some? {
      NoOps(d, env);
    } else {
      ManifestExtends(d, manifest, env);
    }
  }

  /** And along the creation of a session. */
  lemma SessionExtends(d: Disk, others: nat, config: Config, env: Env)
    requires ReadsBack(env.parseLine)
    ensures OnlyExtends(d, SessionPlan(d, others, config, env).ops, env)
  {
    hide OnlyExtends, AppendPlan, ReadsBack, RunAll, SessionGuard, MakeOps, Utf8.IsUtf8;
    if SessionGuard(d, others, config).Some? {
      NoOps(d, env);
    } else {
      MakingExtends(d, others, config, env);
      NothingToTell(d);
      AppendExtends(RunAll(d, MakeOps()), SessionCreated, [], [], env);
      ExtendsInTurn(d, MakeOps(), AppendPlan(RunAll(d, MakeOps()), SessionCreated, [], [], env).ops, env);
    }
  }

  lemma MakingExtends(d: Disk, others: nat, config: Config, env: Env)
    requires SessionGuard(d, others, config).None?
    ensures OnlyExtends(d, MakeOps(), env)
  {
    hide OnlyExtends, RunAll, MakeOps, Effects, CostAll, Paths.Journal;
    forall n: nat ensures JournalOf(Effects(d, MakeOps(), n)) == JournalOf(d) {
      MakeStates(d, n);
      if n >= 3 {
        EffectsAll(d, MakeOps(), n);
      }
    }
    SteadyJournal(d, MakeOps(), env);
  }
}
