/** What a completed operation leaves: every file of the session, and what the
    journal says was done. */
module Outcomes {
  import opened Bytes
  import opened Files
  import opened JournalText
  import opened Journal
  import opened Plans
  import opened Quota
  import opened Integrity
  import Admission
  import Paths
  import Utf8

  /** An entry of the journal but for its chaining digest. */
  predicate Notes(e: Entry, sequence: nat, operation: Operation, path: Bytes, content: Bytes, env: Env) {
    && e.sequence == sequence && e.operation == operation && e.relativePath == path
    && e.contentSha256 == env.hash(content)
  }

  /** `s` is `d` with these files written, those gone and the journal longer. */
  ghost predicate Writes(d: Disk, s: Disk, written: map<Bytes, Bytes>, gone: set<Bytes>) {
    forall p: Bytes | p != Ascii("journal.jsonl") ::
      if p in written then p in s.files && s.files[p] == written[p]
      else if p in gone then p !in s.files
      else (p in s.files <==> p in d.files) && (p in d.files ==> s.files[p] == d.files[p])
  }

  lemma NewEntry(bytes: Bytes, operation: Operation, path: Bytes, content: Bytes, env: Env)
    requires Recovered(bytes, env.parseLine, env.hash).Ok?
    ensures var entries := Recovered(bytes, env.parseLine, env.hash).value.entries;
            Notes(EntryFor(entries, operation, path, content, env.hash), |entries| + 1, operation, path, content, env)
  {
    RecoveredIsSmall(bytes, env.parseLine, env.hash);
    hide Recovered, PrintBody, Head;
  }

  /** Appending to a journal that is whole. */
  lemma WholeAppend(bytes: Bytes, entries: seq<Entry>, operation: Operation, path: Bytes, content: Bytes, env: Env)
    requires Recovered(bytes, env.parseLine, env.hash) == Ok(Recovery(entries, false)) && ReadsBack(env.parseLine)
    requires Paths.IsJournalPath(path) && Utf8.IsUtf8(path)
    requires |bytes + JournalLine(entries, operation, path, content, env.hash)| <= 67_108_864
    ensures Recovered(bytes + JournalLine(entries, operation, path, content, env.hash), env.parseLine, env.hash)
         == Ok(Recovery(entries + [EntryFor(entries, operation, path, content, env.hash)], false))
    ensures Notes(EntryFor(entries, operation, path, content, env.hash), |entries| + 1, operation, path, content, env)
  {
    assert MAX_JOURNAL_BYTES == 67_108_864;
    NoTornTail(bytes, env);
    NewEntry(bytes, operation, path, content, env);
    hide Recovered, JournalLine, EntryFor, Paths.IsJournalPath, Utf8.IsUtf8, Repaired, ReadsBack, Notes;
    AppendRepairs(bytes, operation, path, content, env.parseLine, env.hash);
  }

  // ----- Publishing -----

  lemma FourPaths(d: Disk, image: Bytes, x: Bytes, manifest: Bytes, y: Bytes, temp: Bytes, first: Bytes, last: Bytes)
    requires var j := Ascii("journal.jsonl");
             image != manifest && image != temp && image != j && manifest != temp && manifest != j && temp != j
    ensures var j := Ascii("journal.jsonl");
            var s := Put(Put(WithoutTemp(Put(Put(d, image, x), j, first), temp), manifest, y), j, last);
            && s.session == d.session && s.captures == d.captures && j in s.files && s.files[j] == last
            && Writes(d, s, map[image := x, manifest := y], {temp})
  {
    hide Ascii;
  }

  lemma PublicationFiles(d: Disk, id: Bytes, image: Bytes, manifest: Bytes, env: Env, journal: Bytes)
    requires IsId(id)
    ensures var s := Put(ManifestWritten(CaptureWritten(d, id, image, env), manifest, env), Paths.Journal(), journal);
            && s.session == d.session && s.captures == d.captures
            && Writes(d, s, map[Ascii("captures/") + id + Ascii(".png") := image, Ascii("manifest.json") := manifest],
                      {Ascii(".tmp-manifest-") + env.hash(manifest)})
            && JournalOf(s) == journal
  {
    Paths.ImagePathIs(id);
    Names(env.hash(manifest));
    KeysAreDistinct(id, env.hash(manifest), env.hash(manifest));
    hide Paths.ImagePath, Paths.Manifest, Paths.Journal, Paths.ManifestTemp, AfterCapture, IsImageKey, Ascii,
         Paths.ImageTemp, Writes;
    FourPaths(d, Paths.ImagePath(id), image, Paths.Manifest(), manifest, Paths.ManifestTemp(env.hash(manifest)),
              AfterCapture(d, id, image, env), journal);
  }

  lemma Names(digest: Digest)
    ensures Paths.Manifest() == Ascii("manifest.json") && Paths.Journal() == Ascii("journal.jsonl")
    ensures Paths.ManifestTemp(digest) == Ascii(".tmp-manifest-") + digest
  {
  }

  /** A completed publication has written the image and the manifest, removed a
      manifest's leftover, touched nothing else, and, while the journal is within
      its bound, noted exactly the two writes. */
  lemma PublicationLeaves(d: Disk, id: Bytes, image: Bytes, manifest: Bytes, config: Config, env: Env)
    requires ReadsBack(env.parseLine) && PublishPlan(d, id, image, manifest, config, env).error == None
    ensures var s := RunAll(d, PublishPlan(d, id, image, manifest, config, env).ops);
            && s.session == d.session && s.captures == d.captures
            && Writes(d, s, map[Ascii("captures/") + id + Ascii(".png") := image, Ascii("manifest.json") := manifest],
                      {Ascii(".tmp-manifest-") + env.hash(manifest)})
            && (|JournalOf(s)| <= 67_108_864 ==>
                  var before, after := EntriesOf(d, env), EntriesOf(s, env);
                  && |after| == |before| + 2 && before <= after
                  && Notes(after[|before|], |before| + 1, CapturePublished, Ascii("captures/") + id + Ascii(".png"),
                           image, env)
                  && Notes(after[|before| + 1], |before| + 2, ManifestPublished, Ascii("manifest.json"), manifest, env))
  {
    PublicationSucceeds(d, id, image, manifest, config, env);
    GuardedDisk(d, id, image, manifest, config, env);
    Fresh(d, id, image, manifest, config, env);
    PredictedLinesAreAppended(d, id, image, manifest, config, env);
    var entries := EntriesOf(d, env);
    var journal := AfterCapture(d, id, image, env) + ManifestLine(WithCapture(entries, id, image, env), manifest, env);
    PublicationFiles(d, id, image, manifest, env, journal);
    hide PublishPlan, PublishGuard, Writes, Notes, RunAll, AfterCapture, ManifestLine, WithCapture, Recovered,
         EntriesOf, CaptureWritten, ManifestWritten, Paths.ImageTemp, Ascii, Put, IsId;
    var s := RunAll(d, PublishPlan(d, id, image, manifest, config, env).ops);
    if |JournalOf(s)| <= 67_108_864 {
      PublicationEntries(d, id, image, manifest, config, env);
    }
  }

  lemma Fresh(d: Disk, id: Bytes, image: Bytes, manifest: Bytes, config: Config, env: Env)
    requires PublishPlan(d, id, image, manifest, config, env).error == None
    ensures ImagePlan(d, id, image, env).error == None
  {
    hide PublishGuard, AppendPlan, ManifestWrites, ImagePlan;
    if ImagePlan(d, id, image, env).error.Some? {
      ImageRefused(d, id, image, manifest, config, env);
    }
  }

  lemma PublicationEntries(d: Disk, id: Bytes, image: Bytes, manifest: Bytes, config: Config, env: Env)
    requires PublishGuard(d, id, image, manifest, config, env) == None && ReadsBack(env.parseLine)
    requires var journal := AfterCapture(d, id, image, env)
                            + ManifestLine(WithCapture(EntriesOf(d, env), id, image, env), manifest, env);
             |journal| <= 67_108_864
    ensures var before := EntriesOf(d, env);
            var journal := AfterCapture(d, id, image, env)
                           + ManifestLine(WithCapture(before, id, image, env), manifest, env);
            var r := Recovered(journal, env.parseLine, env.hash);
            && r.Ok? && |r.value.entries| == |before| + 2 && before <= r.value.entries
            && Notes(r.value.entries[|before|], |before| + 1, CapturePublished,
                     Ascii("captures/") + id + Ascii(".png"), image, env)
            && Notes(r.value.entries[|before| + 1], |before| + 2, ManifestPublished, Ascii("manifest.json"), manifest,
                     env)
  {
    assert MAX_JOURNAL_BYTES == 67_108_864;
    GuardedDisk(d, id, image, manifest, config, env);
    EntriesAfterCapture(d, id, image, manifest, config, env);
    NewEntry(JournalOf(d), CapturePublished, Paths.ImagePath(id), image, env);
    Paths.ImagePathIs(id);
    Paths.ManifestIsObjectPath();
    ManifestNameIsUtf8();
    assert Paths.Manifest() == Ascii("manifest.json");
    hide PublishGuard, Notes, AfterCapture, JournalLine, Recovered, CaptureWritten, Paths.ImagePath, Ascii, EntryFor,
         Paths.IsObjectPath, Utf8.IsUtf8, ReadsBack, Paths.Manifest, IsId;
    WholeAppend(AfterCapture(d, id, image, env), WithCapture(EntriesOf(d, env), id, image, env), ManifestPublished,
                Paths.Manifest(), manifest, env);
  }

  // ----- Replacing -----

  lemma RevisionFiles(d: Disk, manifest: Bytes, env: Env, journal: Bytes)
    ensures var s := Put(ManifestWritten(d, manifest, env), Paths.Journal(), journal);
            && s.session == d.session && s.captures == d.captures && JournalOf(s) == journal
            && Writes(d, s, map[Ascii("manifest.json") := manifest], {Ascii(".tmp-manifest-") + env.hash(manifest)})
  {
    assert IsId([65]);
    KeysAreDistinct([65], env.hash(manifest), env.hash(manifest));
    assert Paths.Manifest() == Ascii("manifest.json") && Paths.Journal() == Ascii("journal.jsonl");
    assert Paths.ManifestTemp(env.hash(manifest)) == Ascii(".tmp-manifest-") + env.hash(manifest);
    hide Paths.ImagePath, Paths.Manifest, Paths.Journal, Paths.ManifestTemp, IsImageKey, Ascii, Paths.ImageTemp;
  }

  /** A completed revision has replaced the manifest, removed a manifest's
      leftover, touched nothing else, and noted it. */
  lemma RevisionLeaves(d: Disk, manifest: Bytes, config: Config, env: Env)
    requires ReadsBack(env.parseLine) && RevisionPlan(d, manifest, config, env).error == None
    ensures var s := RunAll(d, RevisionPlan(d, manifest, config, env).ops);
            && s.session == d.session && s.captures == d.captures
            && Writes(d, s, map[Ascii("manifest.json") := manifest], {Ascii(".tmp-manifest-") + env.hash(manifest)})
            && (|JournalOf(s)| <= 67_108_864 ==>
                  var before, after := EntriesOf(d, env), EntriesOf(s, env);
                  && |after| == |before| + 1 && before <= after
                  && Notes(after[|before|], |before| + 1, ManifestPublished, Ascii("manifest.json"), manifest, env))
  {
    Admission.RevisionSucceeds(d, manifest, config, env);
    Admission.RevisionOpens(d, manifest, config, env);
    RevisionSegment(d, manifest, env);
    var journal := Repaired(JournalOf(d)) + ManifestLine(EntriesOf(d, env), manifest, env);
    RevisionFiles(d, manifest, env, journal);
    assert RevisionPlan(d, manifest, config, env) == ManifestWrites(d, manifest, env);
    hide RevisionPlan, ReplaceGuard, ManifestWrites, Writes, Notes, RunAll, ManifestLine, Recovered, ManifestWritten,
         Repaired, Ascii, Put;
    if |journal| <= 67_108_864 {
      RevisionEntries(JournalOf(d), manifest, env);
    }
  }

  lemma RevisionEntries(bytes: Bytes, manifest: Bytes, env: Env)
    requires Recovered(bytes, env.parseLine, env.hash).Ok? && ReadsBack(env.parseLine)
    requires var before := Recovered(bytes, env.parseLine, env.hash).value.entries;
             |Repaired(bytes) + ManifestLine(before, manifest, env)| <= 67_108_864
    ensures var before := Recovered(bytes, env.parseLine, env.hash).value.entries;
            var r := Recovered(Repaired(bytes) + ManifestLine(before, manifest, env), env.parseLine, env.hash);
            && r.Ok? && |r.value.entries| == |before| + 1 && before <= r.value.entries
            && Notes(r.value.entries[|before|], |before| + 1, ManifestPublished, Ascii("manifest.json"), manifest, env)
  {
    RepairedIsWhole(bytes, env.parseLine, env.hash);
    Paths.ManifestIsObjectPath();
    ManifestNameIsUtf8();
    assert Paths.Manifest() == Ascii("manifest.json");
    hide Notes, JournalLine, Recovered, Repaired, Ascii, EntryFor, Paths.IsObjectPath, Utf8.IsUtf8, ReadsBack,
         Paths.Manifest;
    WholeAppend(Repaired(bytes), Recovered(bytes, env.parseLine, env.hash).value.entries, ManifestPublished,
                Paths.Manifest(), manifest, env);
  }

  // ----- A new session -----

  /** A session is created exactly when it is new, the limit leaves room and no
      journal is in the way; it then holds its journal, with one entry. */
  lemma SessionLeaves(d: Disk, others: nat, config: Config, env: Env)
    requires ReadsBack(env.parseLine)
    ensures SessionPlan(d, others, config, env).error == None
       <==> !d.session && others < config.maxSessions && Ascii("journal.jsonl") !in d.files
    ensures SessionPlan(d, others, config, env).error == None ==>
              var s := RunAll(d, SessionPlan(d, others, config, env).ops);
              && s.session && s.captures && Writes(d, s, map[], {})
              && |EntriesOf(s, env)| == 1 && Notes(EntriesOf(s, env)[0], 1, SessionCreated, [], [], env)
  {
    assert Paths.Journal() == Ascii("journal.jsonl");
    hide Notes, Writes, Recovered, AppendPlan, RunAll, MakeOps, EntriesOf, Ascii, Paths.Journal;
    MakeStates(d, 0);
    MadeSession(d, env);
    if SessionGuard(d, others, config).None? {
      RunConcat(d, MakeOps(), AppendPlan(SessionMade(d), SessionCreated, [], [], env).ops);
    }
  }

  lemma FirstEntry(env: Env)
    requires ReadsBack(env.parseLine)
    ensures var r := Recovered(JournalLine([], SessionCreated, [], [], env.hash), env.parseLine, env.hash);
            r.Ok? && |r.value.entries| == 1 && Notes(r.value.entries[0], 1, SessionCreated, [], [], env)
  {
    EmptyJournal(env.parseLine, env.hash);
    FirstLineLength(env);
    Utf8.AsciiIsUtf8([]);
    assert Paths.IsJournalPath([]);
    hide Recovered, JournalLine, Utf8.IsUtf8, ReadsBack, Notes, EntryFor, Paths.IsJournalPath, Repaired;
    WholeAppend([], [], SessionCreated, [], [], env);
    assert [] + JournalLine([], SessionCreated, [], [], env.hash) == JournalLine([], SessionCreated, [], [], env.hash);
  }

  lemma MadeRuns(d: Disk, env: Env)
    ensures var plan := AppendPlan(SessionMade(d), SessionCreated, [], [], env);
            var line := JournalLine([], SessionCreated, [], [], env.hash);
            plan.error == None && RunAll(SessionMade(d), plan.ops) == Put(SessionMade(d), Paths.Journal(), line)
  {
    var d1 := SessionMade(d);
    EmptyJournal(env.parseLine, env.hash);
    hide Recovered, Repaired, JournalLine, Paths.Journal, RunAll, AppendPlan;
    assert JournalOf(d1) == [] && Paths.Journal() in d1.files;
    AppendPlanned(d1, SessionCreated, [], [], env);
    AppendRuns(d1, SessionCreated, [], [], env);
    var line := JournalLine([], SessionCreated, [], [], env.hash);
    assert [] + line == line;
  }

  lemma MadeFiles(d: Disk, line: Bytes)
    ensures var s := Put(SessionMade(d), Paths.Journal(), line);
            s.session && s.captures && Writes(d, s, map[], {}) && JournalOf(s) == line
  {
    Names(Repeat(48, 64));
    hide Paths.Journal, Ascii;
  }

  lemma MadeSession(d: Disk, env: Env)
    requires ReadsBack(env.parseLine)
    ensures var plan := AppendPlan(SessionMade(d), SessionCreated, [], [], env);
            var s := RunAll(SessionMade(d), plan.ops);
            && plan.error == None && s.session && s.captures && Writes(d, s, map[], {})
            && |EntriesOf(s, env)| == 1 && Notes(EntriesOf(s, env)[0], 1, SessionCreated, [], [], env)
  {
    hide Recovered, JournalLine, ReadsBack, Paths.Journal, RunAll, Notes, AppendPlan, JournalOf, SessionMade, Writes,
         Put;
    FirstEntry(env);
    MadeRuns(d, env);
    MadeFiles(d, JournalLine([], SessionCreated, [], [], env.hash));
  }
}
