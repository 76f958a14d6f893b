/** What each manifest that the daemon writes says: which parts come from the
    one before it, and which are new. */
module Contents {
  import opened Bytes
  import opened Files
  import opened Manifest
  import opened Integrity
  import opened Compare
  import opened Findings
  import opened Measures
  import opened Revision
  import opened Upkeep
  import opened Runtime
  import Paths

  // ----- Publishing -----

  predicate SameSession(base: Evidence, next: Evidence) {
    next.schemaVersion == base.schemaVersion && next.sessionId == base.sessionId && next.createdAt == base.createdAt
  }

  ghost predicate HasTwin(base: Evidence, sha256: Bytes) {
    exists i :: 0 <= i < |base.captures| && base.captures[i].image.sha256 == sha256
  }

  /** `capture-NN-` and the first twelve digits of the image's digest. */
  function NumberedId(n: nat, sha256: Digest): Bytes
    requires n <= 99
  {
    Ascii("capture-") + [48 + n / 10, 48 + n % 10] + Ascii("-") + sha256[..12]
  }

  /** The record of a capture brings its own circumstances. */
  predicate Describes(c: CaptureRecord, n: nat, draft: Draft) {
    && (n <= 99 ==> c.captureId == NumberedId(n, draft.image.sha256))
    && c.image.relativePath == Ascii("captures/") + c.captureId + Ascii(".png")
    && c.image.bytes == |draft.png| && c.image.sha256 == draft.image.sha256
    && c.captureType == draft.captureType && c.capturedAt == draft.capturedAt && c.stale == draft.stale
    && c.dimensions == draft.image.dimensions && c.scale == draft.scale && c.selection == draft.selection
    && c.toolVersions == draft.toolVersions && c.application == draft.application
  }

  /** The findings a publication adds: those of its image, with a duplicate
      exactly when an older capture has the same digest. */
  ghost predicate Examines(added: seq<Finding>, base: Evidence, id: Bytes, draft: Draft, hash: Hash) {
    exists low: nat, high: nat, twin: Option<Bytes> ::
      && (twin.Some? <==> HasTwin(base, draft.image.sha256))
      && Extremes(draft.image.pixels, PixelCount(draft.image.dimensions), low, high)
      && added == Conditions(ReviewInput(id, draft.image, draft.scale, draft.stale, twin, None),
                             Contrast(draft.image.pixels, PixelCount(draft.image.dimensions), low, high), hash)
  }

  /** `next` is `base` with one capture more: the older captures, findings, agent
      findings, comparison and pair stay, the note stays unless a new one comes. */
  ghost predicate Publishes(base: Evidence, draft: Draft, next: Evidence, hash: Hash) {
    var n := |base.captures|;
    && SameSession(base, next)
    && |next.captures| == n + 1 && base.captures <= next.captures && Describes(next.captures[n], n + 1, draft)
    && next.userNote == (if draft.note.Some? then draft.note else base.userNote)
    && base.findings <= next.findings
    && Examines(next.findings[|base.findings|..], base, next.captures[n].captureId, draft, hash)
    && next.agentFindings == base.agentFindings && next.comparison == base.comparison
    && next.beforeAfter == base.beforeAfter && next.provenance == draft.provenance
  }

  lemma {:induction false} TwinIsFound(captures: seq<CaptureRecord>, sha256: Bytes)
    ensures FirstTwin(captures, sha256).Some?
       <==> exists i :: 0 <= i < |captures| && captures[i].image.sha256 == sha256
    decreases captures
  {
    if captures != [] {
      TwinIsFound(captures[1..], sha256);
      if FirstTwin(captures[1..], sha256).Some? {
        var i :| 0 <= i < |captures| - 1 && captures[1..][i].image.sha256 == sha256;
        assert captures[i + 1].image.sha256 == sha256;
      }
      if exists i :: 0 < i < |captures| && captures[i].image.sha256 == sha256 {
        var i :| 0 < i < |captures| && captures[i].image.sha256 == sha256;
        assert captures[1..][i - 1].image.sha256 == sha256;
      }
    }
  }

  lemma IdIsNumbered(n: nat, sha256: Digest)
    requires n <= 99
    ensures CaptureId(n, sha256) == NumberedId(n, sha256)
  {
    TwoDigits(n);
    hide PaddedDecimal;
    var digits: Bytes := [48 + n / 10, 48 + n % 10];
    Assoc(Ascii("capture-"), digits, Ascii("-") + sha256[..12]);
    Assoc(Ascii("capture-") + digits, Ascii("-"), sha256[..12]);
  }

  lemma RecordDescribes(m: Evidence, draft: Draft)
    ensures Describes(RecordFor(m, draft), |m.captures| + 1, draft)
  {
    var n := |m.captures| + 1;
    Paths.ImagePathIs(NextId(m, draft));
    if n <= 99 {
      IdIsNumbered(n, draft.image.sha256);
    }
    hide CaptureId, NumberedId, Paths.ImagePath, Ascii;
  }

  lemma InputExamines(base: Evidence, draft: Draft, hash: Hash)
    requires ValidInput(PublishInput(base, draft))
    ensures Examines(Found(PublishInput(base, draft), hash), base, NextId(base, draft), draft, hash)
  {
    var input := PublishInput(base, draft);
    TwinIsFound(base.captures, draft.image.sha256);
    hide ValidInput, Found, Conditions, Extremes, Contrast, NextId, FirstTwin, PixelCount;
    var low, high := FoundByConditions(input, hash);
  }

  /** A publication is built exactly when the limit on captures leaves room, the
      image can be reviewed and the findings are at most 256; it then says this. */
  lemma PublishedSays(base: Evidence, draft: Draft, maxCaptures: nat, hash: Hash)
    ensures Published(base, draft, maxCaptures, hash).Ok?
       <==> && |base.captures| < maxCaptures && ValidInput(PublishInput(base, draft))
            && |base.findings| + |Found(PublishInput(base, draft), hash)| <= 256
    ensures Published(base, draft, maxCaptures, hash).Ok? ==>
              Publishes(base, draft, Published(base, draft, maxCaptures, hash).value, hash)
  {
    hide Found, Examines, Describes, RecordFor, NextId;
    if Published(base, draft, maxCaptures, hash).Ok? {
      var next := Published(base, draft, maxCaptures, hash).value;
      RecordDescribes(base, draft);
      InputExamines(base, draft, hash);
      assert next.findings[|base.findings|..] == Found(PublishInput(base, draft), hash);
      RecordIsNamed(base, draft);
    }
  }

  lemma RecordIsNamed(base: Evidence, draft: Draft)
    ensures RecordFor(base, draft).captureId == NextId(base, draft)
  {
    hide NextId;
  }

  // ----- Review -----

  /** The capture `id` names, the first if there are several; `latest` is the
      last of the list. */
  ghost predicate IsRequested(base: Evidence, id: Bytes, c: CaptureRecord) {
    var n := |base.captures|;
    var wanted := if id == Ascii("latest") && n > 0 then base.captures[n - 1].captureId else id;
    IsNamed(base, wanted, c)
  }

  ghost predicate IsNamed(base: Evidence, id: Bytes, c: CaptureRecord) {
    exists k :: 0 <= k < |base.captures| && base.captures[k] == c && c.captureId == id
      && forall j | 0 <= j < k :: base.captures[j].captureId != id
  }

  /** The image of that capture, decoded from octets on disk that match the
      record the manifest on disk has of it. */
  ghost predicate IsEvidence(setup: Setup, d: Disk, id: Bytes, image: Image) {
    exists c ::
      && ManifestOf(d, setup.env).Some? && IsNamed(ManifestOf(d, setup.env).value, id, c)
      && c.image.relativePath in d.files
      && |d.files[c.image.relativePath]| == c.image.bytes
      && setup.env.hash(d.files[c.image.relativePath]) == c.image.sha256
      && setup.decode(d.files[c.image.relativePath]) == Some(image)
  }

  lemma {:induction false} NamedIsFirst(captures: seq<CaptureRecord>, id: Bytes)
    requires Has(captures, id)
    ensures exists k :: 0 <= k < |captures| && captures[k] == Lookup(captures, id).value
              && forall j | 0 <= j < k :: captures[j].captureId != id
    decreases captures
  {
    if captures[0].captureId != id {
      NamedIsFirst(captures[1..], id);
      var k :| 0 <= k < |captures| - 1 && captures[1..][k] == Lookup(captures[1..], id).value
        && forall j | 0 <= j < k :: captures[1..][j].captureId != id;
      forall j | 0 <= j < k + 1 ensures captures[j].captureId != id {
        if j > 0 {
          assert captures[j] == captures[1..][j - 1];
        }
      }
      assert captures[k + 1] == Lookup(captures, id).value;
    }
  }

  lemma InputIsEvidence(setup: Setup, d: Disk, base: Evidence, id: Bytes)
    requires InputFor(setup, d, base, id).Some?
    ensures var input := InputFor(setup, d, base, id).value;
            IsNamed(base, id, input.0) && IsEvidence(setup, d, id, input.1)
  {
    NamedIsFirst(base.captures, id);
    var m := ManifestOf(d, setup.env);
    assert m.Some? && Has(m.value.captures, id) by {
      hide FromJson, Lookup, IsId;
    }
    NamedIsFirst(m.value.captures, id);
    hide FromJson, Lookup, IsId;
    var c := Lookup(m.value.captures, id).value;
    assert IsNamed(m.value, id, c);
  }

  /** The findings that cite nothing of a capture, in order. */
  function Others(findings: seq<Finding>, id: Bytes): seq<Finding> {
    if findings == [] then []
    else
      var n := |findings| - 1;
      Others(findings[..n], id)
      + if forall i | 0 <= i < |findings[n].evidence| :: findings[n].evidence[i].captureId != id
        then [findings[n]] else []
  }

  function AgentOthers(findings: seq<AgentFinding>, id: Bytes): seq<AgentFinding> {
    if findings == [] then []
    else
      var n := |findings| - 1;
      AgentOthers(findings[..n], id)
      + if forall i | 0 <= i < |findings[n].evidence| :: findings[n].evidence[i].captureId != id
        then [findings[n]] else []
  }

  lemma {:induction false} KeptAreOthers(findings: seq<Finding>, id: Bytes)
    ensures Keep(findings, NotAbout(id)) == Others(findings, id)
    decreases |findings|
  {
    if findings != [] {
      var n := |findings| - 1;
      KeptAreOthers(findings[..n], id);
      assert findings == findings[..n] + [findings[n]] && [findings[n]][1..] == [];
      KeepConcat(findings[..n], [findings[n]], NotAbout(id));
    }
  }

  lemma {:induction false} KeptAgentsAreOthers(findings: seq<AgentFinding>, id: Bytes)
    ensures Keep(findings, AgentNotAbout(id)) == AgentOthers(findings, id)
    decreases |findings|
  {
    if findings != [] {
      var n := |findings| - 1;
      KeptAgentsAreOthers(findings[..n], id);
      assert findings == findings[..n] + [findings[n]] && [findings[n]][1..] == [];
      KeepConcat(findings[..n], [findings[n]], AgentNotAbout(id));
    }
  }

  /** The findings of a reviewed image: no duplicate is named, and the recorded
      dimensions are expected. */
  ghost predicate Reexamines(added: seq<Finding>, c: CaptureRecord, image: Image, hash: Hash) {
    exists low: nat, high: nat ::
      && Extremes(image.pixels, PixelCount(image.dimensions), low, high)
      && added == Conditions(ReviewInput(c.captureId, image, c.scale, c.stale, None, Some(c.dimensions)),
                             Contrast(image.pixels, PixelCount(image.dimensions), low, high), hash)
  }

  /** `next` is `base` with the findings about `c` replaced; the agent's part and
      the provenance change only when an agent answers; all else stays. */
  ghost predicate Reviews(base: Evidence, c: CaptureRecord, image: Image, agent: Option<AgentResult>, next: Evidence,
                          hash: Hash)
  {
    var kept := Others(base.findings, c.captureId);
    && SameSession(base, next) && next.captures == base.captures && next.userNote == base.userNote
    && next.comparison == base.comparison && next.beforeAfter == base.beforeAfter
    && kept <= next.findings && Reexamines(next.findings[|kept|..], c, image, hash)
    && next.agentFindings == AgentOthers(base.agentFindings, c.captureId)
                             + (if agent.Some? then agent.value.findings else [])
    && next.provenance == if agent.Some? then agent.value.provenance else base.provenance
  }

  lemma ReviewReexamines(c: CaptureRecord, image: Image, hash: Hash)
    requires ValidInput(ReviewOf(c, image))
    ensures Reexamines(Found(ReviewOf(c, image), hash), c, image, hash)
  {
    var input := ReviewOf(c, image);
    hide Found, Conditions, Extremes, Contrast, PixelCount, ValidInput;
    var low, high := FoundByConditions(input, hash);
  }

  lemma ReviewedFindings(base: Evidence, c: CaptureRecord, image: Image, agent: Option<AgentResult>, hash: Hash)
    requires Reviewed(base, c, image, agent, hash).Ok?
    ensures ValidInput(ReviewOf(c, image))
    ensures Reviewed(base, c, image, agent, hash).value.findings
         == Others(base.findings, c.captureId) + Found(ReviewOf(c, image), hash)
  {
    KeptAreOthers(base.findings, c.captureId);
    hide Found, Keep, NotAbout, AgentNotAbout, Others;
  }

  lemma ReviewedSays(base: Evidence, c: CaptureRecord, image: Image, agent: Option<AgentResult>, hash: Hash)
    requires Reviewed(base, c, image, agent, hash).Ok?
    ensures Reviews(base, c, image, agent, Reviewed(base, c, image, agent, hash).value, hash)
  {
    var next := Reviewed(base, c, image, agent, hash).value;
    KeptAgentsAreOthers(base.agentFindings, c.captureId);
    ReviewedFindings(base, c, image, agent, hash);
    ReviewReexamines(c, image, hash);
    assert SameSession(base, next) && next.captures == base.captures && next.userNote == base.userNote;
    assert next.comparison == base.comparison && next.beforeAfter == base.beforeAfter;
    hide Found, Keep, NotAbout, AgentNotAbout, Others, AgentOthers, ValidInput, Reexamines;
    var kept := Others(base.findings, c.captureId);
    assert next.findings[|kept|..] == Found(ReviewOf(c, image), hash);
  }

  // ----- Every revision -----

  /** A review, a selection or a note, as read from the manifests before and
      after it and the images on disk. */
  ghost predicate Revises(setup: Setup, d: Disk, base: Evidence, change: Change, next: Evidence) {
    match change
    case Review(id, agent) =>
      exists c, image ::
        && IsRequested(base, id, c) && IsEvidence(setup, d, c.captureId, image)
        && Reviews(base, c, image, agent, next, setup.env.hash)
    case Select(before, after) =>
      exists b, x, a, y, r ::
        && IsNamed(base, before, b) && IsEvidence(setup, d, before, x)
        && IsNamed(base, after, a) && IsEvidence(setup, d, after, y)
        && Measures.Measures(r, ReviewOf(b, x), ReviewOf(a, y), setup.env.hash)
        && next == base.(comparison := Some(r), beforeAfter := Some(BeforeAfter(before, after, r.comparisonId)))
    case Annotate(note) => next == base.(userNote := Some(note))
  }

  lemma SelectionSays(setup: Setup, d: Disk, base: Evidence, before: Bytes, after: Bytes)
    requires Revised(setup, d, base, Select(before, after)).Some?
    ensures Revises(setup, d, base, Select(before, after), Revised(setup, d, base, Select(before, after)).value)
  {
    InputIsEvidence(setup, d, base, before);
    InputIsEvidence(setup, d, base, after);
    hide InputFor, Compared, IsNamed, IsEvidence, Measures.Measures;
    var b, a := InputFor(setup, d, base, before).value, InputFor(setup, d, base, after).value;
    ComparedMeasures(ReviewOf(b.0, b.1), ReviewOf(a.0, a.1), setup.env.hash);
  }

  lemma RevisedSays(setup: Setup, d: Disk, base: Evidence, change: Change)
    requires Revised(setup, d, base, change).Some?
    ensures Revises(setup, d, base, change, Revised(setup, d, base, change).value)
  {
    match change
    case Review(id, agent) =>
      InputIsEvidence(setup, d, base, Requested(base, id));
      hide InputFor, Reviewed, Reviews, IsNamed, IsEvidence;
      var input := InputFor(setup, d, base, Requested(base, id)).value;
      ReviewedSays(base, input.0, input.1, agent, setup.env.hash);
    case Select(before, after) => SelectionSays(setup, d, base, before, after);
    case Annotate(note) =>
  }
}
