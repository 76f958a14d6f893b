/** How the service builds the next manifest: publish, review, select, annotate.
    Each hands its result to `validate` before anything is written. */
module Revision {
  import opened Bytes
  import opened Errors
  import opened Manifest
  import opened Compare
  import opened Findings
  import Metrics
  import JournalText
  import Paths

  // ----- Lists -----

  function Keep<T>(xs: seq<T>, f: T -> bool): (r: seq<T>)
    ensures |r| <= |xs|
    ensures forall x | x in r :: x in xs && f(x)
  {
    if xs == [] then [] else (if f(xs[0]) then [xs[0]] else []) + Keep(xs[1..], f)
  }

  method Retain<T>(xs: seq<T>, f: T -> bool) returns (r: seq<T>)
    ensures r == Keep(xs, f)
  {
    r := [];
    assert xs[0..] == xs;
    for i := 0 to |xs|
      invariant r + Keep(xs[i..], f) == Keep(xs, f)
    {
      assert xs[i..][1..] == xs[i + 1..];
      if f(xs[i]) {
        assert r + ([xs[i]] + Keep(xs[i + 1..], f)) == (r + [xs[i]]) + Keep(xs[i + 1..], f);
        r := r + [xs[i]];
      }
    }
  }

  lemma {:induction false} KeepConcat<T>(a: seq<T>, b: seq<T>, f: T -> bool)
    ensures Keep(a + b, f) == Keep(a, f) + Keep(b, f)
    decreases a
  {
    if a == [] {
      assert a + b == b;
    } else {
      assert (a + b)[0] == a[0] && (a + b)[1..] == a[1..] + b;
      KeepConcat(a[1..], b, f);
    }
  }

  lemma {:induction false} KeepAll<T>(xs: seq<T>, f: T -> bool)
    requires forall x | x in xs :: f(x)
    ensures Keep(xs, f) == xs
    decreases xs
  {
    if xs != [] {
      KeepAll(xs[1..], f);
    }
  }

  lemma {:induction false} KeepNone<T>(xs: seq<T>, f: T -> bool)
    requires forall x | x in xs :: !f(x)
    ensures Keep(xs, f) == []
    decreases xs
  {
    if xs != [] {
      KeepNone(xs[1..], f);
    }
  }

  lemma {:induction false} KeepFewer<T>(xs: seq<T>, f: T -> bool, g: T -> bool)
    ensures |Keep(Keep(xs, f), g)| <= |Keep(xs, g)|
    decreases xs
  {
    if xs != [] {
      KeepFewer(xs[1..], f, g);
      var rest := Keep(xs[1..], f);
      if f(xs[0]) {
        assert Keep(xs, f) == [xs[0]] + rest;
        KeepConcat([xs[0]], rest, g);
        assert [xs[0]][1..] == [];
      } else {
        assert Keep(xs, f) == rest;
      }
    }
  }

  lemma {:induction false} KeepSplits<T>(xs: seq<T>, f: T -> bool, g: T -> bool)
    requires forall x | x in xs :: f(x) <==> !g(x)
    ensures |xs| == |Keep(xs, f)| + |Keep(xs, g)|
    decreases xs
  {
    if xs != [] {
      KeepSplits(xs[1..], f, g);
    }
  }

  // ----- Building -----

  /** What one capture brings: the PNG, its decoding and its circumstances. */
  datatype Draft = Draft(
    captureType: CaptureType, capturedAt: nat, stale: bool, png: Bytes, image: Image, scale: Scale,
    selection: Option<Region>, toolVersions: seq<ToolVersion>, application: Option<Bytes>, note: Option<Bytes>,
    provenance: Provenance)

  function PaddedDecimal(n: nat): Bytes {
    if n < 10 then [48, 48 + n] else JournalText.Decimal(n)
  }

  /** `capture-{:02}-{first twelve digits}`. */
  function CaptureId(n: nat, sha256: Digest): Bytes {
    Ascii("capture-") + (PaddedDecimal(n) + (Ascii("-") + sha256[..12]))
  }

  function NextId(m: Evidence, draft: Draft): Bytes {
    CaptureId(|m.captures| + 1, draft.image.sha256)
  }

  function RecordFor(m: Evidence, draft: Draft): CaptureRecord {
    var id := NextId(m, draft);
    CaptureRecord(id, draft.captureType, draft.capturedAt, draft.stale,
                  ImageEvidence(Paths.ImagePath(id), |draft.png|, draft.image.sha256),
                  draft.image.dimensions, draft.scale, draft.selection, draft.toolVersions, draft.application)
  }

  /** The first capture with the same content. */
  function FirstTwin(captures: seq<CaptureRecord>, sha256: Bytes): Option<Bytes> {
    if captures == [] then None
    else if captures[0].image.sha256 == sha256 then Some(captures[0].captureId)
    else FirstTwin(captures[1..], sha256)
  }

  function PublishInput(m: Evidence, draft: Draft): ReviewInput {
    ReviewInput(NextId(m, draft), draft.image, draft.scale, draft.stale,
                FirstTwin(m.captures, draft.image.sha256), None)
  }

  function Published(m: Evidence, draft: Draft, maxCaptures: nat, hash: Hash): Result<Evidence, StoreError> {
    if |m.captures| >= maxCaptures then Err(Quota)
    else
      var input := PublishInput(m, draft);
      if !ValidInput(input) then Err(ManifestInvalid)
      else
        var findings := m.findings + Found(input, hash);
        if |findings| > MAX_FINDINGS then Err(Quota)
        else Ok(m.(captures := m.captures + [RecordFor(m, draft)],
                   userNote := if draft.note.Some? then draft.note else m.userNote,
                   findings := findings, provenance := draft.provenance))
  }

  predicate Mentions(refs: seq<EvidenceRef>, id: Bytes) {
    exists i :: 0 <= i < |refs| && refs[i].captureId == id
  }

  function About(id: Bytes): Finding -> bool {
    (f: Finding) => Mentions(f.evidence, id)
  }

  function NotAbout(id: Bytes): Finding -> bool {
    (f: Finding) => !Mentions(f.evidence, id)
  }

  function AgentNotAbout(id: Bytes): AgentFinding -> bool {
    (f: AgentFinding) => !Mentions(f.evidence, id)
  }

  function ReviewOf(c: CaptureRecord, image: Image): ReviewInput {
    ReviewInput(c.captureId, image, c.scale, c.stale, None, Some(c.dimensions))
  }

  /** What a successful agent adds. */
  datatype AgentResult = AgentResult(findings: seq<AgentFinding>, provenance: Provenance)

  function Reviewed(m: Evidence, c: CaptureRecord, image: Image, agent: Option<AgentResult>, hash: Hash)
    : Result<Evidence, StoreError>
  {
    var input := ReviewOf(c, image);
    if !ValidInput(input) then Err(ManifestInvalid)
    else
      var findings := Keep(m.findings, NotAbout(c.captureId)) + Found(input, hash);
      var kept := Keep(m.agentFindings, AgentNotAbout(c.captureId));
      if |findings| > MAX_FINDINGS then Err(Quota)
      else Ok(m.(findings := findings,
                 agentFindings := if agent.Some? then kept + agent.value.findings else kept,
                 provenance := if agent.Some? then agent.value.provenance else m.provenance))
  }

  function Selected(m: Evidence, c: Comparison): Evidence {
    m.(comparison := Some(c),
       beforeAfter := Some(BeforeAfter(c.beforeCaptureId, c.afterCaptureId, c.comparisonId)))
  }

  function Annotated(m: Evidence, note: Bytes): Evidence {
    m.(userNote := Some(note))
  }

  /** The manifest of a session before its first capture. */
  function Fresh(sessionId: Bytes, createdAt: nat, provenance: Provenance): Evidence {
    Evidence(SCHEMA_VERSION, sessionId, createdAt, [], None, [], [], None, None, provenance)
  }

  method BuildPublished(m: Evidence, draft: Draft, maxCaptures: nat, hash: Hash)
    returns (r: Result<Evidence, StoreError>)
    ensures r == Published(m, draft, maxCaptures, hash)
  {
    if |m.captures| >= maxCaptures {
      return Err(Quota);
    }
    hide Found, ValidInput, NextId, RecordFor;
    var manifest := m;
    var twin := FindTwin(m.captures, draft.image.sha256);
    var findings := DeterministicFindings(
      ReviewInput(NextId(m, draft), draft.image, draft.scale, draft.stale, twin, None), hash);
    if findings.Err? {
      return Err(ManifestInvalid);
    }
    manifest := manifest.(captures := manifest.captures + [RecordFor(m, draft)]);
    if draft.note.Some? {
      manifest := manifest.(userNote := draft.note);
    }
    manifest := manifest.(findings := manifest.findings + findings.value);
    if |manifest.findings| > MAX_FINDINGS {
      return Err(Quota);
    }
    manifest := manifest.(provenance := draft.provenance);
    r := Ok(manifest);
  }

  method FindTwin(captures: seq<CaptureRecord>, sha256: Bytes) returns (r: Option<Bytes>)
    ensures r == FirstTwin(captures, sha256)
  {
    assert captures[0..] == captures;
    for i := 0 to |captures|
      invariant FirstTwin(captures[i..], sha256) == FirstTwin(captures, sha256)
    {
      assert captures[i..][1..] == captures[i + 1..];
      if captures[i].image.sha256 == sha256 {
        return Some(captures[i].captureId);
      }
    }
    r := None;
  }

  method BuildReviewed(m: Evidence, c: CaptureRecord, image: Image, agent: Option<AgentResult>, hash: Hash)
    returns (r: Result<Evidence, StoreError>)
    ensures r == Reviewed(m, c, image, agent, hash)
  {
    hide Found, ValidInput, Keep;
    var deterministic := DeterministicFindings(ReviewOf(c, image), hash);
    if deterministic.Err? {
      return Err(ManifestInvalid);
    }
    var updated := m;
    var kept := Retain(updated.findings, NotAbout(c.captureId));
    updated := updated.(findings := kept + deterministic.value);
    var keptAgent := Retain(updated.agentFindings, AgentNotAbout(c.captureId));
    updated := updated.(agentFindings := keptAgent);
    if agent.Some? {
      updated := updated.(provenance := agent.value.provenance,
                          agentFindings := updated.agentFindings + agent.value.findings);
    }
    if |updated.findings| > MAX_FINDINGS {
      return Err(Quota);
    }
    r := Ok(updated);
  }

  // ----- Validity -----

  lemma DistinctGrows(captures: seq<CaptureRecord>, c: CaptureRecord)
    requires Distinct(captures)
    ensures Distinct(captures + [c]) <==> !Has(captures, c.captureId)
  {
    var more := captures + [c];
    if Has(captures, c.captureId) {
      var i :| 0 <= i < |captures| && captures[i].captureId == c.captureId;
      assert more[i].captureId == more[|captures|].captureId;
    }
  }

  /** Everything `validate` asks of a base manifest except that it has captures. */
  predicate ValidBase(m: Evidence) {
    Valid(m) || (m.captures == [] && m.findings == [] && m.agentFindings == []
      && m.comparison == None && m.beforeAfter == None && m.schemaVersion == SCHEMA_VERSION && IsId(m.sessionId)
      && NoteOk(m.userNote))
  }

  /** What a caller can check of a draft before it is published. */
  predicate Acceptable(m: Evidence, draft: Draft) {
    && |m.captures| < MAX_CAPTURE_COUNT && !Has(m.captures, NextId(m, draft)) && ValidCapture(RecordFor(m, draft))
    && NoteOk(draft.note) && ValidProvenance(draft.provenance)
  }

  lemma OwnRefsResolve(captures: seq<CaptureRecord>, c: CaptureRecord, input: ReviewInput)
    requires Lookup(captures, input.captureId) == Some(c) && ValidDimensions(input.image.dimensions)
    ensures AllResolve(captures, [Whole(input)])
       <==> c.image.sha256 == input.image.sha256 && input.image.dimensions.width <= c.dimensions.width
            && input.image.dimensions.height <= c.dimensions.height
  {
    var refs := [Whole(input)];
    assert AllResolve(captures, refs) <==> Resolves(captures, refs[0]);
  }

  /** Findings of one input among captures: all right exactly when the ID is
      short enough and the cited capture matches. */
  lemma FoundIsOk(captures: seq<CaptureRecord>, c: CaptureRecord, input: ReviewInput, hash: Hash)
    requires ValidInput(input) && Lookup(captures, input.captureId) == Some(c)
    ensures FindingsOk(captures, Found(input, hash))
       <==> |input.captureId| <= 103 && c.image.sha256 == input.image.sha256
            && input.image.dimensions.width <= c.dimensions.width
            && input.image.dimensions.height <= c.dimensions.height
  {
    FoundIsOf(input, hash);
    FindingsAreFew(input, hash);
    FindingsAreValid(input, hash);
    OwnRefsResolve(captures, c, input);
    hide Found, ValidFinding, AllResolve, StableId, IsId, PixelCount, ValidScale, Lookup, IsCode;
    var found := Found(input, hash);
    forall i | 0 <= i < |found| ensures found[i].evidence == [Whole(input)] {
      assert IsOf(found[i], input, hash);
    }
    assert found[0].evidence == [Whole(input)];
  }

  lemma FindingsConcat(captures: seq<CaptureRecord>, a: seq<Finding>, b: seq<Finding>)
    ensures FindingsOk(captures, a + b) <==> FindingsOk(captures, a) && FindingsOk(captures, b)
  {
    hide ValidFinding, AllResolve;
    if FindingsOk(captures, a + b) {
      forall i | 0 <= i < |a| ensures ValidFinding(a[i]) && AllResolve(captures, a[i].evidence) {
        assert (a + b)[i] == a[i];
      }
      forall i | 0 <= i < |b| ensures ValidFinding(b[i]) && AllResolve(captures, b[i].evidence) {
        assert (a + b)[|a| + i] == b[i];
      }
    }
  }

  lemma AgentFindingsConcat(captures: seq<CaptureRecord>, a: seq<AgentFinding>, b: seq<AgentFinding>)
    ensures AgentFindingsOk(captures, a + b) <==> AgentFindingsOk(captures, a) && AgentFindingsOk(captures, b)
  {
    hide ValidAgentFinding, AllResolve;
    if AgentFindingsOk(captures, a + b) {
      forall i | 0 <= i < |a| ensures ValidAgentFinding(a[i]) && AllResolve(captures, a[i].evidence) {
        assert (a + b)[i] == a[i];
      }
      forall i | 0 <= i < |b| ensures ValidAgentFinding(b[i]) && AllResolve(captures, b[i].evidence) {
        assert (a + b)[|a| + i] == b[i];
      }
    }
  }

  lemma KeptOk(captures: seq<CaptureRecord>, findings: seq<Finding>, f: Finding -> bool)
    requires FindingsOk(captures, findings)
    ensures FindingsOk(captures, Keep(findings, f))
  {
    hide ValidFinding, AllResolve;
    var kept := Keep(findings, f);
    forall i | 0 <= i < |kept| ensures ValidFinding(kept[i]) && AllResolve(captures, kept[i].evidence) {
      assert kept[i] in findings;
    }
  }

  lemma AgentKeptOk(captures: seq<CaptureRecord>, findings: seq<AgentFinding>, f: AgentFinding -> bool)
    requires AgentFindingsOk(captures, findings)
    ensures AgentFindingsOk(captures, Keep(findings, f))
  {
    hide ValidAgentFinding, AllResolve;
    var kept := Keep(findings, f);
    forall i | 0 <= i < |kept| ensures ValidAgentFinding(kept[i]) && AllResolve(captures, kept[i].evidence) {
      assert kept[i] in findings;
    }
  }

  lemma NewCaptures(captures: seq<CaptureRecord>, c: CaptureRecord)
    requires captures == [] || ValidCaptures(captures)
    ensures ValidCaptures(captures + [c])
            <==> |captures| < MAX_CAPTURE_COUNT && ValidCapture(c) && !Has(captures, c.captureId)
  {
    hide ValidCapture;
    DistinctGrows(captures, c);
    hide Distinct;
    var more := captures + [c];
    if ValidCaptures(more) {
      assert more[|captures|] == c;
    }
  }

  lemma CaptureIdLength(n: nat, sha256: Digest)
    requires n <= MAX_CAPTURE_COUNT
    ensures |CaptureId(n, sha256)| == 23 && IsId(CaptureId(n, sha256))
  {
    if n >= 10 {
      assert JournalText.Decimal(n) == JournalText.Decimal(n / 10) + [48 + n % 10];
      assert JournalText.Decimal(n / 10) == [48 + n / 10];
    }
    var id := CaptureId(n, sha256);
    assert |PaddedDecimal(n)| == 2;
    forall i | 0 <= i < 23 ensures IsAlphanumeric(id[i]) || id[i] == 45 {
      if i >= 11 {
        assert id[i] == sha256[i - 11];
      }
    }
  }

  /** Publishing onto a valid manifest (or none) gives a valid manifest exactly
      when the draft is acceptable: room, a fresh ID, sound fields. */
  lemma PublishedIsValid(m: Evidence, draft: Draft, maxCaptures: nat, hash: Hash)
    requires ValidBase(m) && Published(m, draft, maxCaptures, hash).Ok?
    ensures Valid(Published(m, draft, maxCaptures, hash).value) <==> Acceptable(m, draft)
  {
    if |m.captures| < MAX_CAPTURE_COUNT {
      PublishedWithRoom(m, draft, maxCaptures, hash);
    } else {
      hide Found, ValidInput, CaptureId, RecordFor, FindingsOk, AgentFindingsOk, ComparisonOk, BeforeAfterOk;
    }
  }

  lemma PublishedWithRoom(m: Evidence, draft: Draft, maxCaptures: nat, hash: Hash)
    requires ValidBase(m) && Published(m, draft, maxCaptures, hash).Ok? && |m.captures| < MAX_CAPTURE_COUNT
    ensures Valid(Published(m, draft, maxCaptures, hash).value) <==> Acceptable(m, draft)
  {
    var c := RecordFor(m, draft);
    var input := PublishInput(m, draft);
    var result := Published(m, draft, maxCaptures, hash).value;
    CaptureIdLength(|m.captures| + 1, draft.image.sha256);
    hide Found, ValidInput, CaptureId, PixelCount, Lookup, Resolves, ValidFinding, ValidCapture, Paths.ImagePath,
         IsText, ValidProvenance, IsId, FindingsOk, AgentFindingsOk, ComparisonOk, BeforeAfterOk;
    assert m.captures == [] || ValidCaptures(m.captures);
    NewCaptures(m.captures, c);
    LookupGrows(m.captures, [c], c.captureId);
    BaseGrows(m, c);
    if !Has(m.captures, c.captureId) {
      OneLookup(c);
      assert Lookup(m.captures + [c], input.captureId) == Some(c);
      InputDimensions(input);
      FoundIsOk(m.captures + [c], c, input, hash);
      FindingsConcat(m.captures + [c], m.findings, Found(input, hash));
    }
  }

  lemma InputDimensions(input: ReviewInput)
    requires ValidInput(input)
    ensures ValidDimensions(input.image.dimensions)
  {
  }

  lemma OneLookup(c: CaptureRecord)
    ensures Lookup([c], c.captureId) == Some(c)
  {
  }

  lemma BaseGrows(m: Evidence, c: CaptureRecord)
    requires ValidBase(m)
    ensures FindingsOk(m.captures + [c], m.findings) && AgentFindingsOk(m.captures + [c], m.agentFindings)
    ensures ComparisonOk(m.captures + [c], m.comparison) && BeforeAfterOk(m.captures + [c], m.comparison, m.beforeAfter)
    ensures NoteOk(m.userNote) && |m.agentFindings| <= MAX_AGENT_FINDINGS
    ensures m.schemaVersion == SCHEMA_VERSION && IsId(m.sessionId)
  {
    if Valid(m) {
      ReferencesGrow(m, [c]);
    } else {
      hide Valid;
    }
  }

  // ----- Review -----

  /** What a caller can check of a review's result before it is written. */
  predicate Reviewable(m: Evidence, c: CaptureRecord, image: Image, agent: Option<AgentResult>) {
    && |c.captureId| <= 103 && c.image.sha256 == image.sha256
    && image.dimensions.width <= c.dimensions.width && image.dimensions.height <= c.dimensions.height
    && (agent.Some? ==>
        && AgentFindingsOk(m.captures, agent.value.findings) && ValidProvenance(agent.value.provenance)
        && |Keep(m.agentFindings, AgentNotAbout(c.captureId))| + |agent.value.findings| <= MAX_AGENT_FINDINGS)
  }

  /** Reviewing a capture of a valid manifest gives a valid manifest exactly when
      the ID is short enough, the image is the cited one and the agent's part is
      sound. */
  lemma ReviewedIsValid(m: Evidence, c: CaptureRecord, image: Image, agent: Option<AgentResult>, hash: Hash)
    requires Valid(m) && Lookup(m.captures, c.captureId) == Some(c)
    requires Reviewed(m, c, image, agent, hash).Ok?
    ensures Valid(Reviewed(m, c, image, agent, hash).value) <==> Reviewable(m, c, image, agent)
  {
    var input := ReviewOf(c, image);
    var kept := Keep(m.findings, NotAbout(c.captureId));
    var agentKept := Keep(m.agentFindings, AgentNotAbout(c.captureId));
    hide Found, PixelCount, Resolves, ValidFinding, ValidCaptures, Keep, Lookup,
         IsText, ValidProvenance, IsId, FindingsOk, AgentFindingsOk, ComparisonOk, BeforeAfterOk, About, NotAbout,
         AgentNotAbout;
    InputDimensions(input);
    hide ValidInput;
    KeptOk(m.captures, m.findings, NotAbout(c.captureId));
    AgentKeptOk(m.captures, m.agentFindings, AgentNotAbout(c.captureId));
    FoundIsOk(m.captures, c, input, hash);
    FindingsConcat(m.captures, kept, Found(input, hash));
    if agent.Some? {
      AgentFindingsConcat(m.captures, agentKept, agent.value.findings);
    }
    KeptIsShorter(m, c.captureId);
  }

  lemma KeptIsShorter(m: Evidence, id: Bytes)
    ensures |Keep(m.agentFindings, AgentNotAbout(id))| <= |m.agentFindings|
  {
  }

  lemma FoundMentions(input: ReviewInput, hash: Hash)
    requires Fits(input.image.dimensions, input.image.pixels)
    ensures forall f | f in Found(input, hash) :: Mentions(f.evidence, input.captureId)
  {
    FoundIsOf(input, hash);
    hide Found;
    var found := Found(input, hash);
    forall f | f in found ensures Mentions(f.evidence, input.captureId) {
      var i :| 0 <= i < |found| && found[i] == f;
      assert IsOf(found[i], input, hash);
      assert f.evidence[0].captureId == input.captureId;
    }
  }

  /** After a review, the findings about the capture are exactly the recomputed
      ones, in order; in particular a duplicate finding from publication is gone,
      since a review never names a duplicate. */
  lemma ReviewReplaces(m: Evidence, c: CaptureRecord, image: Image, agent: Option<AgentResult>, hash: Hash)
    requires Reviewed(m, c, image, agent, hash).Ok?
    ensures var findings := Reviewed(m, c, image, agent, hash).value.findings;
            && Keep(findings, About(c.captureId)) == Found(ReviewOf(c, image), hash)
            && Keep(findings, NotAbout(c.captureId)) == Keep(m.findings, NotAbout(c.captureId))
    ensures forall f | f in Reviewed(m, c, image, agent, hash).value.findings && Mentions(f.evidence, c.captureId)
              :: f.code != Ascii("duplicate_capture")
  {
    var input := ReviewOf(c, image);
    var kept, found := Keep(m.findings, NotAbout(c.captureId)), Found(input, hash);
    FoundMentions(input, hash);
    NoDuplicate(input, hash);
    hide Found, ValidInput;
    KeepConcat(kept, found, About(c.captureId));
    KeepConcat(kept, found, NotAbout(c.captureId));
    KeepNone(kept, About(c.captureId));
    KeepAll(found, About(c.captureId));
    KeepNone(found, NotAbout(c.captureId));
    KeepAll(kept, NotAbout(c.captureId));
    assert [] + found == found && kept + [] == kept;
  }

  lemma NoDuplicate(input: ReviewInput, hash: Hash)
    requires Fits(input.image.dimensions, input.image.pixels) && input.duplicateOf.None?
    ensures forall f | f in Found(input, hash) :: f.code != Ascii("duplicate_capture")
  {
    CodesDiffer();
    hide FindingFor, AllZero, Transparent, LuminanceRange, TotalTouches, PixelCount, Ascii;
    CodeOf(input, EmptyCapture, Ascii("empty_capture"), None, hash);
    CodeOf(input, EmptyCapture, Ascii("fully_transparent"), Some(0.0), hash);
    CodeOf(input, ContrastMeasurement, Ascii("contrast_measurement"),
           Some(LuminanceRange(input.image.pixels, PixelCount(input.image.dimensions))), hash);
    CodeOf(input, BoundaryContact, Ascii("boundary_contact"),
           Some(TotalTouches(input.image.dimensions, input.image.pixels, input.image.dimensions.height) as real), hash);
    CodeOf(input, StaleCapture, Ascii("stale_capture"), None, hash);
    CodeOf(input, UnexpectedDimensions, Ascii("unexpected_dimensions"), None, hash);
  }

  lemma CodeOf(input: ReviewInput, category: Category, code: Bytes, measurement: Option<real>, hash: Hash)
    ensures FindingFor(input, category, code, measurement, hash).code == code
  {
  }

  lemma CodesDiffer()
    ensures Ascii("duplicate_capture") !in
      {Ascii("empty_capture"), Ascii("fully_transparent"), Ascii("contrast_measurement"), Ascii("boundary_contact"),
       Ascii("stale_capture"), Ascii("unexpected_dimensions")}
  {
    var d := Ascii("duplicate_capture");
    assert d[0] == 100;
    assert Ascii("empty_capture")[0] == 101 && Ascii("fully_transparent")[0] == 102;
    assert Ascii("contrast_measurement")[0] == 99 && Ascii("boundary_contact")[0] == 98;
    assert Ascii("stale_capture")[0] == 115 && Ascii("unexpected_dimensions")[0] == 117;
  }

  lemma {:induction false} AgentKeepTwice(xs: seq<AgentFinding>, f: AgentFinding -> bool)
    ensures Keep(Keep(xs, f), f) == Keep(xs, f)
  {
    KeepAll(Keep(xs, f), f);
  }

  /** A second review of the same capture without an agent changes nothing. */
  lemma ReviewIsIdempotent(m: Evidence, c: CaptureRecord, image: Image, hash: Hash)
    requires Reviewed(m, c, image, None, hash).Ok?
    ensures var once := Reviewed(m, c, image, None, hash).value; Reviewed(once, c, image, None, hash) == Ok(once)
  {
    ReviewReplaces(m, c, image, None, hash);
    AgentKeepTwice(m.agentFindings, AgentNotAbout(c.captureId));
    hide Found, ValidInput, Keep, About, NotAbout, AgentNotAbout;
  }

  // ----- Selection and note -----

  /** A comparison can be stored exactly when it is between two different
      captures whose recorded dimensions are those of the decoded images. */
  lemma SelectedIsValid(m: Evidence, b: CaptureRecord, a: CaptureRecord, before: Image, after: Image, hash: Hash)
    requires Valid(m) && Lookup(m.captures, b.captureId) == Some(b) && Lookup(m.captures, a.captureId) == Some(a)
    requires Compared(ReviewOf(b, before), ReviewOf(a, after), hash).Ok?
    ensures Valid(Selected(m, Compared(ReviewOf(b, before), ReviewOf(a, after), hash).value))
       <==> b.captureId != a.captureId && b.dimensions == before.dimensions && a.dimensions == after.dimensions
  {
    var c := Compared(ReviewOf(b, before), ReviewOf(a, after), hash).value;
    Metrics.ComparedIsValid(ReviewOf(b, before), ReviewOf(a, after), hash);
    Metrics.ComparisonIdIsId(b.captureId, a.captureId, hash);
    hide PixelCount, SumUp, Resolves, ValidFinding, ValidCaptures, Lookup, ValidComparison, ComparisonId,
         ValidDimensions, IsText, ValidProvenance, IsId, FindingsOk, AgentFindingsOk;
  }

  /** A note makes the manifest invalid only by being too long or by holding a
      forbidden control character. */
  lemma AnnotatedIsValid(m: Evidence, note: Bytes)
    requires Valid(m)
    ensures Valid(Annotated(m, note)) <==> IsText(note, MAX_TEXT_BYTES, true)
  {
    hide Resolves, ValidFinding, ValidCaptures, IsText, ValidProvenance, IsId, FindingsOk, AgentFindingsOk,
         ComparisonOk, BeforeAfterOk;
  }
}
