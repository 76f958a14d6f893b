/** The evidence manifest: its records, what `validate` demands of them and how
    captures are looked up. Text shown to people (severity, explanation,
    suggested action) and agent categories are dropped; `f64` is `real`. */
module Manifest {
  import opened Bytes
  import opened Utf8
  import Nesting
  import Paths

  const SCHEMA_VERSION := 1
  const MAX_JSON_FRAME_BYTES := 1_048_576
  const MAX_TEXT_BYTES := 16 * 1024
  const MAX_TOOL_VERSION_BYTES := 128
  const MAX_PROVENANCE_TEXT_BYTES := 256
  const MAX_CAPTURE_COUNT := 32
  const MAX_TOOLS := 16
  const MAX_IMAGE_BYTES := 64 * 1024 * 1024
  const MAX_IMAGE_DIMENSION := 16_384
  const MAX_IMAGE_PIXELS := 100_000_000
  const MAX_DECODED_RGBA_BYTES := 400 * 1024 * 1024
  const MAX_FINDINGS := 256
  const MAX_AGENT_FINDINGS := 128
  const MAX_EVIDENCE_REFS := 16

  datatype Dimensions = Dimensions(width: nat, height: nat)

  function PixelCount(d: Dimensions): nat {
    d.width * d.height
  }

  datatype Scale = Scale(x: real, y: real)

  datatype Region = Region(x: int, y: int, width: nat, height: nat)

  datatype EvidenceRegion = EvidenceRegion(x: nat, y: nat, width: nat, height: nat)

  datatype ToolVersion = ToolVersion(name: Bytes, version: Bytes)

  datatype CaptureType = Window | SelectedRegion | Application

  datatype ImageEvidence = ImageEvidence(relativePath: Bytes, bytes: nat, sha256: Bytes)

  datatype CaptureRecord = CaptureRecord(
    captureId: Bytes, captureType: CaptureType, capturedAt: nat, stale: bool, image: ImageEvidence,
    dimensions: Dimensions, scale: Scale, selection: Option<Region>, toolVersions: seq<ToolVersion>,
    application: Option<Bytes>)

  datatype EvidenceRef = EvidenceRef(captureId: Bytes, contentSha256: Bytes, region: EvidenceRegion)

  datatype Category =
    | EmptyCapture | CorruptCapture | UnexpectedDimensions | ScaleInconsistency | BoundaryContact
    | ContrastMeasurement | PixelDifference | MissingEvidence | DuplicateCapture | StaleCapture

  datatype Finding = Finding(
    findingId: Bytes, category: Category, evidence: seq<EvidenceRef>, code: Bytes, measurement: Option<real>)

  datatype AgentFinding = AgentFinding(findingId: Bytes, evidence: seq<EvidenceRef>, confidence: real)

  /** `meanSquare` is the square of the source's `rms_difference`. */
  datatype Comparison = Comparison(
    comparisonId: Bytes, beforeCaptureId: Bytes, afterCaptureId: Bytes, dimensions: Dimensions, sameScale: bool,
    changedPixels: nat, changedFraction: real, meanDifference: real, meanSquare: real, perceptual: Option<real>)

  datatype BeforeAfter = BeforeAfter(beforeCaptureId: Bytes, afterCaptureId: Bytes, comparisonId: Bytes)

  datatype ProvenanceKind = LocalCapture | DeterministicReview | AgentReview | ComparisonMade | Exported | HandedOff

  datatype Provenance = Provenance(
    kind: ProvenanceKind, producer: Bytes, producerVersion: Bytes, producerCommit: Bytes,
    toolVersions: seq<ToolVersion>)

  datatype Evidence = Evidence(
    schemaVersion: nat, sessionId: Bytes, createdAt: nat, captures: seq<CaptureRecord>, userNote: Option<Bytes>,
    findings: seq<Finding>, agentFindings: seq<AgentFinding>, comparison: Option<Comparison>,
    beforeAfter: Option<BeforeAfter>, provenance: Provenance)

  // ----- Field checks -----

  /** No control character but newline and tab: C0, DEL, and C1 as UTF-8. */
  predicate NoControls(s: Bytes) {
    forall i | 0 <= i < |s| ::
      && (s[i] >= 32 || s[i] == 10 || s[i] == 9) && s[i] != 127
      && (s[i] == 194 && i + 1 < |s| ==> s[i + 1] >= 160)
  }

  predicate IsText(s: Bytes, max: nat, allowEmpty: bool) {
    (allowEmpty || s != []) && |s| <= max && NoControls(s) && IsUtf8(s)
  }

  predicate IsMetadata(s: Bytes, max: nat) {
    IsText(s, max, false) && Paths.SLASH !in s && Paths.BACKSLASH !in s
  }

  predicate ValidDimensions(d: Dimensions) {
    && 0 < d.width <= MAX_IMAGE_DIMENSION && 0 < d.height <= MAX_IMAGE_DIMENSION
    && d.width * d.height <= MAX_IMAGE_PIXELS
  }

  predicate ValidScale(s: Scale) {
    0.1 <= s.x <= 16.0 && 0.1 <= s.y <= 16.0
  }

  predicate ValidTools(tools: seq<ToolVersion>) {
    |tools| <= MAX_TOOLS && forall i | 0 <= i < |tools| :: IsMetadata(tools[i].version, MAX_TOOL_VERSION_BYTES)
  }

  predicate ValidImage(image: ImageEvidence) {
    && IsText(image.relativePath, Paths.MAX_PATH_BYTES, false) && Paths.IsObjectPath(image.relativePath)
    && 0 < image.bytes <= MAX_IMAGE_BYTES && IsSha256(image.sha256)
  }

  predicate ValidCapture(c: CaptureRecord) {
    && IsId(c.captureId) && ValidImage(c.image) && ValidDimensions(c.dimensions) && ValidScale(c.scale)
    && (c.selection.Some? ==> ValidDimensions(Dimensions(c.selection.value.width, c.selection.value.height)))
    && ValidTools(c.toolVersions)
    && (c.application.Some? ==> IsMetadata(c.application.value, MAX_PROVENANCE_TEXT_BYTES))
    && c.dimensions.width * c.dimensions.height * 4 <= MAX_DECODED_RGBA_BYTES
  }

  predicate ValidRef(e: EvidenceRef) {
    && IsId(e.captureId) && IsSha256(e.contentSha256)
    && 0 < e.region.width <= MAX_IMAGE_DIMENSION && 0 < e.region.height <= MAX_IMAGE_DIMENSION
  }

  predicate ValidRefs(refs: seq<EvidenceRef>) {
    0 < |refs| <= MAX_EVIDENCE_REFS && forall i | 0 <= i < |refs| :: ValidRef(refs[i])
  }

  predicate ValidFinding(f: Finding) {
    IsId(f.findingId) && IsId(f.code) && ValidRefs(f.evidence)
  }

  predicate ValidAgentFinding(f: AgentFinding) {
    IsId(f.findingId) && ValidRefs(f.evidence) && 0.0 <= f.confidence <= 1.0
  }

  predicate IsUnit(r: real) {
    0.0 <= r <= 1.0
  }

  predicate ValidComparison(c: Comparison) {
    && IsId(c.comparisonId) && IsId(c.beforeCaptureId) && IsId(c.afterCaptureId)
    && c.beforeCaptureId != c.afterCaptureId && ValidDimensions(c.dimensions)
    && c.changedPixels <= c.dimensions.width * c.dimensions.height
    && IsUnit(c.changedFraction) && IsUnit(c.meanDifference) && IsUnit(c.meanSquare)
    && (c.perceptual.Some? ==> IsUnit(c.perceptual.value))
  }

  predicate ValidBeforeAfter(b: BeforeAfter) {
    && IsId(b.beforeCaptureId) && IsId(b.afterCaptureId) && IsId(b.comparisonId)
    && b.beforeCaptureId != b.afterCaptureId
  }

  predicate ValidProvenance(p: Provenance) {
    && IsMetadata(p.producer, MAX_PROVENANCE_TEXT_BYTES) && IsMetadata(p.producerVersion, MAX_PROVENANCE_TEXT_BYTES)
    && IsMetadata(p.producerCommit, MAX_PROVENANCE_TEXT_BYTES) && ValidTools(p.toolVersions)
  }

  // ----- Cross references -----

  /** The first capture with this ID. */
  function Lookup(captures: seq<CaptureRecord>, id: Bytes): (r: Option<CaptureRecord>)
    ensures r.Some? ==> r.value in captures && r.value.captureId == id
    ensures r.None? <==> forall i | 0 <= i < |captures| :: captures[i].captureId != id
  {
    if captures == [] then None
    else if captures[0].captureId == id then Some(captures[0])
    else Lookup(captures[1..], id)
  }

  predicate Has(captures: seq<CaptureRecord>, id: Bytes) {
    Lookup(captures, id).Some?
  }

  predicate Distinct(captures: seq<CaptureRecord>) {
    forall i, j | 0 <= i < j < |captures| :: captures[i].captureId != captures[j].captureId
  }

  /** The cited capture is there, with that checksum, and holds the region. */
  predicate Resolves(captures: seq<CaptureRecord>, e: EvidenceRef) {
    var c := Lookup(captures, e.captureId);
    && c.Some? && c.value.image.sha256 == e.contentSha256
    && 0 < e.region.width && 0 < e.region.height
    && e.region.x + e.region.width <= c.value.dimensions.width
    && e.region.y + e.region.height <= c.value.dimensions.height
  }

  predicate AllResolve(captures: seq<CaptureRecord>, refs: seq<EvidenceRef>) {
    forall i | 0 <= i < |refs| :: Resolves(captures, refs[i])
  }

  predicate ComparisonResolves(captures: seq<CaptureRecord>, c: Comparison) {
    var before, after := Lookup(captures, c.beforeCaptureId), Lookup(captures, c.afterCaptureId);
    && before.Some? && after.Some?
    && before.value.dimensions == c.dimensions && after.value.dimensions == c.dimensions
    && (c.sameScale ==> before.value.scale == after.value.scale)
  }

  // ----- Whole manifests -----

  predicate ValidCaptures(captures: seq<CaptureRecord>) {
    && 0 < |captures| <= MAX_CAPTURE_COUNT && (forall i | 0 <= i < |captures| :: ValidCapture(captures[i]))
    && Distinct(captures)
  }

  predicate FindingsOk(captures: seq<CaptureRecord>, findings: seq<Finding>) {
    forall i | 0 <= i < |findings| :: ValidFinding(findings[i]) && AllResolve(captures, findings[i].evidence)
  }

  predicate AgentFindingsOk(captures: seq<CaptureRecord>, findings: seq<AgentFinding>) {
    forall i | 0 <= i < |findings| :: ValidAgentFinding(findings[i]) && AllResolve(captures, findings[i].evidence)
  }

  predicate ComparisonOk(captures: seq<CaptureRecord>, comparison: Option<Comparison>) {
    comparison.Some? ==> ValidComparison(comparison.value) && ComparisonResolves(captures, comparison.value)
  }

  predicate BeforeAfterOk(captures: seq<CaptureRecord>, comparison: Option<Comparison>, pair: Option<BeforeAfter>) {
    pair.Some? ==>
      && ValidBeforeAfter(pair.value)
      && comparison.Some? && comparison.value.comparisonId == pair.value.comparisonId
      && Has(captures, pair.value.beforeCaptureId) && Has(captures, pair.value.afterCaptureId)
  }

  predicate NoteOk(note: Option<Bytes>) {
    note.Some? ==> IsText(note.value, MAX_TEXT_BYTES, true)
  }

  predicate Valid(m: Evidence) {
    && m.schemaVersion == SCHEMA_VERSION && IsId(m.sessionId)
    && ValidCaptures(m.captures)
    && NoteOk(m.userNote)
    && |m.findings| <= MAX_FINDINGS && FindingsOk(m.captures, m.findings)
    && |m.agentFindings| <= MAX_AGENT_FINDINGS && AgentFindingsOk(m.captures, m.agentFindings)
    && ValidProvenance(m.provenance)
    && ComparisonOk(m.captures, m.comparison)
    && BeforeAfterOk(m.captures, m.comparison, m.beforeAfter)
  }

  // ----- Reading -----

  /** The JSON deserializer, left abstract. */
  type ManifestParser = Bytes -> Option<Evidence>

  /** `from_json`: bound, nesting scan, parse, validate, in that order. */
  function FromJson(input: Bytes, parse: ManifestParser): Option<Evidence> {
    if |input| > MAX_JSON_FRAME_BYTES || !Nesting.NestingWithinLimit(input) then None
    else
      var m := parse(input);
      if m.Some? && Valid(m.value) then m else None
  }

  // ----- Growing the capture list -----

  /** Appending captures never changes what an old ID means. */
  lemma {:induction false} LookupGrows(captures: seq<CaptureRecord>, more: seq<CaptureRecord>, id: Bytes)
    ensures Lookup(captures + more, id) == (if Has(captures, id) then Lookup(captures, id) else Lookup(more, id))
    decreases captures
  {
    if captures == [] {
      assert captures + more == more;
    } else {
      assert (captures + more)[1..] == captures[1..] + more;
      LookupGrows(captures[1..], more, id);
    }
  }

  lemma ResolvesGrows(captures: seq<CaptureRecord>, more: seq<CaptureRecord>, e: EvidenceRef)
    requires Resolves(captures, e)
    ensures Resolves(captures + more, e)
  {
    LookupGrows(captures, more, e.captureId);
  }

  /** Every older finding, comparison and before/after pair stays resolvable
      when captures are appended. */
  lemma ReferencesGrow(m: Evidence, more: seq<CaptureRecord>)
    requires Valid(m)
    ensures FindingsOk(m.captures + more, m.findings)
    ensures AgentFindingsOk(m.captures + more, m.agentFindings)
    ensures ComparisonOk(m.captures + more, m.comparison)
    ensures BeforeAfterOk(m.captures + more, m.comparison, m.beforeAfter)
  {
    hide Resolves, ValidFinding, ValidAgentFinding, ValidComparison, ValidBeforeAfter, ValidCaptures, ValidProvenance,
         IsId, NoteOk, Lookup;
    FindingsGrow(m.captures, more, m.findings);
    AgentFindingsGrow(m.captures, more, m.agentFindings);
    if m.comparison.Some? {
      LookupGrows(m.captures, more, m.comparison.value.beforeCaptureId);
      LookupGrows(m.captures, more, m.comparison.value.afterCaptureId);
    }
    if m.beforeAfter.Some? {
      LookupGrows(m.captures, more, m.beforeAfter.value.beforeCaptureId);
      LookupGrows(m.captures, more, m.beforeAfter.value.afterCaptureId);
    }
  }

  lemma RefsGrow(captures: seq<CaptureRecord>, more: seq<CaptureRecord>, refs: seq<EvidenceRef>)
    requires AllResolve(captures, refs)
    ensures AllResolve(captures + more, refs)
  {
    hide Resolves;
    forall i | 0 <= i < |refs| ensures Resolves(captures + more, refs[i]) {
      ResolvesGrows(captures, more, refs[i]);
    }
  }

  lemma FindingsGrow(captures: seq<CaptureRecord>, more: seq<CaptureRecord>, findings: seq<Finding>)
    requires FindingsOk(captures, findings)
    ensures FindingsOk(captures + more, findings)
  {
    hide AllResolve, ValidFinding;
    forall i | 0 <= i < |findings|
      ensures ValidFinding(findings[i]) && AllResolve(captures + more, findings[i].evidence)
    {
      RefsGrow(captures, more, findings[i].evidence);
    }
  }

  lemma AgentFindingsGrow(captures: seq<CaptureRecord>, more: seq<CaptureRecord>, findings: seq<AgentFinding>)
    requires AgentFindingsOk(captures, findings)
    ensures AgentFindingsOk(captures + more, findings)
  {
    hide AllResolve, ValidAgentFinding;
    forall i | 0 <= i < |findings|
      ensures ValidAgentFinding(findings[i]) && AllResolve(captures + more, findings[i].evidence)
    {
      RefsGrow(captures, more, findings[i].evidence);
    }
  }
}
