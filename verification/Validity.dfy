/** What a valid manifest is, with its limits as numbers and its references as
    what they must find in the list of captures. */
module Validity {
  import opened Bytes
  import opened Manifest
  import Paths

  // ----- Fields -----

  predicate IsSize(d: Dimensions) {
    1 <= d.width <= 16384 && 1 <= d.height <= 16384 && d.width * d.height <= 100_000_000
  }

  predicate IsVersionList(tools: seq<ToolVersion>) {
    |tools| <= 16 && forall i | 0 <= i < |tools| :: IsMetadata(tools[i].version, 128)
  }

  predicate IsCapture(c: CaptureRecord) {
    && IsId(c.captureId) && IsText(c.image.relativePath, 256, false) && Paths.IsObjectPath(c.image.relativePath)
    && 1 <= c.image.bytes <= 67_108_864 && IsSha256(c.image.sha256) && IsSize(c.dimensions)
    && 0.1 <= c.scale.x <= 16.0 && 0.1 <= c.scale.y <= 16.0
    && (c.selection.Some? ==> IsSize(Dimensions(c.selection.value.width, c.selection.value.height)))
    && IsVersionList(c.toolVersions) && (c.application.Some? ==> IsMetadata(c.application.value, 256))
  }

  predicate IsSource(p: Provenance) {
    && IsMetadata(p.producer, 256) && IsMetadata(p.producerVersion, 256) && IsMetadata(p.producerCommit, 256)
    && IsVersionList(p.toolVersions)
  }

  lemma CaptureFields(c: CaptureRecord)
    ensures ValidCapture(c) <==> IsCapture(c)
  {
    hide IsText, Paths.IsObjectPath, IsId, IsSha256, IsMetadata;
  }

  // ----- References -----

  /** There is a capture with this ID, checksum and room for the region. */
  ghost predicate Finds(captures: seq<CaptureRecord>, e: EvidenceRef) {
    exists k :: 0 <= k < |captures| && Covers(captures[k], e)
  }

  predicate Covers(c: CaptureRecord, e: EvidenceRef) {
    && c.captureId == e.captureId && c.image.sha256 == e.contentSha256
    && 1 <= e.region.width && e.region.x + e.region.width <= c.dimensions.width
    && 1 <= e.region.height && e.region.y + e.region.height <= c.dimensions.height
  }

  /** One to sixteen of them. */
  ghost predicate AllFound(captures: seq<CaptureRecord>, refs: seq<EvidenceRef>) {
    1 <= |refs| <= 16 && forall i | 0 <= i < |refs| :: Finds(captures, refs[i])
  }

  ghost predicate Names(captures: seq<CaptureRecord>, id: Bytes) {
    exists k :: 0 <= k < |captures| && captures[k].captureId == id
  }

  ghost predicate Measured(captures: seq<CaptureRecord>, c: Comparison) {
    exists b, a ::
      && 0 <= b < |captures| && captures[b].captureId == c.beforeCaptureId && captures[b].dimensions == c.dimensions
      && 0 <= a < |captures| && captures[a].captureId == c.afterCaptureId && captures[a].dimensions == c.dimensions
      && (c.sameScale ==> captures[b].scale == captures[a].scale)
  }

  lemma {:induction false} LookupIs(captures: seq<CaptureRecord>, k: nat)
    requires Distinct(captures) && k < |captures|
    ensures Lookup(captures, captures[k].captureId) == Some(captures[k])
    decreases captures
  {
    if k > 0 {
      assert captures[0].captureId != captures[k].captureId;
      LookupIs(captures[1..], k - 1);
    }
  }

  lemma LookupAt(captures: seq<CaptureRecord>, id: Bytes) returns (k: nat)
    requires Has(captures, id)
    ensures k < |captures| && captures[k] == Lookup(captures, id).value && captures[k].captureId == id
  {
    k :| 0 <= k < |captures| && captures[k] == Lookup(captures, id).value;
  }

  lemma ReferenceFinds(captures: seq<CaptureRecord>, e: EvidenceRef)
    requires Distinct(captures)
    ensures Resolves(captures, e) <==> Finds(captures, e)
  {
    hide Lookup;
    if Resolves(captures, e) {
      var k := LookupAt(captures, e.captureId);
      assert Covers(captures[k], e);
    }
    if k :| 0 <= k < |captures| && Covers(captures[k], e) {
      LookupIs(captures, k);
    }
  }

  lemma FoundIsValid(captures: seq<CaptureRecord>, e: EvidenceRef)
    requires ValidCaptures(captures) && Finds(captures, e)
    ensures ValidRef(e)
  {
    var k :| 0 <= k < |captures| && Covers(captures[k], e);
    assert ValidCapture(captures[k]);
    hide IsId, IsSha256;
  }

  lemma ReferencesFind(captures: seq<CaptureRecord>, refs: seq<EvidenceRef>)
    requires ValidCaptures(captures)
    ensures ValidRefs(refs) && AllResolve(captures, refs) <==> AllFound(captures, refs)
  {
    hide Resolves, Finds, ValidRef, ValidCapture;
    forall i | 0 <= i < |refs|
      ensures Resolves(captures, refs[i]) <==> Finds(captures, refs[i])
      ensures Finds(captures, refs[i]) ==> ValidRef(refs[i])
    {
      ReferenceFinds(captures, refs[i]);
      if Finds(captures, refs[i]) {
        FoundIsValid(captures, refs[i]);
      }
    }
  }

  lemma NamesIsHas(captures: seq<CaptureRecord>, id: Bytes)
    ensures Has(captures, id) <==> Names(captures, id)
  {
    hide Lookup;
    if Has(captures, id) {
      var k := LookupAt(captures, id);
    }
  }

  lemma ComparisonMeasured(captures: seq<CaptureRecord>, c: Comparison)
    requires Distinct(captures)
    ensures ComparisonResolves(captures, c) <==> Measured(captures, c)
  {
    hide Lookup;
    if ComparisonResolves(captures, c) {
      var b := LookupAt(captures, c.beforeCaptureId);
      var a := LookupAt(captures, c.afterCaptureId);
    }
    if b, a :|
      && 0 <= b < |captures| && captures[b].captureId == c.beforeCaptureId && captures[b].dimensions == c.dimensions
      && 0 <= a < |captures| && captures[a].captureId == c.afterCaptureId && captures[a].dimensions == c.dimensions
      && (c.sameScale ==> captures[b].scale == captures[a].scale)
    {
      LookupIs(captures, b);
      LookupIs(captures, a);
    }
  }

  // ----- The whole -----

  predicate IsCaptureList(captures: seq<CaptureRecord>) {
    && 1 <= |captures| <= 32 && (forall i | 0 <= i < |captures| :: IsCapture(captures[i]))
    && forall i, j | 0 <= i < |captures| && 0 <= j < |captures| ::
         captures[i].captureId == captures[j].captureId ==> i == j
  }

  ghost predicate FindingsFind(captures: seq<CaptureRecord>, findings: seq<Finding>) {
    |findings| <= 256
    && forall i | 0 <= i < |findings| ::
         IsId(findings[i].findingId) && IsId(findings[i].code) && AllFound(captures, findings[i].evidence)
  }

  ghost predicate AgentFindingsFind(captures: seq<CaptureRecord>, findings: seq<AgentFinding>) {
    |findings| <= 128
    && forall i | 0 <= i < |findings| ::
         IsId(findings[i].findingId) && 0.0 <= findings[i].confidence <= 1.0 && AllFound(captures, findings[i].evidence)
  }

  predicate IsShare(x: real) {
    0.0 <= x <= 1.0
  }

  /** Between two different captures of the same size, and at one scale if it says
      so. */
  ghost predicate ComparisonFinds(captures: seq<CaptureRecord>, c: Comparison) {
    && IsId(c.comparisonId) && c.beforeCaptureId != c.afterCaptureId && Measured(captures, c)
    && c.changedPixels <= c.dimensions.width * c.dimensions.height
    && IsShare(c.changedFraction) && IsShare(c.meanDifference) && IsShare(c.meanSquare)
    && (c.perceptual.Some? ==> IsShare(c.perceptual.value))
  }

  /** The pair belongs to the stored comparison and both its captures are listed. */
  ghost predicate PairFinds(captures: seq<CaptureRecord>, comparison: Option<Comparison>, b: BeforeAfter) {
    && b.beforeCaptureId != b.afterCaptureId && Names(captures, b.beforeCaptureId) && Names(captures, b.afterCaptureId)
    && comparison.Some? && comparison.value.comparisonId == b.comparisonId
  }

  lemma CaptureListIs(captures: seq<CaptureRecord>)
    ensures ValidCaptures(captures) <==> IsCaptureList(captures)
  {
    hide ValidCapture, IsCapture;
    forall i | 0 <= i < |captures| ensures ValidCapture(captures[i]) <==> IsCapture(captures[i]) {
      CaptureFields(captures[i]);
    }
  }

  lemma FindingsAre(captures: seq<CaptureRecord>, findings: seq<Finding>)
    requires ValidCaptures(captures)
    ensures |findings| <= MAX_FINDINGS && FindingsOk(captures, findings) <==> FindingsFind(captures, findings)
  {
    hide ValidRefs, AllResolve, AllFound, ValidCaptures, IsId;
    forall i | 0 <= i < |findings|
      ensures ValidFinding(findings[i]) && AllResolve(captures, findings[i].evidence)
         <==> IsId(findings[i].findingId) && IsId(findings[i].code) && AllFound(captures, findings[i].evidence)
    {
      ReferencesFind(captures, findings[i].evidence);
    }
  }

  lemma AgentFindingsAre(captures: seq<CaptureRecord>, findings: seq<AgentFinding>)
    requires ValidCaptures(captures)
    ensures |findings| <= MAX_AGENT_FINDINGS && AgentFindingsOk(captures, findings)
            <==> AgentFindingsFind(captures, findings)
  {
    hide ValidRefs, AllResolve, AllFound, ValidCaptures, IsId;
    forall i | 0 <= i < |findings|
      ensures ValidAgentFinding(findings[i]) && AllResolve(captures, findings[i].evidence)
         <==> && IsId(findings[i].findingId) && 0.0 <= findings[i].confidence <= 1.0
              && AllFound(captures, findings[i].evidence)
    {
      ReferencesFind(captures, findings[i].evidence);
    }
  }

  lemma NamedIsId(captures: seq<CaptureRecord>, id: Bytes)
    requires ValidCaptures(captures) && Names(captures, id)
    ensures IsId(id)
  {
    var k :| 0 <= k < |captures| && captures[k].captureId == id;
    assert ValidCapture(captures[k]);
    hide IsId;
  }

  lemma ComparisonIs(captures: seq<CaptureRecord>, c: Comparison)
    requires ValidCaptures(captures)
    ensures ComparisonOk(captures, Some(c)) <==> ComparisonFinds(captures, c)
  {
    ComparisonMeasured(captures, c);
    if Measured(captures, c) {
      assert Names(captures, c.beforeCaptureId) && Names(captures, c.afterCaptureId);
      NamedIsId(captures, c.beforeCaptureId);
      NamedIsId(captures, c.afterCaptureId);
      var b :| && 0 <= b < |captures| && captures[b].captureId == c.beforeCaptureId
               && captures[b].dimensions == c.dimensions;
      assert ValidCapture(captures[b]);
    }
    hide IsId, Measured, ComparisonResolves, Names;
  }

  lemma PairIs(captures: seq<CaptureRecord>, comparison: Option<Comparison>, b: BeforeAfter)
    requires ValidCaptures(captures) && ComparisonOk(captures, comparison)
    ensures BeforeAfterOk(captures, comparison, Some(b)) <==> PairFinds(captures, comparison, b)
  {
    NamesIsHas(captures, b.beforeCaptureId);
    NamesIsHas(captures, b.afterCaptureId);
    if Names(captures, b.beforeCaptureId) && Names(captures, b.afterCaptureId) {
      NamedIsId(captures, b.beforeCaptureId);
      NamedIsId(captures, b.afterCaptureId);
    }
    hide IsId, Names, Lookup, ComparisonResolves;
  }

  /** A manifest is valid exactly when: it has schema 1, an ID, 1 to 32 captures
      with sound fields and different IDs, a note of at most 16 KiB, at most 256
      findings and 128 agent findings; every reference of a finding finds its
      capture, with that checksum and room for its region; the comparison is
      between two listed captures of its size; and the pair belongs to it. */
  lemma ValidMeans(m: Evidence)
    ensures Valid(m)
       <==> && m.schemaVersion == 1 && IsId(m.sessionId) && IsCaptureList(m.captures)
            && (m.userNote.Some? ==> IsText(m.userNote.value, 16384, true))
            && FindingsFind(m.captures, m.findings) && AgentFindingsFind(m.captures, m.agentFindings)
            && (m.comparison.Some? ==> ComparisonFinds(m.captures, m.comparison.value))
            && (m.beforeAfter.Some? ==> PairFinds(m.captures, m.comparison, m.beforeAfter.value))
            && IsSource(m.provenance)
  {
    CaptureListIs(m.captures);
    if ValidCaptures(m.captures) {
      FindingsAre(m.captures, m.findings);
      AgentFindingsAre(m.captures, m.agentFindings);
      if m.comparison.Some? {
        ComparisonIs(m.captures, m.comparison.value);
      }
      if m.beforeAfter.Some? && ComparisonOk(m.captures, m.comparison) {
        PairIs(m.captures, m.comparison, m.beforeAfter.value);
      }
    }
    hide ValidCaptures, IsCaptureList, FindingsOk, FindingsFind, AgentFindingsOk, AgentFindingsFind, ComparisonFinds,
         PairFinds, IsId, IsText, IsMetadata, ValidComparison, ComparisonResolves, ValidBeforeAfter, Has;
  }
}
