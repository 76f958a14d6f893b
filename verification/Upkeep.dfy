/** What the daemon's own manifests keep through every revision: names derived
    from position and content, and a short list of findings. */
module Upkeep {
  import opened Bytes
  import opened Manifest
  import opened Compare
  import opened Findings
  import opened Revision
  import JournalText
  import Paths

  /** Every capture is named after its position and content. */
  predicate Named(captures: seq<CaptureRecord>) {
    forall i | 0 <= i < |captures| ::
      && IsSha256(captures[i].image.sha256)
      && captures[i].captureId == CaptureId(i + 1, captures[i].image.sha256)
      && captures[i].image.relativePath == Paths.ImagePath(captures[i].captureId)
  }

  lemma PaddedIsDistinct(i: nat, j: nat)
    requires i < j <= 99
    ensures PaddedDecimal(i) != PaddedDecimal(j) && |PaddedDecimal(i)| == 2 && |PaddedDecimal(j)| == 2
  {
    TwoDigits(i);
    TwoDigits(j);
    hide PaddedDecimal;
    assert i / 10 != j / 10 || i % 10 != j % 10;
    assert PaddedDecimal(i)[0] == 48 + i / 10 && PaddedDecimal(i)[1] == 48 + i % 10;
    assert PaddedDecimal(j)[0] == 48 + j / 10 && PaddedDecimal(j)[1] == 48 + j % 10;
  }

  lemma TwoDigits(n: nat)
    requires n <= 99
    ensures PaddedDecimal(n) == [48 + n / 10, 48 + n % 10]
  {
    if n >= 10 {
      assert JournalText.Decimal(n) == JournalText.Decimal(n / 10) + [48 + n % 10];
      assert JournalText.Decimal(n / 10) == [48 + n / 10];
    }
  }

  lemma DigitsInId(n: nat, sha256: Digest)
    requires n <= 99
    ensures |CaptureId(n, sha256)| >= 10 && CaptureId(n, sha256)[8..10] == PaddedDecimal(n)
  {
    TwoDigits(n);
    hide PaddedDecimal;
  }

  lemma IdsDiffer(i: nat, a: Digest, j: nat, b: Digest)
    requires i < j <= 99
    ensures CaptureId(i, a) != CaptureId(j, b)
  {
    hide PaddedDecimal, CaptureId;
    PaddedIsDistinct(i, j);
    DigitsInId(i, a);
    DigitsInId(j, b);
  }

  /** The next ID is always fresh. */
  lemma NextIdIsFresh(m: Evidence, draft: Draft)
    requires Named(m.captures) && |m.captures| < MAX_CAPTURE_COUNT
    ensures !Has(m.captures, NextId(m, draft))
  {
    hide PaddedDecimal, CaptureId, Paths.ImagePath;
    forall i | 0 <= i < |m.captures| ensures m.captures[i].captureId != NextId(m, draft) {
      IdsDiffer(i + 1, m.captures[i].image.sha256, |m.captures| + 1, draft.image.sha256);
    }
  }

  /** Each finding cites one capture of the list, and no capture has over five. */
  predicate Tidy(captures: seq<CaptureRecord>, findings: seq<Finding>) {
    && (forall f | f in findings :: |f.evidence| == 1 && Has(captures, f.evidence[0].captureId))
    && (forall i | 0 <= i < |captures| :: |Keep(findings, About(captures[i].captureId))| <= 5)
  }

  /** So the list of findings is short: the limit of 256 is never met. */
  lemma {:induction false} TidyIsShort(captures: seq<CaptureRecord>, findings: seq<Finding>)
    requires Tidy(captures, findings)
    ensures |findings| <= 5 * |captures|
    decreases |captures|
  {
    if captures == [] {
      KeepAll(findings, About([]));
      KeepNone(findings, About([]));
    } else {
      var id := captures[0].captureId;
      var rest := Keep(findings, NotAbout(id));
      KeepSplits(findings, About(id), NotAbout(id));
      assert |Keep(findings, About(captures[0].captureId))| <= 5;
      assert Tidy(captures[1..], rest) by {
        TidyRest(captures, findings);
      }
      TidyIsShort(captures[1..], rest);
    }
  }

  lemma TidyRest(captures: seq<CaptureRecord>, findings: seq<Finding>)
    requires Tidy(captures, findings) && captures != []
    ensures Tidy(captures[1..], Keep(findings, NotAbout(captures[0].captureId)))
  {
    var id := captures[0].captureId;
    var rest := Keep(findings, NotAbout(id));
    forall f | f in rest ensures |f.evidence| == 1 && Has(captures[1..], f.evidence[0].captureId) {
      assert f in findings && !Mentions(f.evidence, id);
      assert f.evidence[0].captureId != id;
    }
    forall i | 0 <= i < |captures| - 1 ensures |Keep(rest, About(captures[1..][i].captureId))| <= 5 {
      KeepFewer(findings, NotAbout(id), About(captures[i + 1].captureId));
      assert |Keep(findings, About(captures[i + 1].captureId))| <= 5;
    }
  }

  /** The invariant of a manifest the daemon wrote. */
  predicate Kept(m: Evidence) {
    Named(m.captures) && Tidy(m.captures, m.findings)
  }

  lemma NamedGrows(m: Evidence, draft: Draft)
    requires Named(m.captures)
    ensures Named(m.captures + [RecordFor(m, draft)])
  {
    hide CaptureId, Paths.ImagePath;
  }

  lemma UnrelatedToOthers(findings: seq<Finding>, id: Bytes, other: Bytes)
    requires id != other && forall f | f in findings :: |f.evidence| == 1 && f.evidence[0].captureId == id
    ensures Keep(findings, About(other)) == []
  {
    KeepNone(findings, About(other));
  }

  lemma FoundIsSingle(input: ReviewInput, hash: Hash)
    requires ValidInput(input)
    ensures Fits(input.image.dimensions, input.image.pixels)
    ensures forall f | f in Found(input, hash) :: |f.evidence| == 1 && f.evidence[0].captureId == input.captureId
  {
    FoundIsOf(input, hash);
    hide Found;
    var found := Found(input, hash);
    forall f | f in found ensures |f.evidence| == 1 && f.evidence[0].captureId == input.captureId {
      var i :| 0 <= i < |found| && found[i] == f;
      assert IsOf(found[i], input, hash);
    }
  }

  /** Adding few findings about one capture keeps the list tidy, if the list
      held none about it. */
  lemma TidyGrows(captures: seq<CaptureRecord>, findings: seq<Finding>, found: seq<Finding>, id: Bytes)
    requires Tidy(captures, findings) && Has(captures, id)
    requires Keep(findings, About(id)) == [] && |found| <= 5
    requires forall f | f in found :: |f.evidence| == 1 && f.evidence[0].captureId == id
    ensures Tidy(captures, findings + found)
  {
    hide Has, Lookup, Mentions;
    forall f | f in findings + found ensures |f.evidence| == 1 && Has(captures, f.evidence[0].captureId) {
      if f !in findings {
        assert f in found;
      }
    }
    forall i | 0 <= i < |captures| ensures |Keep(findings + found, About(captures[i].captureId))| <= 5 {
      var other := captures[i].captureId;
      KeepConcat(findings, found, About(other));
      assert |Keep(findings, About(captures[i].captureId))| <= 5;
      if other != id {
        UnrelatedToOthers(found, id, other);
      }
    }
  }

  lemma CitesGrow(captures: seq<CaptureRecord>, f: Finding, c: CaptureRecord)
    requires |f.evidence| == 1 && Has(captures, f.evidence[0].captureId) && !Has(captures, c.captureId)
    ensures Has(captures + [c], f.evidence[0].captureId) && !About(c.captureId)(f)
  {
    LookupGrows(captures, [c], f.evidence[0].captureId);
    assert f.evidence[0].captureId != c.captureId;
  }

  lemma TidyWithMoreCaptures(captures: seq<CaptureRecord>, findings: seq<Finding>, c: CaptureRecord)
    requires Tidy(captures, findings) && !Has(captures, c.captureId)
    ensures Tidy(captures + [c], findings) && Keep(findings, About(c.captureId)) == []
  {
    hide Has, About;
    var more := captures + [c];
    forall f | f in findings
      ensures |f.evidence| == 1 && Has(more, f.evidence[0].captureId) && !About(c.captureId)(f)
    {
      CitesGrow(captures, f, c);
    }
    KeepNone(findings, About(c.captureId));
    forall i | 0 <= i < |more| ensures |Keep(findings, About(more[i].captureId))| <= 5 {
      if i < |captures| {
        assert |Keep(findings, About(captures[i].captureId))| <= 5;
      }
    }
  }

  /** A publication keeps the names and the tidy list, and never meets the limit
      on findings. */
  lemma PublishedIsKept(m: Evidence, draft: Draft, maxCaptures: nat, hash: Hash)
    requires Kept(m) && |m.captures| < MAX_CAPTURE_COUNT && |m.captures| < maxCaptures
    requires ValidInput(PublishInput(m, draft))
    ensures Published(m, draft, maxCaptures, hash).Ok? && Kept(Published(m, draft, maxCaptures, hash).value)
  {
    var input := PublishInput(m, draft);
    var c := RecordFor(m, draft);
    hide ValidInput, Found, FirstTwin, CaptureId, Named, Tidy, Has;
    NamedGrows(m, draft);
    NextIdIsFresh(m, draft);
    TidyWithMoreCaptures(m.captures, m.findings, c);
    TidyIsShort(m.captures, m.findings);
    FindingsAreFew(input, hash);
    FoundIsSingle(input, hash);
    assert Has(m.captures + [c], c.captureId) by { LastIsThere(m.captures, c); }
    TidyGrows(m.captures + [c], m.findings, Found(input, hash), c.captureId);
  }

  lemma LastIsThere(captures: seq<CaptureRecord>, c: CaptureRecord)
    ensures Has(captures + [c], c.captureId)
  {
    LookupGrows(captures, [c], c.captureId);
    OneLookup(c);
  }

  lemma TidyKept(captures: seq<CaptureRecord>, findings: seq<Finding>, id: Bytes)
    requires Tidy(captures, findings)
    ensures Tidy(captures, Keep(findings, NotAbout(id))) && Keep(Keep(findings, NotAbout(id)), About(id)) == []
  {
    var kept := Keep(findings, NotAbout(id));
    hide Has, Lookup;
    forall f | f in kept ensures |f.evidence| == 1 && Has(captures, f.evidence[0].captureId) {
      assert f in findings;
    }
    forall i | 0 <= i < |captures| ensures |Keep(kept, About(captures[i].captureId))| <= 5 {
      KeepFewer(findings, NotAbout(id), About(captures[i].captureId));
      assert |Keep(findings, About(captures[i].captureId))| <= 5;
    }
    KeepNone(kept, About(id));
  }

  /** A review keeps them too, and never meets the limit either. */
  lemma ReviewedIsKept(m: Evidence, c: CaptureRecord, image: Image, agent: Option<AgentResult>, hash: Hash)
    requires Kept(m) && |m.captures| <= MAX_CAPTURE_COUNT && Has(m.captures, c.captureId)
    requires ValidInput(ReviewOf(c, image))
    ensures Reviewed(m, c, image, agent, hash).Ok? && Kept(Reviewed(m, c, image, agent, hash).value)
  {
    var input := ReviewOf(c, image);
    hide ValidInput, Found, Named, Tidy, Has, Keep, NotAbout, About, AgentNotAbout;
    TidyKept(m.captures, m.findings, c.captureId);
    FindingsAreFew(input, hash);
    FoundIsSingle(input, hash);
    TidyGrows(m.captures, Keep(m.findings, NotAbout(c.captureId)), Found(input, hash), c.captureId);
    TidyIsShort(m.captures, Keep(m.findings, NotAbout(c.captureId)) + Found(input, hash));
  }
}
