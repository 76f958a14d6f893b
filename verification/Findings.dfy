/** The facts a review computes from one decoded image. */
module Findings {
  import opened Bytes
  import opened Manifest
  import opened Compare
  import Png

  const BLANK := Png.Pixel(0, 0, 0, 0)

  predicate Transparent(pixels: Bytes, n: nat)
    requires 4 * n <= |pixels|
  {
    forall i | 0 <= i < n :: PixelAt(pixels, i).alpha == 0
  }

  // ----- Luminance -----

  /** `round` and `clamp(0, 255)` of the weighted channels. */
  function Level(p: Pixel): nat {
    Clamp((Luma(p) + 0.5).Floor)
  }

  function Clamp(x: int): nat {
    if x < 0 then 0 else if x > 255 then 255 else x
  }

  function Darkest(pixels: Bytes, n: nat): (r: nat)
    requires 4 * n <= |pixels|
    ensures r <= 255 && forall i | 0 <= i < n :: r <= Level(PixelAt(pixels, i))
  {
    if n == 0 then 255
    else
      var r, level := Darkest(pixels, n - 1), Level(PixelAt(pixels, n - 1));
      if level < r then level else r
  }

  function Brightest(pixels: Bytes, n: nat): (r: nat)
    requires 4 * n <= |pixels|
    ensures r <= 255 && forall i | 0 <= i < n :: r >= Level(PixelAt(pixels, i))
  {
    if n == 0 then 0
    else
      var r, level := Brightest(pixels, n - 1), Level(PixelAt(pixels, n - 1));
      if level > r then level else r
  }

  function LuminanceRange(pixels: Bytes, n: nat): real
    requires 4 * n <= |pixels|
  {
    var low, high := Darkest(pixels, n), Brightest(pixels, n);
    (if high > low then high - low else 0) as real / 255.0
  }

  // ----- Boundary -----

  predicate OnEdge(d: Dimensions, x: nat, y: nat) {
    x == 0 || y == 0 || x + 1 == d.width || y + 1 == d.height
  }

  lemma InImage(d: Dimensions, x: nat, y: nat)
    requires x < d.width && y < d.height
    ensures y * d.width + x + 1 <= PixelCount(d)
  {
    assert (y + 1) * d.width <= d.height * d.width;
  }

  predicate Fits(d: Dimensions, pixels: Bytes) {
    |pixels| == PixelCount(d) * 4
  }

  predicate Touches(d: Dimensions, pixels: Bytes, x: nat, y: nat)
    requires Fits(d, pixels) && x < d.width && y < d.height
  {
    InImage(d, x, y);
    OnEdge(d, x, y) && PixelAt(pixels, y * d.width + x) != BLANK
  }

  function RowTouches(d: Dimensions, pixels: Bytes, y: nat, x: nat): nat
    requires Fits(d, pixels) && x <= d.width && y < d.height
    decreases x
  {
    if x == 0 then 0 else RowTouches(d, pixels, y, x - 1) + if Touches(d, pixels, x - 1, y) then 1 else 0
  }

  function TotalTouches(d: Dimensions, pixels: Bytes, y: nat): nat
    requires Fits(d, pixels) && y <= d.height
    decreases y
  {
    if y == 0 then 0 else TotalTouches(d, pixels, y - 1) + RowTouches(d, pixels, y - 1, d.width)
  }

  lemma {:induction false} BlankRow(d: Dimensions, pixels: Bytes, y: nat, x: nat)
    requires Fits(d, pixels) && x <= d.width && y < d.height && AllZero(pixels)
    ensures RowTouches(d, pixels, y, x) == 0
    decreases x
  {
    if x > 0 {
      BlankRow(d, pixels, y, x - 1);
      InImage(d, x - 1, y);
      hide PixelCount;
      assert PixelAt(pixels, y * d.width + (x - 1)) == BLANK;
    }
  }

  /** A blank image touches no edge. */
  lemma {:induction false} BlankTouchesNothing(d: Dimensions, pixels: Bytes, y: nat)
    requires Fits(d, pixels) && y <= d.height && AllZero(pixels)
    ensures TotalTouches(d, pixels, y) == 0
    decreases y
  {
    if y > 0 {
      BlankTouchesNothing(d, pixels, y - 1);
      BlankRow(d, pixels, y - 1, d.width);
    }
  }

  // ----- Findings -----

  function Whole(input: ReviewInput): EvidenceRef {
    EvidenceRef(input.captureId, input.image.sha256,
                EvidenceRegion(0, 0, input.image.dimensions.width, input.image.dimensions.height))
  }

  function FindingFor(input: ReviewInput, category: Category, code: Bytes, measurement: Option<real>,
                      hash: Hash): Finding {
    Finding(StableId(input.captureId, code, hash), category, [Whole(input)], code, measurement)
  }

  function When(condition: bool, f: Finding): seq<Finding> {
    if condition then [f] else []
  }

  predicate Differs(input: ReviewInput) {
    input.expectedDimensions.Some? && input.expectedDimensions.value != input.image.dimensions
  }

  function Found(input: ReviewInput, hash: Hash): seq<Finding>
    requires Fits(input.image.dimensions, input.image.pixels)
  {
    var pixels, n := input.image.pixels, PixelCount(input.image.dimensions);
    var touching := TotalTouches(input.image.dimensions, pixels, input.image.dimensions.height);
    When(AllZero(pixels), FindingFor(input, EmptyCapture, Ascii("empty_capture"), None, hash))
    + When(Transparent(pixels, n), FindingFor(input, EmptyCapture, Ascii("fully_transparent"), Some(0.0), hash))
    + When(true, FindingFor(input, ContrastMeasurement, Ascii("contrast_measurement"),
                            Some(LuminanceRange(pixels, n)), hash))
    + When(touching > 0, FindingFor(input, BoundaryContact, Ascii("boundary_contact"), Some(touching as real), hash))
    + When(input.stale, FindingFor(input, StaleCapture, Ascii("stale_capture"), None, hash))
    + When(input.duplicateOf.Some?, FindingFor(input, DuplicateCapture, Ascii("duplicate_capture"), None, hash))
    + When(Differs(input), FindingFor(input, UnexpectedDimensions, Ascii("unexpected_dimensions"), None, hash))
  }

  method PushWhen(findings: seq<Finding>, condition: bool, f: Finding) returns (r: seq<Finding>)
    ensures r == findings + When(condition, f)
  {
    r := if condition then findings + [f] else findings;
  }

  method DeterministicFindings(input: ReviewInput, hash: Hash) returns (r: Result<seq<Finding>, ReviewError>)
    ensures r == if ValidInput(input) then Ok(Found(input, hash)) else Err(InvalidInput)
  {
    if !ValidInput(input) {
      return Err(InvalidInput);
    }
    hide *;
    var findings := Collect(input, hash);
    r := Ok(findings);
  }

  method Collect(input: ReviewInput, hash: Hash) returns (findings: seq<Finding>)
    requires Fits(input.image.dimensions, input.image.pixels)
    ensures findings == Found(input, hash)
  {
    hide FindingFor, When, AllZero, Transparent, LuminanceRange, TotalTouches, PixelCount;
    var pixels, n := input.image.pixels, PixelCount(input.image.dimensions);
    var blank := IsZero(pixels);
    findings := PushWhen([], blank, FindingFor(input, EmptyCapture, Ascii("empty_capture"), None, hash));
    assert findings == When(blank, FindingFor(input, EmptyCapture, Ascii("empty_capture"), None, hash));
    var clear := IsTransparent(pixels, n);
    findings := PushWhen(findings, clear, FindingFor(input, EmptyCapture, Ascii("fully_transparent"), Some(0.0), hash));
    var range := MeasureLuminance(pixels, n);
    findings := PushWhen(findings, true,
                         FindingFor(input, ContrastMeasurement, Ascii("contrast_measurement"), Some(range), hash));
    var touching := CountBoundary(input.image.dimensions, pixels);
    findings := PushWhen(findings, touching > 0,
                         FindingFor(input, BoundaryContact, Ascii("boundary_contact"), Some(touching as real), hash));
    findings := PushWhen(findings, input.stale, FindingFor(input, StaleCapture, Ascii("stale_capture"), None, hash));
    findings := PushWhen(findings, input.duplicateOf.Some?,
                         FindingFor(input, DuplicateCapture, Ascii("duplicate_capture"), None, hash));
    findings := PushWhen(findings, Differs(input),
                         FindingFor(input, UnexpectedDimensions, Ascii("unexpected_dimensions"), None, hash));
  }

  method IsTransparent(pixels: Bytes, n: nat) returns (r: bool)
    requires 4 * n <= |pixels|
    ensures r == Transparent(pixels, n)
  {
    for i := 0 to n
      invariant Transparent(pixels, i)
    {
      if PixelAt(pixels, i).alpha != 0 {
        return false;
      }
    }
    r := true;
  }

  method MeasureLuminance(pixels: Bytes, n: nat) returns (range: real)
    requires 4 * n <= |pixels|
    ensures range == LuminanceRange(pixels, n)
  {
    var low, high := 255, 0;
    for i := 0 to n
      invariant low == Darkest(pixels, i) && high == Brightest(pixels, i)
    {
      var level := Level(PixelAt(pixels, i));
      low := if level < low then level else low;
      high := if level > high then level else high;
    }
    range := (if high > low then high - low else 0) as real / 255.0;
  }

  method CountBoundary(d: Dimensions, pixels: Bytes) returns (count: nat)
    requires Fits(d, pixels)
    ensures count == TotalTouches(d, pixels, d.height)
  {
    count := 0;
    for y := 0 to d.height
      invariant count == TotalTouches(d, pixels, y)
    {
      for x := 0 to d.width
        invariant count == TotalTouches(d, pixels, y) + RowTouches(d, pixels, y, x)
      {
        if Touches(d, pixels, x, y) {
          count := count + 1;
        }
      }
    }
  }

  // ----- Bounds and validity -----

  /** At most six findings; at most five when no duplicate was named or the
      dimensions are as expected. A blank image and boundary contact exclude
      each other. */
  lemma FindingsAreFew(input: ReviewInput, hash: Hash)
    requires ValidInput(input)
    ensures 1 <= |Found(input, hash)| <= 6
    ensures input.duplicateOf.None? || input.expectedDimensions in {None, Some(input.image.dimensions)}
            ==> |Found(input, hash)| <= 5
  {
    hide FindingFor, PixelCount, TotalTouches, Transparent, LuminanceRange, ValidDimensions, ValidScale, IsId;
    if AllZero(input.image.pixels) {
      BlankTouchesNothing(input.image.dimensions, input.image.pixels, input.image.dimensions.height);
    }
  }

  predicate CitesOnly(f: Finding, input: ReviewInput) {
    f.evidence == [Whole(input)]
  }

  predicate IsCode(code: Bytes) {
    IsId(code)
  }

  /** A finding of this input: it cites the whole image and nothing else, and
      its ID is derived from the capture's and its code. */
  predicate IsOf(f: Finding, input: ReviewInput, hash: Hash) {
    CitesOnly(f, input) && IsCode(f.code) && f.findingId == StableId(input.captureId, f.code, hash)
  }

  predicate AllOf(findings: seq<Finding>, input: ReviewInput, hash: Hash) {
    forall i | 0 <= i < |findings| :: IsOf(findings[i], input, hash)
  }

  lemma WhenIsOf(condition: bool, input: ReviewInput, category: Category, code: Bytes, measurement: Option<real>,
                 hash: Hash)
    requires IsCode(code)
    ensures AllOf(When(condition, FindingFor(input, category, code, measurement, hash)), input, hash)
  {
    hide Whole, StableId, IsCode;
  }

  lemma OfBoth(a: seq<Finding>, b: seq<Finding>, input: ReviewInput, hash: Hash)
    requires AllOf(a, input, hash) && AllOf(b, input, hash)
    ensures AllOf(a + b, input, hash)
  {
  }

  lemma CodesAreIds()
    ensures IsCode(Ascii("empty_capture")) && IsCode(Ascii("fully_transparent"))
            && IsCode(Ascii("contrast_measurement"))
  {
  }

  lemma MoreCodesAreIds()
    ensures IsCode(Ascii("boundary_contact")) && IsCode(Ascii("stale_capture")) && IsCode(Ascii("duplicate_capture"))
    ensures IsCode(Ascii("unexpected_dimensions"))
  {
  }

  lemma FoundIsOf(input: ReviewInput, hash: Hash)
    requires Fits(input.image.dimensions, input.image.pixels)
    ensures AllOf(Found(input, hash), input, hash)
  {
    CodesAreIds();
    MoreCodesAreIds();
    hide FindingFor, When, AllZero, Transparent, LuminanceRange, TotalTouches, PixelCount, IsCode, AllOf;
    var pixels, n := input.image.pixels, PixelCount(input.image.dimensions);
    var touching := TotalTouches(input.image.dimensions, pixels, input.image.dimensions.height);
    WhenIsOf(AllZero(pixels), input, EmptyCapture, Ascii("empty_capture"), None, hash);
    WhenIsOf(Transparent(pixels, n), input, EmptyCapture, Ascii("fully_transparent"), Some(0.0), hash);
    WhenIsOf(true, input, ContrastMeasurement, Ascii("contrast_measurement"), Some(LuminanceRange(pixels, n)), hash);
    WhenIsOf(touching > 0, input, BoundaryContact, Ascii("boundary_contact"), Some(touching as real), hash);
    WhenIsOf(input.stale, input, StaleCapture, Ascii("stale_capture"), None, hash);
    WhenIsOf(input.duplicateOf.Some?, input, DuplicateCapture, Ascii("duplicate_capture"), None, hash);
    WhenIsOf(Differs(input), input, UnexpectedDimensions, Ascii("unexpected_dimensions"), None, hash);
    var f1 := When(AllZero(pixels), FindingFor(input, EmptyCapture, Ascii("empty_capture"), None, hash));
    var f2 := When(Transparent(pixels, n),
                   FindingFor(input, EmptyCapture, Ascii("fully_transparent"), Some(0.0), hash));
    var f3 := When(true, FindingFor(input, ContrastMeasurement, Ascii("contrast_measurement"),
                                    Some(LuminanceRange(pixels, n)), hash));
    var f4 := When(touching > 0,
                   FindingFor(input, BoundaryContact, Ascii("boundary_contact"), Some(touching as real), hash));
    var f5 := When(input.stale, FindingFor(input, StaleCapture, Ascii("stale_capture"), None, hash));
    var f6 := When(input.duplicateOf.Some?,
                   FindingFor(input, DuplicateCapture, Ascii("duplicate_capture"), None, hash));
    OfBoth(f1, f2, input, hash);
    OfBoth(f1 + f2, f3, input, hash);
    OfBoth(f1 + f2 + f3, f4, input, hash);
    OfBoth(f1 + f2 + f3 + f4, f5, input, hash);
    OfBoth(f1 + f2 + f3 + f4 + f5, f6, input, hash);
    OfBoth(f1 + f2 + f3 + f4 + f5 + f6,
           When(Differs(input), FindingFor(input, UnexpectedDimensions, Ascii("unexpected_dimensions"), None, hash)),
           input, hash);
  }

  lemma IdIsValid(id: Bytes, code: Bytes, hash: Hash)
    requires IsId(id) && IsId(code)
    ensures IsId(StableId(id, code, hash)) <==> |id| <= 103
  {
    assert |StableId(id, code, hash)| == |id| + 25;
    assert forall i | 0 <= i < 24 :: hash(code)[..24][i] == hash(code)[i];
  }

  lemma OneIsValid(f: Finding, input: ReviewInput, hash: Hash)
    requires ValidInput(input) && IsOf(f, input, hash)
    ensures ValidFinding(f) <==> |input.captureId| <= 103
  {
    IdIsValid(input.captureId, f.code, hash);
    hide StableId, IsId, PixelCount, ValidScale;
    assert ValidRef(Whole(input));
  }

  /** The findings of a valid input are valid records exactly when its capture
      ID leaves room for the 25 octets a finding ID adds to it. */
  lemma FindingsAreValid(input: ReviewInput, hash: Hash)
    requires ValidInput(input)
    ensures (forall i | 0 <= i < |Found(input, hash)| :: ValidFinding(Found(input, hash)[i]))
            <==> |input.captureId| <= 103
  {
    FoundIsOf(input, hash);
    FindingsAreFew(input, hash);
    hide Found, ValidFinding, IsOf;
    forall i | 0 <= i < |Found(input, hash)|
      ensures ValidFinding(Found(input, hash)[i]) <==> |input.captureId| <= 103
    {
      OneIsValid(Found(input, hash)[i], input, hash);
    }
    assert ValidFinding(Found(input, hash)[0]) <==> |input.captureId| <= 103;
  }
}
