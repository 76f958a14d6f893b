/** What the review measures, as closed sums and extremes over the octets, with
    the weights written out. */
module Measures {
  import opened Bytes
  import opened Manifest
  import opened Compare
  import opened Findings
  import Metrics

  // ----- Comparison -----

  function Gap(x: real): real {
    if x < 0.0 then -x else x
  }

  /** |a[k] - b[k]| / 255, over the first `n` octets. */
  function GapSum(a: Bytes, b: Bytes, n: nat): real
    requires n <= |a| && n <= |b|
  {
    if n == 0 then 0.0 else GapSum(a, b, n - 1) + Gap(a[n - 1] as real - b[n - 1] as real) / 255.0
  }

  /** Its square. */
  function SquareSum(a: Bytes, b: Bytes, n: nat): real
    requires n <= |a| && n <= |b|
  {
    if n == 0 then 0.0
    else
      var gap := Gap(a[n - 1] as real - b[n - 1] as real) / 255.0;
      SquareSum(a, b, n - 1) + gap * gap
  }

  /** The difference of octet `k` of pixel `i`. */
  function Delta(a: Bytes, b: Bytes, i: nat, k: nat): real
    requires k < 4 && 4 * i + 4 <= |a| && 4 * i + 4 <= |b|
  {
    a[4 * i + k] as real - b[4 * i + k] as real
  }

  /** |0.2126 dR + 0.7152 dG + 0.0722 dB| / 255, over the first `n` pixels. */
  function LumaSum(a: Bytes, b: Bytes, n: nat): real
    requires 4 * n <= |a| && 4 * n <= |b|
  {
    if n == 0 then 0.0
    else
      LumaSum(a, b, n - 1)
      + Gap(0.2126 * Delta(a, b, n - 1, 0) + 0.7152 * Delta(a, b, n - 1, 1) + 0.0722 * Delta(a, b, n - 1, 2)) / 255.0
  }

  /** The first `n` pixels that differ. */
  function Changed(a: Bytes, b: Bytes, n: nat): set<nat>
    requires 4 * n <= |a| && 4 * n <= |b|
  {
    set i: nat | 0 <= i < n && a[4 * i..4 * i + 4] != b[4 * i..4 * i + 4]
  }

  lemma OctetGap(x: byte, y: byte)
    ensures Difference(x, y) == Gap(x as real - y as real) / 255.0
  {
  }

  lemma LumaGap(p: Pixel, q: Pixel)
    ensures LumaDifference(p, q)
         == Gap(0.2126 * (p.red as real - q.red as real) + 0.7152 * (p.green as real - q.green as real)
                + 0.0722 * (p.blue as real - q.blue as real)) / 255.0
  {
  }

  lemma {:induction false} FlatSums(a: Bytes, b: Bytes, n: nat)
    requires n <= |a| && n <= |b|
    ensures Metrics.TotalAbsolute(a, b, n) == GapSum(a, b, n) && Metrics.TotalSquared(a, b, n) == SquareSum(a, b, n)
  {
    if n > 0 {
      FlatSums(a, b, n - 1);
      OctetGap(a[n - 1], b[n - 1]);
      hide Difference, Gap;
    }
  }

  lemma ChangedStep(a: Bytes, b: Bytes, n: nat)
    requires n > 0 && 4 * n <= |a| && 4 * n <= |b|
    ensures PixelAt(a, n - 1) != PixelAt(b, n - 1) <==> n - 1 in Changed(a, b, n)
    ensures Changed(a, b, n) - {n - 1} == Changed(a, b, n - 1)
  {
    var k := 4 * (n - 1);
    assert a[k..k + 4] == [a[k], a[k + 1], a[k + 2], a[k + 3]];
    assert b[k..k + 4] == [b[k], b[k + 1], b[k + 2], b[k + 3]];
  }

  lemma LumaStep(a: Bytes, b: Bytes, n: nat)
    requires n > 0 && 4 * n <= |a| && 4 * n <= |b|
    ensures LumaSum(a, b, n) == LumaSum(a, b, n - 1) + LumaDifference(PixelAt(a, n - 1), PixelAt(b, n - 1))
  {
    LumaGap(PixelAt(a, n - 1), PixelAt(b, n - 1));
    hide LumaDifference, Gap;
  }

  lemma SumStep(a: Bytes, b: Bytes, n: nat)
    requires n > 0 && 4 * n <= |a| && 4 * n <= |b|
    ensures SumUp(a, b, n).changed - SumUp(a, b, n - 1).changed == |Changed(a, b, n)| - |Changed(a, b, n - 1)|
    ensures SumUp(a, b, n).luminance - SumUp(a, b, n - 1).luminance == LumaSum(a, b, n) - LumaSum(a, b, n - 1)
  {
    ChangedStep(a, b, n);
    CountStep(a, b, n);
    LumaStep(a, b, n);
    hide LumaDifference, AddPixel, Changed, PixelAt, LumaSum;
    Metrics.PixelAdds(SumUp(a, b, n - 1), PixelAt(a, n - 1), PixelAt(b, n - 1));
  }

  lemma NoPixels(a: Bytes, b: Bytes)
    ensures SumUp(a, b, 0).changed == |Changed(a, b, 0)| && SumUp(a, b, 0).luminance == LumaSum(a, b, 0)
  {
    assert Changed(a, b, 0) == {};
  }

  lemma {:induction false} PixelSums(a: Bytes, b: Bytes, n: nat)
    requires 4 * n <= |a| && 4 * n <= |b|
    ensures SumUp(a, b, n).changed == |Changed(a, b, n)| && SumUp(a, b, n).luminance == LumaSum(a, b, n)
    decreases n
  {
    if n == 0 {
      NoPixels(a, b);
    } else {
      PixelSums(a, b, n - 1);
      SumStep(a, b, n);
      hide *;
    }
  }

  lemma CountStep(a: Bytes, b: Bytes, n: nat)
    requires n > 0 && 4 * n <= |a| && 4 * n <= |b|
    ensures |Changed(a, b, n)| == |Changed(a, b, n - 1)| + if n - 1 in Changed(a, b, n) then 1 else 0
  {
    ChangedStep(a, b, n);
    hide Changed, PixelAt;
    var s := Changed(a, b, n);
    if n - 1 in s {
      assert s == (s - {n - 1}) + {n - 1};
    } else {
      assert s == s - {n - 1};
    }
  }

  /** What a comparison of two images of `n` pixels must say. */
  ghost predicate Measures(c: Comparison, before: ReviewInput, after: ReviewInput, hash: Hash) {
    var a, b, d := before.image.pixels, after.image.pixels, before.image.dimensions;
    var n := d.width * d.height;
    && n > 0 && |a| == |b| == 4 * n
    && c.beforeCaptureId == before.captureId && c.afterCaptureId == after.captureId
    && c.comparisonId == Ascii("comparison-") + hash(before.captureId + Ascii(":") + after.captureId)[..24]
    && c.dimensions == before.image.dimensions && c.sameScale
    && c.changedPixels == |Changed(a, b, n)| && c.changedFraction == |Changed(a, b, n)| as real / n as real
    && c.meanDifference == GapSum(a, b, 4 * n) / (4 * n) as real
    && c.meanSquare == SquareSum(a, b, 4 * n) / (4 * n) as real
    && c.perceptual == Some(LumaSum(a, b, n) / n as real)
  }

  lemma ComparisonIdIs(before: Bytes, after: Bytes, hash: Hash)
    ensures ComparisonId(before, after, hash) == Ascii("comparison-") + hash(before + Ascii(":") + after)[..24]
  {
    assert Ascii("comparison-") == Ascii("comparison") + Ascii("-");
  }

  /** Images compare exactly when both inputs are valid and their dimensions and
      scales agree, and the record holds these measures. */
  lemma ComparedMeasures(before: ReviewInput, after: ReviewInput, hash: Hash)
    ensures Compared(before, after, hash).Ok?
       <==> && ValidInput(before) && ValidInput(after)
            && before.image.dimensions == after.image.dimensions && before.scale == after.scale
    ensures Compared(before, after, hash).Ok? ==> Measures(Compared(before, after, hash).value, before, after, hash)
  {
    if Compared(before, after, hash).Ok? {
      var n := PixelCount(before.image.dimensions);
      var a, b := before.image.pixels, after.image.pixels;
      SomePixels(before.image.dimensions);
      Metrics.SumsAreFlat(a, b, n);
      FlatSums(a, b, 4 * n);
      PixelSums(a, b, n);
      ComparisonIdIs(before.captureId, after.captureId, hash);
      hide SumUp, ComparisonId, Metrics.TotalAbsolute, Metrics.TotalSquared, GapSum, SquareSum, LumaSum, Changed,
           ValidDimensions, ValidScale, IsId;
      assert (4 * n) as real == n as real * 4.0;
    }
  }

  // ----- Findings: contrast -----

  /** The luminance of pixel `i`, rounded to the nearest level. */
  function Rounded(pixels: Bytes, i: nat): int
    requires 4 * i + 4 <= |pixels|
  {
    (0.2126 * pixels[4 * i] as real + 0.7152 * pixels[4 * i + 1] as real + 0.0722 * pixels[4 * i + 2] as real
     + 0.5).Floor
  }

  lemma LevelIsRounded(pixels: Bytes, i: nat)
    requires 4 * i + 4 <= |pixels|
    ensures Level(PixelAt(pixels, i)) == Rounded(pixels, i)
  {
  }

  /** Pixels `low` and `high` bound the levels of all `n`. */
  predicate Extremes(pixels: Bytes, n: nat, low: nat, high: nat) {
    && 4 * n <= |pixels| && low < n && high < n
    && forall i | 0 <= i < n :: Rounded(pixels, low) <= Rounded(pixels, i) <= Rounded(pixels, high)
  }

  /** Their distance, as a share of the whole range. */
  function Contrast(pixels: Bytes, n: nat, low: nat, high: nat): real
    requires Extremes(pixels, n, low, high)
  {
    (Rounded(pixels, high) - Rounded(pixels, low)) as real / 255.0
  }

  lemma {:induction false} DarkestIsAttained(pixels: Bytes, n: nat) returns (low: nat)
    requires 0 < n && 4 * n <= |pixels|
    ensures low < n && Darkest(pixels, n) == Level(PixelAt(pixels, low))
    decreases n
  {
    hide Level, PixelAt;
    low := n - 1;
    if n > 1 && Darkest(pixels, n - 1) <= Level(PixelAt(pixels, n - 1)) {
      low := DarkestIsAttained(pixels, n - 1);
    } else if n == 1 {
      assert Darkest(pixels, 0) == 255;
      LevelIsSmall(PixelAt(pixels, 0));
    }
  }

  lemma {:induction false} BrightestIsAttained(pixels: Bytes, n: nat) returns (high: nat)
    requires 0 < n && 4 * n <= |pixels|
    ensures high < n && Brightest(pixels, n) == Level(PixelAt(pixels, high))
    decreases n
  {
    hide Level, PixelAt;
    high := n - 1;
    if n > 1 && Brightest(pixels, n - 1) >= Level(PixelAt(pixels, n - 1)) {
      high := BrightestIsAttained(pixels, n - 1);
    } else if n == 1 {
      assert Brightest(pixels, 0) == 0;
    }
  }

  lemma LevelIsSmall(p: Pixel)
    ensures Level(p) <= 255
  {
  }

  /** The contrast is the distance of the extreme rounded levels. */
  lemma ContrastIsDistance(pixels: Bytes, n: nat) returns (low: nat, high: nat)
    requires 0 < n && 4 * n <= |pixels|
    ensures Extremes(pixels, n, low, high) && LuminanceRange(pixels, n) == Contrast(pixels, n, low, high)
  {
    hide Level, PixelAt, Rounded;
    low := DarkestIsAttained(pixels, n);
    high := BrightestIsAttained(pixels, n);
    forall i | 0 <= i < n ensures Rounded(pixels, low) <= Rounded(pixels, i) <= Rounded(pixels, high) {
      LevelIsRounded(pixels, low);
      LevelIsRounded(pixels, i);
      LevelIsRounded(pixels, high);
    }
    LevelIsRounded(pixels, low);
    LevelIsRounded(pixels, high);
  }

  // ----- Findings: the boundary -----

  /** A pixel on the image's edge with some octet that is not 0. */
  predicate IsEdgePixel(d: Dimensions, pixels: Bytes, x: nat, y: nat) {
    && x < d.width && y < d.height && (x == 0 || y == 0 || x == d.width - 1 || y == d.height - 1)
    && 4 * (y * d.width + x) + 4 <= |pixels|
    && pixels[4 * (y * d.width + x)..4 * (y * d.width + x) + 4] != [0, 0, 0, 0]
  }

  /** Those in the rows before `y` and, in row `y`, before column `x`. */
  ghost function EdgesBefore(d: Dimensions, pixels: Bytes, x: nat, y: nat): set<(nat, nat)> {
    set i: nat, j: nat |
      0 <= i < d.width && 0 <= j < d.height && (j < y || (j == y && i < x)) && IsEdgePixel(d, pixels, i, j)
      :: (i, j)
  }

  ghost function Edges(d: Dimensions, pixels: Bytes): set<(nat, nat)> {
    set i: nat, j: nat | 0 <= i < d.width && 0 <= j < d.height && IsEdgePixel(d, pixels, i, j) :: (i, j)
  }

  lemma TouchIsEdge(d: Dimensions, pixels: Bytes, x: nat, y: nat)
    requires Findings.Fits(d, pixels) && x < d.width && y < d.height
    ensures Touches(d, pixels, x, y) <==> IsEdgePixel(d, pixels, x, y)
  {
    InImage(d, x, y);
    var k := y * d.width + x;
    assert pixels[4 * k..4 * k + 4] == [pixels[4 * k], pixels[4 * k + 1], pixels[4 * k + 2], pixels[4 * k + 3]];
  }

  lemma OneMoreEdge(d: Dimensions, pixels: Bytes, x: nat, y: nat)
    requires x < d.width && y < d.height
    ensures |EdgesBefore(d, pixels, x + 1, y)|
         == |EdgesBefore(d, pixels, x, y)| + if IsEdgePixel(d, pixels, x, y) then 1 else 0
  {
    hide IsEdgePixel;
    var before, after := EdgesBefore(d, pixels, x, y), EdgesBefore(d, pixels, x + 1, y);
    assert (x, y) !in before;
    if IsEdgePixel(d, pixels, x, y) {
      assert after == before + {(x, y)};
    } else {
      assert after == before;
    }
  }

  lemma NextRow(d: Dimensions, pixels: Bytes, y: nat)
    ensures EdgesBefore(d, pixels, d.width, y) == EdgesBefore(d, pixels, 0, y + 1)
    ensures EdgesBefore(d, pixels, 0, 0) == {} && EdgesBefore(d, pixels, 0, d.height) == Edges(d, pixels)
  {
    hide IsEdgePixel;
  }

  lemma {:induction false} RowEdges(d: Dimensions, pixels: Bytes, x: nat, y: nat)
    requires Findings.Fits(d, pixels) && x <= d.width && y < d.height
    ensures |EdgesBefore(d, pixels, x, y)| == |EdgesBefore(d, pixels, 0, y)| + RowTouches(d, pixels, y, x)
    decreases x
  {
    hide EdgesBefore, Touches, IsEdgePixel;
    if x > 0 {
      RowEdges(d, pixels, x - 1, y);
      OneMoreEdge(d, pixels, x - 1, y);
      TouchIsEdge(d, pixels, x - 1, y);
    }
  }

  lemma {:induction false} TouchesAreEdges(d: Dimensions, pixels: Bytes, y: nat)
    requires Findings.Fits(d, pixels) && y <= d.height
    ensures TotalTouches(d, pixels, y) == |EdgesBefore(d, pixels, 0, y)|
    decreases y
  {
    hide EdgesBefore, RowTouches;
    NextRow(d, pixels, 0);
    if y > 0 {
      TouchesAreEdges(d, pixels, y - 1);
      RowEdges(d, pixels, d.width, y - 1);
      NextRow(d, pixels, y - 1);
    }
  }

  // ----- Findings: which there are -----

  /** A finding about the whole image. */
  function About(input: ReviewInput, category: Category, code: Bytes, measurement: Option<real>, hash: Hash): Finding {
    var d := input.image.dimensions;
    Finding(input.captureId + Ascii("-") + hash(code)[..24], category,
            [EvidenceRef(input.captureId, input.image.sha256, EvidenceRegion(0, 0, d.width, d.height))],
            code, measurement)
  }

  /** Every pixel's alpha is 0. */
  ghost predicate IsClear(pixels: Bytes) {
    forall k {:trigger pixels[4 * k + 3]} | 0 <= k && 4 * k + 3 < |pixels| :: pixels[4 * k + 3] == 0
  }

  /** The findings of an image, each by its condition on the octets. */
  ghost function Conditions(input: ReviewInput, contrast: real, hash: Hash): seq<Finding> {
    var pixels, d := input.image.pixels, input.image.dimensions;
    var edges := |Edges(d, pixels)|;
    When(forall k | 0 <= k < |pixels| :: pixels[k] == 0,
         About(input, EmptyCapture, Ascii("empty_capture"), None, hash))
    + When(IsClear(pixels), About(input, EmptyCapture, Ascii("fully_transparent"), Some(0.0), hash))
    + [About(input, ContrastMeasurement, Ascii("contrast_measurement"), Some(contrast), hash)]
    + When(edges > 0, About(input, BoundaryContact, Ascii("boundary_contact"), Some(edges as real), hash))
    + When(input.stale, About(input, StaleCapture, Ascii("stale_capture"), None, hash))
    + When(input.duplicateOf.Some?, About(input, DuplicateCapture, Ascii("duplicate_capture"), None, hash))
    + When(input.expectedDimensions.Some? && input.expectedDimensions.value != d,
         About(input, UnexpectedDimensions, Ascii("unexpected_dimensions"), None, hash))
  }

  lemma FindingIs(input: ReviewInput, category: Category, code: Bytes, measurement: Option<real>, hash: Hash)
    ensures FindingFor(input, category, code, measurement, hash) == About(input, category, code, measurement, hash)
  {
  }

  lemma TransparentIs(pixels: Bytes, n: nat)
    requires |pixels| == 4 * n
    ensures Transparent(pixels, n) <==> IsClear(pixels)
  {
    if Transparent(pixels, n) {
      forall k {:trigger pixels[4 * k + 3]} | 0 <= k && 4 * k + 3 < |pixels| ensures pixels[4 * k + 3] == 0 {
        assert PixelAt(pixels, k).alpha == 0;
      }
    }
    if IsClear(pixels) {
      forall i | 0 <= i < n ensures PixelAt(pixels, i).alpha == 0 {
        assert pixels[4 * i + 3] == 0;
      }
    }
  }

  lemma FoundMatches(input: ReviewInput, contrast: real, hash: Hash)
    requires Findings.Fits(input.image.dimensions, input.image.pixels)
    requires var pixels, d := input.image.pixels, input.image.dimensions;
             && contrast == LuminanceRange(pixels, PixelCount(d))
             && (Transparent(pixels, PixelCount(d)) <==> IsClear(pixels))
             && TotalTouches(d, pixels, d.height) == |Edges(d, pixels)|
    ensures Found(input, hash) == Conditions(input, contrast, hash)
  {
    ghost var pixels := input.image.pixels;
    assert AllZero(pixels) <==> forall k | 0 <= k < |pixels| :: pixels[k] == 0;
    hide Transparent, IsClear, LuminanceRange, TotalTouches, PixelCount, FindingFor, About, When, Edges, AllZero;
    FindingIs(input, EmptyCapture, Ascii("empty_capture"), None, hash);
    FindingIs(input, EmptyCapture, Ascii("fully_transparent"), Some(0.0), hash);
    FindingIs(input, ContrastMeasurement, Ascii("contrast_measurement"), Some(contrast), hash);
    FindingIs(input, BoundaryContact, Ascii("boundary_contact"),
              Some(|Edges(input.image.dimensions, input.image.pixels)| as real), hash);
    FindingIs(input, StaleCapture, Ascii("stale_capture"), None, hash);
    FindingIs(input, DuplicateCapture, Ascii("duplicate_capture"), None, hash);
    FindingIs(input, UnexpectedDimensions, Ascii("unexpected_dimensions"), None, hash);
  }

  /** Exactly these findings, in this order, with the contrast of two pixels that
      bound all others. */
  lemma FoundByConditions(input: ReviewInput, hash: Hash) returns (low: nat, high: nat)
    requires ValidInput(input)
    ensures var pixels, n := input.image.pixels, PixelCount(input.image.dimensions);
            && Extremes(pixels, n, low, high)
            && Found(input, hash) == Conditions(input, Contrast(pixels, n, low, high), hash)
  {
    var pixels, d := input.image.pixels, input.image.dimensions;
    SomePixels(d);
    low, high := ContrastIsDistance(pixels, PixelCount(d));
    TransparentIs(pixels, PixelCount(d));
    TouchesAreEdges(d, pixels, d.height);
    NextRow(d, pixels, 0);
    hide Transparent, IsClear, LuminanceRange, TotalTouches, PixelCount, Edges, EdgesBefore, Extremes, Contrast, IsId,
         ValidDimensions, ValidScale, Conditions, Found;
    FoundMatches(input, LuminanceRange(pixels, PixelCount(d)), hash);
  }
}
