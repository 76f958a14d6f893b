/** Before/after comparison over exact reals. Floating-point rounding is not
    modelled, and `rms_difference` is represented by its square. */
module Compare {
  import opened Bytes
  import opened Manifest
  import Png

  const MAX_REVIEW_PIXELS := 100_000_000

  type Image = Png.DecodedPng

  type Pixel = Png.Pixel

  datatype ReviewInput = ReviewInput(
    captureId: Bytes, image: Image, scale: Scale, stale: bool, duplicateOf: Option<Bytes>,
    expectedDimensions: Option<Dimensions>)

  datatype ReviewError = InvalidInput | IncompatibleDimensions | IncompatibleScale

  predicate ValidInput(input: ReviewInput) {
    && IsId(input.captureId) && ValidDimensions(input.image.dimensions) && ValidScale(input.scale)
    && PixelCount(input.image.dimensions) * 4 <= MAX_REVIEW_PIXELS * 4
    && |input.image.pixels| == PixelCount(input.image.dimensions) * 4
    && (input.expectedDimensions.Some? ==> ValidDimensions(input.expectedDimensions.value))
    && (input.duplicateOf.Some? ==> input.duplicateOf.value != [] && input.duplicateOf.value != input.captureId)
  }

  // ----- One pixel -----

  function PixelAt(pixels: Bytes, i: nat): Pixel
    requires 4 * i + 4 <= |pixels|
  {
    Png.Pixel(pixels[4 * i], pixels[4 * i + 1], pixels[4 * i + 2], pixels[4 * i + 3])
  }

  function Magnitude(x: real): real {
    if x < 0.0 then -x else x
  }

  function Difference(x: byte, y: byte): real {
    Magnitude(x as real - y as real) / 255.0
  }

  function Square(x: real): real {
    x * x
  }

  function Luma(p: Pixel): real {
    0.2126 * p.red as real + 0.7152 * p.green as real + 0.0722 * p.blue as real
  }

  /** What the loop accumulates. */
  datatype Sums = Sums(changed: nat, absolute: real, squared: real, luminance: real)

  function AddChannel(s: Sums, x: byte, y: byte): Sums {
    var d := Difference(x, y);
    s.(absolute := s.absolute + d, squared := s.squared + Square(d))
  }

  function Channel(p: Pixel, k: nat): byte
    requires k < 4
  {
    if k == 0 then p.red else if k == 1 then p.green else if k == 2 then p.blue else p.alpha
  }

  function AddChannels(s: Sums, p: Pixel, q: Pixel, k: nat): Sums
    requires k <= 4
  {
    if k == 0 then s else AddChannel(AddChannels(s, p, q, k - 1), Channel(p, k - 1), Channel(q, k - 1))
  }

  function LumaDifference(p: Pixel, q: Pixel): real {
    Magnitude(Luma(p) - Luma(q)) / 255.0
  }

  function AddPixel(s: Sums, p: Pixel, q: Pixel): Sums {
    var t := AddChannels(s.(changed := s.changed + if p != q then 1 else 0), p, q, 4);
    t.(luminance := t.luminance + LumaDifference(p, q))
  }

  function SumUp(a: Bytes, b: Bytes, n: nat): Sums
    requires 4 * n <= |a| && 4 * n <= |b|
  {
    if n == 0 then Sums(0, 0.0, 0.0, 0.0) else AddPixel(SumUp(a, b, n - 1), PixelAt(a, n - 1), PixelAt(b, n - 1))
  }

  // ----- The comparison -----

  function StableId(prefix: Bytes, value: Bytes, hash: Hash): Bytes {
    prefix + Ascii("-") + hash(value)[..24]
  }

  function ComparisonId(before: Bytes, after: Bytes, hash: Hash): Bytes {
    StableId(Ascii("comparison"), before + Ascii(":") + after, hash)
  }

  function Record(before: ReviewInput, after: ReviewInput, sums: Sums, hash: Hash): Comparison
    requires PixelCount(before.image.dimensions) > 0
  {
    var pixels := PixelCount(before.image.dimensions) as real;
    Comparison(ComparisonId(before.captureId, after.captureId, hash), before.captureId, after.captureId,
               before.image.dimensions, true, sums.changed, sums.changed as real / pixels,
               sums.absolute / (pixels * 4.0), sums.squared / (pixels * 4.0), Some(sums.luminance / pixels))
  }

  lemma SomePixels(d: Dimensions)
    requires ValidDimensions(d)
    ensures PixelCount(d) > 0
  {
    MorePixels(d.width, d.height);
  }

  lemma MorePixels(w: nat, h: nat)
    requires w > 0 && h > 0
    ensures w * h > 0
  {
  }

  function Compared(before: ReviewInput, after: ReviewInput, hash: Hash): Result<Comparison, ReviewError> {
    if !ValidInput(before) || !ValidInput(after) then Err(InvalidInput)
    else if before.image.dimensions != after.image.dimensions then Err(IncompatibleDimensions)
    else if before.scale != after.scale then Err(IncompatibleScale)
    else
      var n := PixelCount(before.image.dimensions);
      SomePixels(before.image.dimensions);
      Ok(Record(before, after, SumUp(before.image.pixels, after.image.pixels, n), hash))
  }

  method Compare(before: ReviewInput, after: ReviewInput, hash: Hash) returns (r: Result<Comparison, ReviewError>)
    ensures r == Compared(before, after, hash)
  {
    if !ValidInput(before) || !ValidInput(after) {
      return Err(InvalidInput);
    }
    if before.image.dimensions != after.image.dimensions {
      return Err(IncompatibleDimensions);
    }
    if before.scale != after.scale {
      return Err(IncompatibleScale);
    }
    SomePixels(before.image.dimensions);
    var left, right := before.image.pixels, after.image.pixels;
    var count := PixelCount(before.image.dimensions);
    hide Record, ValidInput, AddPixel, AddChannel, LumaDifference;
    var sums := Sums(0, 0.0, 0.0, 0.0);
    for i := 0 to count
      invariant sums == SumUp(left, right, i)
    {
      sums := Accumulate(sums, PixelAt(left, i), PixelAt(right, i));
    }
    r := Ok(Record(before, after, sums, hash));
  }

  method Accumulate(sums: Sums, p: Pixel, q: Pixel) returns (r: Sums)
    ensures r == AddPixel(sums, p, q)
  {
    hide LumaDifference, Difference, Square, Channel;
    r := sums;
    if p != q {
      r := r.(changed := r.changed + 1);
    }
    ghost var start := r;
    for channel := 0 to 4
      invariant r == AddChannels(start, p, q, channel)
    {
      var difference := Difference(Channel(p, channel), Channel(q, channel));
      r := r.(absolute := r.absolute + difference, squared := r.squared + Square(difference));
    }
    r := r.(luminance := r.luminance + LumaDifference(p, q));
  }
}
