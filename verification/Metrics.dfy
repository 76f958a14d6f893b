/** What the comparison metrics promise. */
module Metrics {
  import opened Bytes
  import opened Manifest
  import opened Compare

  // ----- Sums over octets -----

  function TotalAbsolute(a: Bytes, b: Bytes, m: nat): real
    requires m <= |a| && m <= |b|
  {
    if m == 0 then 0.0 else TotalAbsolute(a, b, m - 1) + Difference(a[m - 1], b[m - 1])
  }

  function TotalSquared(a: Bytes, b: Bytes, m: nat): real
    requires m <= |a| && m <= |b|
  {
    if m == 0 then 0.0 else TotalSquared(a, b, m - 1) + Square(Difference(a[m - 1], b[m - 1]))
  }

  lemma FourChannels(s: Sums, p: Pixel, q: Pixel)
    ensures AddChannels(s, p, q, 4)
         == Sums(s.changed,
                 s.absolute + Difference(p.red, q.red) + Difference(p.green, q.green) + Difference(p.blue, q.blue)
                 + Difference(p.alpha, q.alpha),
                 s.squared + Square(Difference(p.red, q.red)) + Square(Difference(p.green, q.green))
                 + Square(Difference(p.blue, q.blue)) + Square(Difference(p.alpha, q.alpha)),
                 s.luminance)
  {
    hide Difference, Square;
    var s1 := AddChannels(s, p, q, 1);
    var s2 := AddChannels(s, p, q, 2);
    var s3 := AddChannels(s, p, q, 3);
    assert AddChannels(s, p, q, 0) == s;
    assert s1 == AddChannel(s, p.red, q.red);
    assert s2 == AddChannel(s1, p.green, q.green);
    assert s3 == AddChannel(s2, p.blue, q.blue);
  }

  lemma FourOctets(a: Bytes, b: Bytes, n: nat)
    requires 4 * n + 4 <= |a| && 4 * n + 4 <= |b|
    ensures var p, q := PixelAt(a, n), PixelAt(b, n);
            && TotalAbsolute(a, b, 4 * n + 4)
               == TotalAbsolute(a, b, 4 * n) + Difference(p.red, q.red) + Difference(p.green, q.green)
                  + Difference(p.blue, q.blue) + Difference(p.alpha, q.alpha)
            && TotalSquared(a, b, 4 * n + 4)
               == TotalSquared(a, b, 4 * n) + Square(Difference(p.red, q.red)) + Square(Difference(p.green, q.green))
                  + Square(Difference(p.blue, q.blue)) + Square(Difference(p.alpha, q.alpha))
  {
    hide Difference, Square;
    var k := 4 * n;
    assert TotalAbsolute(a, b, k + 1) == TotalAbsolute(a, b, k) + Difference(a[k], b[k]);
    assert TotalAbsolute(a, b, k + 2) == TotalAbsolute(a, b, k + 1) + Difference(a[k + 1], b[k + 1]);
    assert TotalAbsolute(a, b, k + 3) == TotalAbsolute(a, b, k + 2) + Difference(a[k + 2], b[k + 2]);
    assert TotalSquared(a, b, k + 1) == TotalSquared(a, b, k) + Square(Difference(a[k], b[k]));
    assert TotalSquared(a, b, k + 2) == TotalSquared(a, b, k + 1) + Square(Difference(a[k + 1], b[k + 1]));
    assert TotalSquared(a, b, k + 3) == TotalSquared(a, b, k + 2) + Square(Difference(a[k + 2], b[k + 2]));
  }

  /** The nested loops sum over all octets. */
  lemma {:induction false} SumsAreFlat(a: Bytes, b: Bytes, n: nat)
    requires 4 * n <= |a| && 4 * n <= |b|
    ensures SumUp(a, b, n).absolute == TotalAbsolute(a, b, 4 * n)
    ensures SumUp(a, b, n).squared == TotalSquared(a, b, 4 * n)
    decreases n
  {
    if n > 0 {
      SumsAreFlat(a, b, n - 1);
      FourOctets(a, b, n - 1);
      var s := SumUp(a, b, n - 1);
      var p, q := PixelAt(a, n - 1), PixelAt(b, n - 1);
      FourChannels(s.(changed := s.changed + if p != q then 1 else 0), p, q);
      hide Difference, Square, AddChannels, LumaDifference, TotalAbsolute, TotalSquared;
    }
  }

  // ----- One octet -----

  lemma DifferenceFacts(x: byte, y: byte)
    ensures 0.0 <= Difference(x, y) <= 1.0 && Difference(x, y) == Difference(y, x)
    ensures x == y ==> Difference(x, y) == 0.0
    ensures x != y ==> 255.0 * Difference(x, y) >= 1.0
  {
    assert 0.0 <= x as real <= 255.0 && 0.0 <= y as real <= 255.0;
    if x < y {
      assert y as real - x as real == (y - x) as real;
    } else if y < x {
      assert x as real - y as real == (x - y) as real;
    }
  }

  lemma DifferenceTriangle(x: byte, y: byte, z: byte)
    ensures Difference(x, z) <= Difference(x, y) + Difference(y, z)
  {
  }

  lemma SquareFacts(d: real)
    requires 0.0 <= d <= 1.0
    ensures 0.0 <= Square(d) <= d
  {
    Product(d, 1.0 - d);
    assert d * (1.0 - d) == d - d * d;
  }

  lemma {:induction false} TotalFacts(a: Bytes, b: Bytes, m: nat)
    requires m <= |a| && m <= |b|
    ensures 0.0 <= TotalSquared(a, b, m) <= TotalAbsolute(a, b, m) <= m as real
    ensures TotalSquared(a, b, m) == TotalSquared(b, a, m) && TotalAbsolute(a, b, m) == TotalAbsolute(b, a, m)
  {
    if m > 0 {
      TotalFacts(a, b, m - 1);
      DifferenceFacts(a[m - 1], b[m - 1]);
      SquareFacts(Difference(a[m - 1], b[m - 1]));
      hide Difference, Square;
    }
  }

  lemma {:induction false} TotalTriangle(a: Bytes, b: Bytes, c: Bytes, m: nat)
    requires m <= |a| && m <= |b| && m <= |c|
    ensures TotalAbsolute(a, c, m) <= TotalAbsolute(a, b, m) + TotalAbsolute(b, c, m)
  {
    if m > 0 {
      TotalTriangle(a, b, c, m - 1);
      DifferenceTriangle(a[m - 1], b[m - 1], c[m - 1]);
      hide Difference;
    }
  }

  lemma Product(x: real, y: real)
    requires x >= 0.0 && y >= 0.0
    ensures x * y >= 0.0
    ensures x > 0.0 && y > 0.0 ==> x * y > 0.0
  {
  }

  lemma Cancel(k: real, x: real, y: real)
    requires k > 0.0 && k * x <= k * y
    ensures x <= y
  {
  }

  /** One step of the Cauchy-Schwarz inequality. */
  lemma MeanStep(s: real, q: real, x: real, n: real)
    requires n >= 0.0 && q >= 0.0 && s * s <= n * q
    requires n == 0.0 ==> s == 0.0
    ensures (s + x) * (s + x) <= (n + 1.0) * (q + x * x)
  {
    var gap := q + n * (x * x) - 2.0 * (s * x);
    if n == 0.0 {
      assert gap == q;
    } else {
      var root := s - n * x;
      assert root * root >= 0.0;
      assert root * root == s * s - 2.0 * n * (s * x) + n * n * (x * x);
      assert n * gap == n * q + n * n * (x * x) - 2.0 * n * (s * x);
      assert n * 0.0 <= n * gap;
      Cancel(n, 0.0, gap);
    }
    assert (s + x) * (s + x) == s * s + 2.0 * (s * x) + x * x;
    assert (n + 1.0) * (q + x * x) == n * q + q + n * (x * x) + x * x;
  }

  lemma {:induction false} CauchySchwarz(a: Bytes, b: Bytes, m: nat)
    requires m <= |a| && m <= |b|
    ensures TotalAbsolute(a, b, m) * TotalAbsolute(a, b, m) <= m as real * TotalSquared(a, b, m)
  {
    if m > 0 {
      CauchySchwarz(a, b, m - 1);
      TotalFacts(a, b, m - 1);
      var d := Difference(a[m - 1], b[m - 1]);
      var s, q := TotalAbsolute(a, b, m - 1), TotalSquared(a, b, m - 1);
      assert TotalAbsolute(a, b, m) == s + d && TotalSquared(a, b, m) == q + d * d;
      hide *;
      MeanStep(s, q, d, (m - 1) as real);
      assert (m - 1) as real + 1.0 == m as real;
    }
  }

  // ----- One pixel -----

  function Octets(p: Pixel, q: Pixel): real {
    Difference(p.red, q.red) + Difference(p.green, q.green) + Difference(p.blue, q.blue) + Difference(p.alpha, q.alpha)
  }

  lemma PixelFacts(p: Pixel, q: Pixel)
    ensures 0.0 <= LumaDifference(p, q) <= Octets(p, q)
    ensures LumaDifference(p, q) <= 1.0 && Octets(p, q) <= 4.0
    ensures LumaDifference(p, q) == LumaDifference(q, p)
    ensures p == q ==> Octets(p, q) == 0.0
    ensures p != q ==> 255.0 * Octets(p, q) >= 1.0
  {
    DifferenceFacts(p.red, q.red);
    DifferenceFacts(p.green, q.green);
    DifferenceFacts(p.blue, q.blue);
    DifferenceFacts(p.alpha, q.alpha);
    LumaFacts(p, q);
    hide Difference, LumaDifference;
  }

  lemma LumaFacts(p: Pixel, q: Pixel)
    ensures 0.0 <= LumaDifference(p, q) == LumaDifference(q, p)
    ensures LumaDifference(p, q)
         <= 0.2126 * Difference(p.red, q.red) + 0.7152 * Difference(p.green, q.green)
             + 0.0722 * Difference(p.blue, q.blue)
  {
  }

  lemma LumaTriangle(p: Pixel, q: Pixel, r: Pixel)
    ensures LumaDifference(p, r) <= LumaDifference(p, q) + LumaDifference(q, r)
  {
    hide Luma;
  }

  predicate Ordered(s: Sums, n: nat) {
    && s.changed <= n && 0.0 <= s.luminance <= s.changed as real
    && 0.0 <= s.absolute <= 4.0 * s.changed as real
    && s.changed as real <= 255.0 * s.absolute
  }

  lemma {:induction false} SumsAreOrdered(a: Bytes, b: Bytes, n: nat)
    requires 4 * n <= |a| && 4 * n <= |b|
    ensures Ordered(SumUp(a, b, n), n)
  {
    if n > 0 {
      SumsAreOrdered(a, b, n - 1);
      var s := SumUp(a, b, n - 1);
      var p, q := PixelAt(a, n - 1), PixelAt(b, n - 1);
      FourChannels(s.(changed := s.changed + if p != q then 1 else 0), p, q);
      PixelFacts(p, q);
      hide LumaDifference, Difference, Square, AddChannels;
      if p == q {
        assert LumaDifference(p, q) == 0.0;
      }
    }
  }

  /** No pixel changed exactly when the octets are equal. */
  lemma {:induction false} UnchangedIsEqual(a: Bytes, b: Bytes, n: nat)
    requires 4 * n <= |a| && 4 * n <= |b|
    ensures SumUp(a, b, n).changed == 0 <==> a[..4 * n] == b[..4 * n]
  {
    if n > 0 {
      UnchangedIsEqual(a, b, n - 1);
      var s := SumUp(a, b, n - 1);
      var p, q := PixelAt(a, n - 1), PixelAt(b, n - 1);
      FourChannels(s.(changed := s.changed + if p != q then 1 else 0), p, q);
      hide LumaDifference, Difference, Square, AddChannels;
      LastFour(a, b, n - 1);
    }
  }

  lemma LastFour(a: Bytes, b: Bytes, n: nat)
    requires 4 * n + 4 <= |a| && 4 * n + 4 <= |b|
    ensures a[..4 * n + 4] == b[..4 * n + 4] <==> a[..4 * n] == b[..4 * n] && PixelAt(a, n) == PixelAt(b, n)
  {
    var k := 4 * n;
    assert a[..k + 4] == a[..k] + [a[k], a[k + 1], a[k + 2], a[k + 3]];
    assert b[..k + 4] == b[..k] + [b[k], b[k + 1], b[k + 2], b[k + 3]];
    if a[..k + 4] == b[..k + 4] {
      assert a[..k] == a[..k + 4][..k] && b[..k] == b[..k + 4][..k];
      assert a[..k + 4][k] == b[..k + 4][k] && a[..k + 4][k + 1] == b[..k + 4][k + 1];
      assert a[..k + 4][k + 2] == b[..k + 4][k + 2] && a[..k + 4][k + 3] == b[..k + 4][k + 3];
    }
  }

  lemma {:induction false} SumsAreSymmetric(a: Bytes, b: Bytes, n: nat)
    requires 4 * n <= |a| && 4 * n <= |b|
    ensures SumUp(a, b, n).changed == SumUp(b, a, n).changed
    ensures SumUp(a, b, n).luminance == SumUp(b, a, n).luminance
  {
    if n > 0 {
      SumsAreSymmetric(a, b, n - 1);
      var s, t := SumUp(a, b, n - 1), SumUp(b, a, n - 1);
      var p, q := PixelAt(a, n - 1), PixelAt(b, n - 1);
      var one := if p != q then 1 else 0;
      FourChannels(s.(changed := s.changed + one), p, q);
      FourChannels(t.(changed := t.changed + one), q, p);
      PixelFacts(p, q);
      hide LumaDifference, Difference, Square, AddChannels;
    }
  }

  lemma {:induction false} SumsTriangle(a: Bytes, b: Bytes, c: Bytes, n: nat)
    requires 4 * n <= |a| && 4 * n <= |b| && 4 * n <= |c|
    ensures SumUp(a, c, n).changed <= SumUp(a, b, n).changed + SumUp(b, c, n).changed
    ensures SumUp(a, c, n).luminance <= SumUp(a, b, n).luminance + SumUp(b, c, n).luminance
  {
    if n > 0 {
      SumsTriangle(a, b, c, n - 1);
      var p, q, r := PixelAt(a, n - 1), PixelAt(b, n - 1), PixelAt(c, n - 1);
      PixelAdds(SumUp(a, c, n - 1), p, r);
      PixelAdds(SumUp(a, b, n - 1), p, q);
      PixelAdds(SumUp(b, c, n - 1), q, r);
      LumaTriangle(p, q, r);
      hide LumaDifference, AddPixel;
    }
  }

  lemma PixelAdds(s: Sums, p: Pixel, q: Pixel)
    ensures AddPixel(s, p, q).changed == s.changed + (if p != q then 1 else 0)
    ensures AddPixel(s, p, q).luminance == s.luminance + LumaDifference(p, q)
  {
    FourChannels(s.(changed := s.changed + if p != q then 1 else 0), p, q);
  }

  // ----- The record -----

  lemma Divide(x: real, y: real, n: real)
    requires n > 0.0 && x <= y
    ensures x / n <= y / n
  {
  }

  lemma DivideSum(x: real, y: real, n: real)
    requires n > 0.0
    ensures (x + y) / n == x / n + y / n
  {
  }

  /** The square of a mean is at most the mean of the squares. */
  lemma MeanOfSquares(s: real, q: real, n: real)
    requires n > 0.0 && s * s <= n * q
    ensures (s / n) * (s / n) <= q / n
  {
    var m, r := s / n, q / n;
    assert s == m * n && q == r * n;
    var x := m * m;
    assert n * (n * x) == s * s;
    assert n * (n * r) == n * q;
    Cancel(n, n * x, n * r);
    Cancel(n, x, r);
  }

  /** What the record reports about one pair of images. */
  ghost predicate Reports(c: Comparison, before: ReviewInput, after: ReviewInput) {
    && c.perceptual.Some?
    && c.changedPixels <= PixelCount(before.image.dimensions)
    && (c.changedPixels == 0 <==> before.image.pixels == after.image.pixels)
    && 0.0 <= c.meanDifference * c.meanDifference <= c.meanSquare <= c.meanDifference
    && c.meanDifference <= c.changedFraction <= 1.0 && c.changedFraction <= 1020.0 * c.meanDifference
    && 0.0 <= c.perceptual.value <= c.changedFraction
  }

  lemma SumsReport(a: Bytes, b: Bytes, n: nat)
    requires n > 0 && 4 * n <= |a| && 4 * n <= |b|
    ensures var s, m := SumUp(a, b, n), 4.0 * n as real;
            && Ordered(s, n) && 0.0 <= s.squared <= s.absolute && s.absolute * s.absolute <= m * s.squared
  {
    hide TotalAbsolute, TotalSquared, SumUp, Ordered;
    SumsAreOrdered(a, b, n);
    SumsAreFlat(a, b, n);
    TotalFacts(a, b, 4 * n);
    CauchySchwarz(a, b, 4 * n);
    var q := TotalSquared(a, b, 4 * n);
    assert ((4 * n) as real) * q == (4.0 * n as real) * q;
  }

  lemma Quotient(x: real, q: real, n: real)
    requires n > 0.0 && x == q * n
    ensures x / n == q
  {
  }

  /** A mean over four channels, seen as a quotient over pixels. */
  lemma Quarter(x: real, p: real)
    requires p > 0.0
    ensures (x / 4.0) / p == x / (p * 4.0) && (255.0 * x) / p == 1020.0 * (x / (p * 4.0))
  {
    var n := p * 4.0;
    var q := x / n;
    assert x == q * n;
    assert x / 4.0 == q * p;
    Quotient(x / 4.0, q, p);
    assert 255.0 * x == (1020.0 * q) * p;
    Quotient(255.0 * x, 1020.0 * q, p);
  }

  lemma MeansAreOrdered(absolute: real, squared: real, m: real)
    requires m > 0.0 && 0.0 <= squared <= absolute && absolute * absolute <= m * squared
    ensures 0.0 <= absolute / m && (absolute / m) * (absolute / m) <= squared / m <= absolute / m
  {
    MeanOfSquares(absolute, squared, m);
    Divide(squared, absolute, m);
    Divide(0.0, absolute, m);
  }

  lemma FractionsAreOrdered(changed: real, absolute: real, p: real)
    requires p > 0.0 && 0.0 <= absolute <= 4.0 * changed && changed <= p && changed <= 255.0 * absolute
    ensures absolute / (p * 4.0) <= changed / p <= 1.0 && changed / p <= 1020.0 * (absolute / (p * 4.0))
  {
    Quarter(absolute, p);
    Divide(absolute / 4.0, changed, p);
    Divide(changed, p, p);
    Quotient(p, 1.0, p);
    Divide(changed, 255.0 * absolute, p);
  }

  /** The quotients of ordered sums are ordered. */
  lemma QuotientsAreOrdered(s: Sums, n: nat)
    requires n > 0 && Ordered(s, n) && 0.0 <= s.squared <= s.absolute
    requires s.absolute * s.absolute <= (4.0 * n as real) * s.squared
    ensures var pixels := n as real;
            var mean, square := s.absolute / (pixels * 4.0), s.squared / (pixels * 4.0);
            var fraction, perceptual := s.changed as real / pixels, s.luminance / pixels;
            && 0.0 <= mean * mean <= square <= mean && mean <= fraction <= 1.0 && fraction <= 1020.0 * mean
            && 0.0 <= perceptual <= fraction
  {
    var p, c := n as real, s.changed as real;
    MeansAreOrdered(s.absolute, s.squared, p * 4.0);
    FractionsAreOrdered(c, s.absolute, p);
    Divide(s.luminance, c, p);
    Divide(0.0, s.luminance, p);
    Product(s.absolute / (p * 4.0), s.absolute / (p * 4.0));
  }

  /** Mean squared <= mean of squares <= mean <= changed fraction <= 1020 means;
      perceptual distance <= changed fraction; and nothing changed exactly when
      the two images are the same octets. */
  lemma MetricsAreOrdered(before: ReviewInput, after: ReviewInput, hash: Hash)
    requires Compared(before, after, hash).Ok?
    ensures Reports(Compared(before, after, hash).value, before, after)
  {
    hide SumUp, ComparisonId, PixelCount, Ordered, IsId, ValidDimensions, ValidScale;
    var n := PixelCount(before.image.dimensions);
    var a, b := before.image.pixels, after.image.pixels;
    SomePixels(before.image.dimensions);
    SumsReport(a, b, n);
    QuotientsAreOrdered(SumUp(a, b, n), n);
    UnchangedIsEqual(a, b, n);
    assert a[..4 * n] == a && b[..4 * n] == b;
    assert SumUp(a, b, n).changed <= n by { OrderedIsBounded(SumUp(a, b, n), n); }
  }

  lemma OrderedIsBounded(s: Sums, n: nat)
    requires Ordered(s, n)
    ensures s.changed <= n
  {
  }

  /** Swapping the images swaps the two IDs and changes no metric. */
  lemma MetricsAreSymmetric(before: ReviewInput, after: ReviewInput, hash: Hash)
    requires Compared(before, after, hash).Ok?
    ensures Compared(after, before, hash).Ok?
    ensures Compared(after, before, hash).value
         == Compared(before, after, hash).value.(
              comparisonId := ComparisonId(after.captureId, before.captureId, hash),
              beforeCaptureId := after.captureId, afterCaptureId := before.captureId)
  {
    var n := PixelCount(before.image.dimensions);
    var a, b := before.image.pixels, after.image.pixels;
    SomePixels(before.image.dimensions);
    SumsAreSymmetric(a, b, n);
    SumsAreFlat(a, b, n);
    SumsAreFlat(b, a, n);
    TotalFacts(a, b, 4 * n);
    hide SumUp, ComparisonId, PixelCount, TotalAbsolute, TotalSquared, ValidDimensions, ValidScale, IsId;
  }

  lemma QuotientsTriangle(s: Sums, t: Sums, u: Sums, n: real)
    requires n > 0.0
    requires u.absolute <= s.absolute + t.absolute && u.luminance <= s.luminance + t.luminance
    requires u.changed <= s.changed + t.changed
    ensures u.absolute / (n * 4.0) <= s.absolute / (n * 4.0) + t.absolute / (n * 4.0)
    ensures u.luminance / n <= s.luminance / n + t.luminance / n
    ensures u.changed as real / n <= s.changed as real / n + t.changed as real / n
  {
    var m := n * 4.0;
    Divide(u.absolute, s.absolute + t.absolute, m);
    DivideSum(s.absolute, t.absolute, m);
    Divide(u.luminance, s.luminance + t.luminance, n);
    DivideSum(s.luminance, t.luminance, n);
    Divide(u.changed as real, s.changed as real + t.changed as real, n);
    DivideSum(s.changed as real, t.changed as real, n);
  }

  /** Changed fraction, mean difference and perceptual distance obey the
      triangle inequality over any three comparable images. */
  lemma MetricsObeyTriangle(x: ReviewInput, y: ReviewInput, z: ReviewInput, hash: Hash)
    requires Compared(x, y, hash).Ok? && Compared(y, z, hash).Ok?
    ensures Compared(x, z, hash).Ok?
    ensures var xy, yz, xz := Compared(x, y, hash).value, Compared(y, z, hash).value, Compared(x, z, hash).value;
            && xz.meanDifference <= xy.meanDifference + yz.meanDifference
            && xz.changedFraction <= xy.changedFraction + yz.changedFraction
            && xz.perceptual.value <= xy.perceptual.value + yz.perceptual.value
  {
    var n := PixelCount(x.image.dimensions);
    var a, b, c := x.image.pixels, y.image.pixels, z.image.pixels;
    SomePixels(x.image.dimensions);
    SumsTriangle(a, b, c, n);
    SumsAreFlat(a, b, n);
    SumsAreFlat(b, c, n);
    SumsAreFlat(a, c, n);
    TotalTriangle(a, b, c, 4 * n);
    hide SumUp, ComparisonId, PixelCount, TotalAbsolute, TotalSquared, ValidDimensions, ValidScale, IsId;
    QuotientsTriangle(SumUp(a, b, n), SumUp(b, c, n), SumUp(a, c, n), n as real);
  }

  // ----- The root-mean-square metric -----

  lemma SquaresOrdered(x: real, y: real)
    requires 0.0 <= x <= y
    ensures x * x <= y * y
  {
    Product(y - x, y + x);
    assert (y - x) * (y + x) == y * y - x * x;
  }

  predicate Weights(r: real, s: real, w: real, u: real, v: real) {
    0.0 <= r && 0.0 <= s && w == r * s && u == s * (r + s) && v == r * (r + s)
  }

  predicate Balanced(w: real, u: real, v: real, x: real, y: real, z: real) {
    w * z <= u * x + v * y
  }

  /** One octet of Minkowski's inequality: what is left over is a square. */
  lemma WeighedOctet(d: real, e: real, f: real, r: real, s: real, w: real, u: real, v: real)
    requires 0.0 <= d && 0.0 <= e && 0.0 <= f <= d + e && Weights(r, s, w, u, v)
    ensures Balanced(w, u, v, Square(d), Square(e), Square(f))
  {
    var sum := d + e;
    SquaresOrdered(f, sum);
    Product(r, s);
    Product(w, sum * sum - f * f);
    assert w * (sum * sum - f * f) == w * (sum * sum) - w * (f * f);
    var g := s * d - r * e;
    assert g * g >= 0.0;
    assert (s * (r + s)) * (d * d) + (r * (r + s)) * (e * e) - (r * s) * (sum * sum) == g * g;
  }

  lemma BalancedSum(w: real, u: real, v: real, x: real, y: real, z: real, d: real, e: real, f: real)
    requires Balanced(w, u, v, x, y, z) && Balanced(w, u, v, d, e, f)
    ensures Balanced(w, u, v, x + d, y + e, z + f)
  {
  }

  lemma NothingIsBalanced(w: real, u: real, v: real)
    ensures Balanced(w, u, v, 0.0, 0.0, 0.0)
  {
  }

  lemma {:induction false} WeighedTotals(a: Bytes, b: Bytes, c: Bytes, m: nat, r: real, s: real, w: real, u: real,
                                         v: real)
    requires m <= |a| && m <= |b| && m <= |c| && Weights(r, s, w, u, v)
    ensures Balanced(w, u, v, TotalSquared(a, b, m), TotalSquared(b, c, m), TotalSquared(a, c, m))
    decreases m
  {
    hide Weights, Balanced, Square, Difference;
    if m == 0 {
      NothingIsBalanced(w, u, v);
    } else {
      WeighedTotals(a, b, c, m - 1, r, s, w, u, v);
      DifferenceTriangle(a[m - 1], b[m - 1], c[m - 1]);
      DifferenceFacts(a[m - 1], b[m - 1]);
      DifferenceFacts(b[m - 1], c[m - 1]);
      DifferenceFacts(a[m - 1], c[m - 1]);
      var d, e, f := Difference(a[m - 1], b[m - 1]), Difference(b[m - 1], c[m - 1]), Difference(a[m - 1], c[m - 1]);
      WeighedOctet(d, e, f, r, s, w, u, v);
      BalancedSum(w, u, v, TotalSquared(a, b, m - 1), TotalSquared(b, c, m - 1), TotalSquared(a, c, m - 1),
                  Square(d), Square(e), Square(f));
    }
  }

  lemma PositiveSquare(d: real)
    requires 0.0 < d
    ensures 0.0 < Square(d)
  {
    Quotient(Square(d), d, d);
    assert Square(d) / d == d && 0.0 / d == 0.0;
  }

  /** Octets whose squared differences sum to nothing are the same. */
  lemma {:induction false} NothingBetween(a: Bytes, b: Bytes, c: Bytes, m: nat)
    requires m <= |a| && m <= |b| && m <= |c| && TotalSquared(a, b, m) == 0.0
    ensures TotalSquared(a, c, m) == TotalSquared(b, c, m)
    decreases m
  {
    hide Square, Difference;
    if m > 0 {
      var d := Difference(a[m - 1], b[m - 1]);
      TotalFacts(a, b, m - 1);
      DifferenceFacts(a[m - 1], b[m - 1]);
      SquareFacts(d);
      if a[m - 1] != b[m - 1] {
        PositiveSquare(d);
      }
      NothingBetween(a, b, c, m - 1);
    }
  }

  /** `root` is the root of the mean of `total` over `m`. */
  predicate IsRoot(root: real, total: real, m: real) {
    0.0 <= root && 0.0 < m && total == (root * root) * m
  }

  lemma Weighed(x: real, a: real, b: real, m: real, r: real, s: real, w: real, u: real, v: real)
    requires 0.0 < r && 0.0 < s && IsRoot(r, a, m) && IsRoot(s, b, m)
    requires Weights(r, s, w, u, v) && Balanced(w, u, v, a, b, x)
    ensures x / m <= (r + s) * (r + s)
  {
    var y := (r + s) * (r + s);
    assert (s * (r + s)) * ((r * r) * m) + (r * (r + s)) * ((s * s) * m) == (r * s) * (y * m);
    Product(r, s);
    Cancel(w, x, y * m);
    Divide(x, y * m, m);
    Quotient(y * m, y, m);
  }

  lemma RootOfNothing(root: real, total: real, m: real)
    requires IsRoot(root, total, m)
    ensures root == 0.0 ==> total == 0.0
    ensures total / m == root * root
  {
    Quotient(total, root * root, m);
  }

  /** Minkowski's inequality for the sums over all octets. */
  lemma RootTriangle(a: Bytes, b: Bytes, c: Bytes, m: nat, r: real, s: real)
    requires m <= |a| && m <= |b| && m <= |c|
    requires IsRoot(r, TotalSquared(a, b, m), m as real) && IsRoot(s, TotalSquared(b, c, m), m as real)
    ensures m > 0 && TotalSquared(a, c, m) / m as real <= (r + s) * (r + s)
  {
    assert m > 0 && 0.0 <= r && 0.0 <= s;
    RootOfNothing(r, TotalSquared(a, b, m), m as real);
    RootOfNothing(s, TotalSquared(b, c, m), m as real);
    hide TotalSquared, Balanced, IsRoot, Weights;
    if r == 0.0 {
      NothingBetween(a, b, c, m);
      assert r + s == s;
    } else if s == 0.0 {
      TotalFacts(b, c, m);
      TotalFacts(a, c, m);
      TotalFacts(a, b, m);
      NothingBetween(c, b, a, m);
      assert r + s == r;
    } else {
      var w, u, v := AreWeights(r, s);
      WeighedTotals(a, b, c, m, r, s, w, u, v);
      Weighed(TotalSquared(a, c, m), TotalSquared(a, b, m), TotalSquared(b, c, m), m as real, r, s, w, u, v);
    }
  }

  lemma AreWeights(r: real, s: real) returns (w: real, u: real, v: real)
    requires 0.0 <= r && 0.0 <= s
    ensures Weights(r, s, w, u, v)
  {
    w, u, v := r * s, s * (r + s), r * (r + s);
  }

  /** The root-mean-square difference obeys the triangle inequality too: `r` and
      `s` are the roots of the two recorded squares. */
  lemma RootMeanSquareObeysTriangle(x: ReviewInput, y: ReviewInput, z: ReviewInput, hash: Hash, r: real, s: real)
    requires Compared(x, y, hash).Ok? && Compared(y, z, hash).Ok? && 0.0 <= r && 0.0 <= s
    requires r * r == Compared(x, y, hash).value.meanSquare && s * s == Compared(y, z, hash).value.meanSquare
    ensures Compared(x, z, hash).Ok? && Compared(x, z, hash).value.meanSquare <= (r + s) * (r + s)
  {
    MetricsObeyTriangle(x, y, z, hash);
    var n := PixelCount(x.image.dimensions);
    var a, b, c := x.image.pixels, y.image.pixels, z.image.pixels;
    SomePixels(x.image.dimensions);
    SquareIsMean(x, y, hash, r);
    SquareIsMean(y, z, hash, s);
    hide Compared, PixelCount, TotalSquared, IsRoot;
    RootTriangle(a, b, c, 4 * n, r, s);
    MeanIsQuotient(x, z, hash);
  }

  lemma MeanIsQuotient(x: ReviewInput, y: ReviewInput, hash: Hash)
    requires Compared(x, y, hash).Ok?
    ensures var m := 4 * PixelCount(x.image.dimensions);
            && 0 < m == |x.image.pixels| == |y.image.pixels| && x.image.dimensions == y.image.dimensions
            && Compared(x, y, hash).value.meanSquare == TotalSquared(x.image.pixels, y.image.pixels, m) / m as real
  {
    var n := PixelCount(x.image.dimensions);
    SomePixels(x.image.dimensions);
    SumsAreFlat(x.image.pixels, y.image.pixels, n);
    hide SumUp, ComparisonId, PixelCount, TotalAbsolute, TotalSquared, ValidDimensions, ValidScale, IsId;
    assert (4 * n) as real == n as real * 4.0;
  }

  lemma SquareIsMean(x: ReviewInput, y: ReviewInput, hash: Hash, r: real)
    requires Compared(x, y, hash).Ok? && 0.0 <= r && r * r == Compared(x, y, hash).value.meanSquare
    ensures var m := 4 * PixelCount(x.image.dimensions);
            && m == |x.image.pixels| == |y.image.pixels| && x.image.dimensions == y.image.dimensions
            && IsRoot(r, TotalSquared(x.image.pixels, y.image.pixels, m), m as real)
  {
    MeanIsQuotient(x, y, hash);
    hide Compared, PixelCount, TotalSquared;
    var m := 4 * PixelCount(x.image.dimensions);
    Quotients(TotalSquared(x.image.pixels, y.image.pixels, m), r * r, m as real);
  }

  lemma Quotients(x: real, q: real, n: real)
    requires n > 0.0 && q == x / n
    ensures x == q * n
  {
  }

  lemma ComparisonIdIsId(before: Bytes, after: Bytes, hash: Hash)
    ensures IsId(ComparisonId(before, after, hash))
  {
  }

  /** A comparison of two different captures is a valid record. */
  lemma ComparedIsValid(before: ReviewInput, after: ReviewInput, hash: Hash)
    requires Compared(before, after, hash).Ok?
    ensures ValidComparison(Compared(before, after, hash).value) <==> before.captureId != after.captureId
  {
    MetricsAreOrdered(before, after, hash);
    ComparisonIdIsId(before.captureId, after.captureId, hash);
    SomePixels(before.image.dimensions);
    hide SumUp, ComparisonId, ValidDimensions, ValidScale, IsId;
  }
}
