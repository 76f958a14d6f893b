/** What a decoded image shows, pixel by pixel, with nothing of the decoder in
    the statement. */
module Raster {
  import opened Bytes
  import opened Chunks
  import opened Filters
  import opened Grammar
  import opened Png
  import Compare
  import Layout
  import Manifest

  // ----- One pixel -----

  /** A sample of sixteen bits in a transparency chunk. */
  predicate IsSample(t: Bytes, at: nat, value: byte) {
    at + 2 <= |t| && 256 * (t[at] as int) + t[at + 1] as int == value as int
  }

  /** The colours of section 4 of RFC 2083 at eight bits a sample: grey, true
      colour, palette, grey with alpha, true colour with alpha. */
  predicate Colours(colorType: byte, source: Bytes, palette: Option<Bytes>, transparency: Option<Bytes>, p: Pixel) {
    var t := if transparency.Some? then transparency.value else [];
    && |source| == (match colorType case 2 => 3 case 4 => 2 case 6 => 4 case _ => 1)
    && (colorType == 0 ==>
          p == Pixel(source[0], source[0], source[0], if IsSample(t, 0, source[0]) then 0 else 255))
    && (colorType == 2 ==>
          && [p.red, p.green, p.blue] == source
          && p.alpha == if IsSample(t, 0, source[0]) && IsSample(t, 2, source[1]) && IsSample(t, 4, source[2])
                        then 0 else 255)
    && (colorType == 3 ==>
          var k: int := source[0];
          && palette.Some? && 3 * k + 3 <= |palette.value|
          && [p.red, p.green, p.blue] == palette.value[3 * k..3 * k + 3]
          && p.alpha == if k < |t| then t[k] else 255)
    && (colorType == 4 ==> p == Pixel(source[0], source[0], source[0], source[1]))
    && (colorType == 6 ==> [p.red, p.green, p.blue, p.alpha] == source)
  }

  lemma ExpandedColours(colorType: byte, source: Bytes, palette: Option<Bytes>, transparency: Option<Bytes>)
    requires |source| == Channels(colorType) && colorType in {0, 2, 3, 4, 6}
    ensures var r := Expand(source, colorType, palette, transparency);
            && (r.Some? ==> Colours(colorType, source, palette, transparency, r.value))
            && (r.None? <==> colorType == 3 && (palette.None? || 3 * source[0] + 3 > |palette.value|))
  {
  }

  /** Pixel `i` of the output is source pixel `i`, expanded. */
  lemma {:induction false} PixelsExpand(rows: Bytes, count: nat, s: Scan, colorType: byte, i: nat)
    requires Times(count, Channels(colorType)) <= |rows| && i < count && Pixels(rows, count, s, colorType).Some?
    ensures Times(i, Channels(colorType)) + Channels(colorType) <= |rows|
    ensures Expand(SourcePixel(rows, i, Channels(colorType)), colorType, s.palette, s.transparency)
         == Some(Compare.PixelAt(Pixels(rows, count, s, colorType).value, i))
    decreases count
  {
    hide Expand, SourcePixel;
    TimesMonotone(i + 1, count, Channels(colorType));
    if i < count - 1 {
      PixelsExpand(rows, count - 1, s, colorType, i);
    }
  }

  // ----- Where it comes from -----

  lemma {:induction false} RowInConcat(rows: seq<Bytes>, width: nat, y: nat)
    requires Rectangular(rows, width) && y < |rows|
    ensures Times(y, width) + width <= |Concat(rows)|
    ensures Concat(rows)[Times(y, width)..Times(y, width) + width] == rows[y]
    decreases |rows|
  {
    var n := |rows| - 1;
    assert Rectangular(rows[..n], width);
    ConcatLength(rows[..n], width);
    if y < n {
      RowInConcat(rows[..n], width, y);
    }
  }

  lemma Index(x: nat, y: nat, width: nat, height: nat, channels: nat)
    requires x < width && y < height
    ensures y * width + x < width * height && x * channels + channels <= width * channels
    ensures Times(y * width + x, channels) == Times(y, width * channels) + x * channels
  {
    TimesIsProduct(y * width + x, channels);
    TimesIsProduct(y, width * channels);
    Spread(x, y, width, height, channels);
  }

  lemma Spread(x: nat, y: nat, width: nat, height: nat, channels: nat)
    requires x < width && y < height
    ensures y * width + x < width * height && x * channels + channels <= width * channels
    ensures (y * width + x) * channels == y * (width * channels) + x * channels
  {
    assert (y + 1) * width <= height * width;
    assert (x + 1) * channels <= width * channels;
    assert (y * width) * channels == y * (width * channels);
  }

  lemma SourceInRow(rows: seq<Bytes>, width: nat, height: nat, channels: nat, x: nat, y: nat)
    requires Rectangular(rows, width * channels) && |rows| == height && x < width && y < height
    ensures Times(y * width + x, channels) + channels <= |Concat(rows)|
    ensures x * channels + channels <= |rows[y]|
    ensures SourcePixel(Concat(rows), y * width + x, channels) == rows[y][x * channels..x * channels + channels]
  {
    assert |rows[y]| == width * channels;
    Index(x, y, width, height, channels);
    RowInConcat(rows, width * channels, y);
    hide *;
    SliceOfSlice(Concat(rows), Times(y, width * channels), width * channels, x * channels, channels);
  }

  lemma SliceOfSlice(s: Bytes, at: nat, length: nat, i: nat, n: nat)
    requires at + length <= |s| && i + n <= length
    ensures s[at..at + length][i..i + n] == s[at + i..at + i + n]
  {
    var t := s[at..at + length];
    var u, v := t[i..i + n], s[at + i..at + i + n];
    forall k | 0 <= k < n ensures u[k] == v[k] {
      assert u[k] == t[i + k] == s[at + i + k];
    }
    assert u == v;
  }

  // ----- The whole image -----

  /** Pixel `at` of the image shows the octets of `row` at `from`. */
  predicate ShowsAt(d: DecodedPng, colorType: byte, palette: Option<Bytes>, transparency: Option<Bytes>, row: Bytes,
                    from: nat, at: nat)
  {
    && from + Channels(colorType) <= |row| && 4 * at + 4 <= |d.pixels|
    && Colours(colorType, row[from..from + Channels(colorType)], palette, transparency, Compare.PixelAt(d.pixels, at))
  }

  /** Where a pixel is in the image, and where its octets are in their row. */
  function PixelIndex(h: Header, x: nat, y: nat): nat {
    y * h.width + x
  }

  function RowIndex(h: Header, x: nat): nat {
    x * Channels(h.colorType)
  }

  predicate ShowsPixel(d: DecodedPng, h: Header, palette: Option<Bytes>, transparency: Option<Bytes>, rows: seq<Bytes>,
                       x: nat, y: nat)
  {
    y < |rows| && ShowsAt(d, h.colorType, palette, transparency, rows[y], RowIndex(h, x), PixelIndex(h, x, y))
  }

  /** The octets of the image are the colours of these rows. */
  ghost predicate ShowsRows(d: DecodedPng, h: Header, palette: Option<Bytes>, transparency: Option<Bytes>,
                            rows: seq<Bytes>)
  {
    && |rows| == h.height && |d.pixels| == 4 * (h.width * h.height)
    && d.dimensions == Manifest.Dimensions(h.width, h.height)
    && (d.hasAlpha <==> h.colorType in {4, 6} || transparency.Some? || !Solid(d.pixels))
    && forall x, y | 0 <= x < h.width && 0 <= y < h.height :: ShowsPixel(d, h, palette, transparency, rows, x, y)
  }

  /** These rows are what the scanlines of `stream` stand for. */
  predicate RestoresStream(h: Header, stream: Bytes, rows: seq<Bytes>) {
    var c := Channels(h.colorType);
    c > 0 && |stream| == h.height * (h.width * c + 1) && RestoresImage(stream, None, h.width * c, c, rows)
  }

  /** Everything about a decoded image: where its file's chunks lie, what they
      inflate to, which rows that restores, and which colours those show. */
  ghost predicate Shows(input: Bytes, limits: PngLimits, inflate: Inflate, d: DecodedPng, cs: seq<Chunk>, stream: Bytes,
                        rows: seq<Bytes>)
  {
    && AllOk(cs) && input == [137, 80, 78, 71, 13, 10, 26, 10] + EncodeAll(cs) && WellOrdered(cs, limits)
    && inflate(IdatData(cs)) == Some(stream)
    && (var h := ReadHeader(cs[0].data); Layout.IsImageHeader(cs[0].data, h.width, h.height, h.colorType))
    && RestoresStream(ReadHeader(cs[0].data), stream, rows)
    && ShowsRows(d, ReadHeader(cs[0].data), LastData(cs, Palette), LastData(cs, Transparency), rows)
  }

  lemma AcceptedParts(input: Bytes, limits: PngLimits, inflate: Inflate, sha: Hash)
    requires Decoded(input, limits, inflate, sha).Some?
    ensures |input| >= 8 && input[..8] == SIGNATURE && Parse(input[8..]).Some? && ScanInput(input, limits).Some?
    ensures var cs, s := Parse(input[8..]).value, ScanInput(input, limits).value;
            && AllOk(cs) && input == SIGNATURE + EncodeAll(cs) && WellOrdered(cs, limits)
            && s.header == Some(ReadHeader(cs[0].data)) && s.palette == LastData(cs, Palette)
            && s.transparency == LastData(cs, Transparency)
            && s.compressed == IdatData(cs) && Stream(s, limits, inflate).Some?
            && var h, stream := s.header.value, Stream(s, limits, inflate).value;
            && h.width > 0 && |stream| == StreamLength(h) && inflate(IdatData(cs)) == Some(stream)
            && h.colorType in {0, 2, 3, 4, 6} && Layout.IsImageHeader(cs[0].data, h.width, h.height, h.colorType)
            && Render(s, h, stream).Some?
            && var d := Decoded(input, limits, inflate, sha).value;
            && d.dimensions == Size(h) && d.pixels == Render(s, h, stream).value.pixels
            && d.hasAlpha == Render(s, h, stream).value.hasAlpha
  {
    HeaderBounds(input, limits);
    HeaderColour(input, limits);
    hide Parse, ScanInput, Render, WellOrdered, LastData, IdatData, AllOk, EncodeAll, StreamLength;
    AcceptedChunks(input, limits);
    AcceptedTransparency(input, limits);
    AcceptedHeader(input, limits);
  }

  lemma AcceptedHeader(input: Bytes, limits: PngLimits)
    requires |input| >= 8 && ScanInput(input, limits).Some? && ScanInput(input, limits).value.header.Some?
    ensures Parse(input[8..]).Some? && Parse(input[8..]).value != []
    ensures var d := Parse(input[8..]).value[0].data;
            |d| == 13 && var h := ReadHeader(d); Layout.IsImageHeader(d, h.width, h.height, h.colorType)
  {
    var cs := Parse(input[8..]).value;
    ScanIsRules(cs, limits);
    assert Rule(cs, 0, limits);
    Layout.ImageHeaderLayout(cs[0].data, limits);
  }

  lemma HeaderColour(input: Bytes, limits: PngLimits)
    requires |input| >= 8 && ScanInput(input, limits).Some? && ScanInput(input, limits).value.header.Some?
    ensures ScanInput(input, limits).value.header.value.colorType in {0, 2, 3, 4, 6}
  {
    var cs := Parse(input[8..]).value;
    ScanIsRules(cs, limits);
    assert Rule(cs, 0, limits);
  }

  lemma AcceptedTransparency(input: Bytes, limits: PngLimits)
    requires |input| >= 8 && ScanInput(input, limits).Some?
    ensures Parse(input[8..]).Some?
    ensures ScanInput(input, limits).value.transparency == LastData(Parse(input[8..]).value, Transparency)
  {
    ScanIsRules(Parse(input[8..]).value, limits);
  }

  lemma RenderedRows(s: Scan, h: Header, stream: Bytes)
    requires h.width > 0 && |stream| == StreamLength(h) && Render(s, h, stream).Some?
    ensures var c := Channels(h.colorType);
            var rows := UnfilterRows(stream, None, h.width * c, c);
            && |rows| == h.height && Rectangular(rows, h.width * c) && RestoresStream(h, stream, rows)
            && Times(Manifest.PixelCount(Size(h)), c) <= |Concat(rows)|
            && Pixels(Concat(rows), Manifest.PixelCount(Size(h)), s, h.colorType)
               == Some(Render(s, h, stream).value.pixels)
  {
    var c := Channels(h.colorType);
    ScanlineCount(stream, h.height, h.width * c);
    TimesIsProduct(h.height, h.width * c + 1);
    UnfilteredRowsRestore(stream, None, h.width * c, c);
    hide UnfilterRows, RestoresImage, Times, Concat, Pixels;
    assert Rows(h, stream) == Concat(UnfilterRows(stream, None, h.width * c, c));
  }

  lemma PixelShowsAt(s: Scan, d: DecodedPng, colorType: byte, all: Bytes, count: nat, row: Bytes, from: nat, at: nat)
    requires colorType in {0, 2, 3, 4, 6} && at < count && Times(count, Channels(colorType)) <= |all|
    requires Pixels(all, count, s, colorType) == Some(d.pixels)
    requires Times(at, Channels(colorType)) + Channels(colorType) <= |all| && from + Channels(colorType) <= |row|
    requires SourcePixel(all, at, Channels(colorType)) == row[from..from + Channels(colorType)]
    ensures ShowsAt(d, colorType, s.palette, s.transparency, row, from, at)
  {
    hide Expand, Colours, Pixels, Times, SourcePixel, Channels;
    PixelsExpand(all, count, s, colorType, at);
    ExpandedColours(colorType, SourcePixel(all, at, Channels(colorType)), s.palette, s.transparency);
    Octets(at, count, |d.pixels|);
  }

  lemma SourceOf(h: Header, rows: seq<Bytes>, x: nat, y: nat)
    requires Rectangular(rows, h.width * Channels(h.colorType)) && |rows| == h.height && x < h.width && y < h.height
    ensures var c, at, from := Channels(h.colorType), PixelIndex(h, x, y), RowIndex(h, x);
            && at < Manifest.PixelCount(Size(h)) && Times(at, c) + c <= |Concat(rows)| && from + c <= |rows[y]|
            && SourcePixel(Concat(rows), at, c) == rows[y][from..from + c]
  {
    SourceInRow(rows, h.width, h.height, Channels(h.colorType), x, y);
    Spread(x, y, h.width, h.height, 1);
    hide SourcePixel, Concat, Times;
  }

  lemma PixelShows(s: Scan, h: Header, d: DecodedPng, rows: seq<Bytes>, x: nat, y: nat)
    requires h.colorType in {0, 2, 3, 4, 6} && x < h.width && y < h.height && |rows| == h.height
    requires Rectangular(rows, h.width * Channels(h.colorType))
    requires Times(Manifest.PixelCount(Size(h)), Channels(h.colorType)) <= |Concat(rows)|
    requires Pixels(Concat(rows), Manifest.PixelCount(Size(h)), s, h.colorType) == Some(d.pixels)
    ensures ShowsPixel(d, h, s.palette, s.transparency, rows, x, y)
  {
    hide Pixels, Concat, Times, SourcePixel, Channels, Rectangular, ShowsAt, RowIndex, PixelIndex, Manifest.PixelCount;
    SourceOf(h, rows, x, y);
    PixelShowsAt(s, d, h.colorType, Concat(rows), Manifest.PixelCount(Size(h)), rows[y], RowIndex(h, x),
                 PixelIndex(h, x, y));
  }

  lemma Octets(at: nat, count: nat, length: nat)
    requires at < count && length == 4 * count
    ensures 4 * at + 4 <= length
  {
  }

  lemma RenderedAlpha(s: Scan, h: Header, stream: Bytes)
    requires h.width > 0 && |stream| == StreamLength(h) && Render(s, h, stream).Some?
    ensures var r := Render(s, h, stream).value;
            r.hasAlpha <==> h.colorType in {4, 6} || s.transparency.Some? || !Solid(r.pixels)
  {
    hide Pixels, Rows, FilterBytes, Solid, StreamLength;
  }

  lemma RenderedShows(s: Scan, h: Header, stream: Bytes, d: DecodedPng)
    requires h.width > 0 && |stream| == StreamLength(h) && Render(s, h, stream).Some? && h.colorType in {0, 2, 3, 4, 6}
    requires d.pixels == Render(s, h, stream).value.pixels && d.dimensions == Size(h)
    requires d.hasAlpha == Render(s, h, stream).value.hasAlpha
    ensures var rows := UnfilterRows(stream, None, h.width * Channels(h.colorType), Channels(h.colorType));
            RestoresStream(h, stream, rows) && ShowsRows(d, h, s.palette, s.transparency, rows)
  {
    hide Render, UnfilterRows, Pixels, RestoresStream, StreamLength, ShowsPixel, Concat, Times, Rectangular, Solid;
    var rows := UnfilterRows(stream, None, h.width * Channels(h.colorType), Channels(h.colorType));
    RenderedRows(s, h, stream);
    RenderedAlpha(s, h, stream);
    forall x, y | 0 <= x < h.width && 0 <= y < h.height
      ensures ShowsPixel(d, h, s.palette, s.transparency, rows, x, y)
    {
      PixelShows(s, h, d, rows, x, y);
    }
  }

  /** Every accepted input shows exactly what RFC 2083 says it shows. */
  lemma DecodedShows(input: Bytes, limits: PngLimits, inflate: Inflate, sha: Hash)
    returns (cs: seq<Chunk>, stream: Bytes, rows: seq<Bytes>)
    requires Decoded(input, limits, inflate, sha).Some?
    ensures Shows(input, limits, inflate, Decoded(input, limits, inflate, sha).value, cs, stream, rows)
  {
    AcceptedParts(input, limits, inflate, sha);
    assert SIGNATURE == [137, 80, 78, 71, 13, 10, 26, 10];
    hide Parse, ScanInput, Render, WellOrdered, LastData, IdatData, AllOk, EncodeAll, StreamLength, UnfilterRows,
         Decoded, Stream, ReadHeader, Channels, RestoresStream, ShowsRows;
    var s := ScanInput(input, limits).value;
    cs, stream := Parse(input[8..]).value, Stream(s, limits, inflate).value;
    var h := s.header.value;
    rows := UnfilterRows(stream, None, h.width * Channels(h.colorType), Channels(h.colorType));
    RenderedShows(s, h, stream, Decoded(input, limits, inflate, sha).value);
  }
}
