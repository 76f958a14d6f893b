/** `decode_png`: chunk loop, scanlines and RGBA expansion. Inflation is a
    parameter. */
module Png {
  import opened Bytes
  import opened Crc
  import opened Chunks
  import opened Filters
  import opened Grammar
  import Manifest

  type Inflate = Bytes -> Option<Bytes>

  datatype PngError = PngError

  /** Four octets a pixel, row by row, and the digest of the file. */
  datatype DecodedPng = DecodedPng(dimensions: Manifest.Dimensions, pixels: Bytes, hasAlpha: bool, sha256: Digest)

  datatype Pixel = Pixel(red: byte, green: byte, blue: byte, alpha: byte)

  // ----- Chunk loop -----

  function ScanInput(input: Bytes, limits: PngLimits): Option<Scan>
    requires |input| >= 8
  {
    var cs := Parse(input[8..]);
    if cs.None? then None else ScanAll(cs.value, limits)
  }

  function Tail(input: Bytes, offset: nat): Bytes
    requires offset <= |input|
  {
    input[offset..]
  }

  /** The chunk loop at `offset`, having accepted the chunks `done`. */
  ghost predicate Walking(input: Bytes, limits: PngLimits, offset: nat, done: seq<Chunk>, s: Scan) {
    && 8 <= offset <= |input| && (offset == 8 <==> done == [])
    && Parse(input[8..]) == Prepend(done, Parse(Tail(input, offset)))
    && ScanAll(done, limits) == Some(s)
  }

  lemma WalkStarts(input: Bytes, limits: PngLimits)
    requires |input| >= 8
    ensures Walking(input, limits, 8, [], START)
  {
    assert ScanAll([], limits) == Some(START);
    hide Parse, ScanAll;
    var cs := Parse(input[8..]);
    assert cs.Some? ==> [] + cs.value == cs.value;
  }

  lemma WalkEnds(input: Bytes, limits: PngLimits, done: seq<Chunk>, s: Scan)
    requires Walking(input, limits, |input|, done, s)
    ensures ScanInput(input, limits) == Some(s)
  {
    assert input[|input|..] == [] && done + [] == done;
  }

  /** Where the next chunk's fields lie in the whole input. */
  lemma ChunkFields(input: Bytes, offset: nat, length: nat)
    requires offset + 12 + length <= |input|
    ensures var b := input[offset..];
            && b[..4] == input[offset..offset + 4]
            && b[4..8] == input[offset + 4..offset + 8]
            && b[8..8 + length] == input[offset + 8..offset + 8 + length]
            && b[8 + length..12 + length] == input[offset + 8 + length..offset + 12 + length]
            && b[12 + length..] == input[offset + 12 + length..]
            && b[4..8] + b[8..8 + length] == input[offset + 4..offset + 8 + length]
  {
  }

  lemma WalkFails(input: Bytes, limits: PngLimits, offset: nat, done: seq<Chunk>, s: Scan)
    requires Walking(input, limits, offset, done, s) && offset < |input|
    requires FirstChunk(Tail(input, offset)) == None
    ensures ScanInput(input, limits) == None
  {
  }

  lemma ConcatMiddle<T>(a: seq<T>, x: T, b: seq<T>)
    ensures a + ([x] + b) == (a + [x]) + b
  {
  }

  lemma ScanContinues(done: seq<Chunk>, c: Chunk, rest: Option<seq<Chunk>>, limits: PngLimits)
    requires ScanAll(done, limits).Some?
    ensures ScanAll(done + [c], limits) == ScanChunk(ScanAll(done, limits).value, c, done == [], limits)
    ensures ScanAll(done + [c], limits) == None && rest.Some? ==> ScanAll((done + [c]) + rest.value, limits) == None
  {
    assert (done + [c])[..|done|] == done && (done + [c])[|done|] == c;
    hide ScanChunk;
    if rest.Some? && ScanAll(done + [c], limits) == None {
      ScanStuck(done + [c], rest.value, limits);
    }
  }

  lemma PrependBoth(done: seq<Chunk>, c: Chunk, rest: Option<seq<Chunk>>)
    ensures Prepend(done, Prepend([c], rest)) == Prepend(done + [c], rest)
  {
    if rest.Some? {
      ConcatMiddle(done, c, rest.value);
    }
  }

  lemma ParseFirst(b: Bytes)
    requires b != [] && FirstChunk(b).Some?
    ensures var c := FirstChunk(b).value; Parse(b) == Prepend([c], Parse(b[12 + |c.data|..]))
  {
    hide FirstChunk;
  }

  lemma TailOfTail(input: Bytes, offset: nat, n: nat)
    requires offset + n <= |input|
    ensures Tail(input, offset)[n..] == Tail(input, offset + n)
  {
  }

  /** A sound chunk either advances the loop or settles that the input is
      rejected. */
  lemma WalkSteps(input: Bytes, limits: PngLimits, offset: nat, done: seq<Chunk>, s: Scan)
    requires Walking(input, limits, offset, done, s) && offset < |input|
    requires FirstChunk(Tail(input, offset)).Some?
    ensures var c := FirstChunk(Tail(input, offset)).value;
            var next := ScanChunk(s, c, offset == 8, limits);
            && (next == None ==> ScanInput(input, limits) == None)
            && offset + 12 + |c.data| <= |input|
            && (next.Some? ==> Walking(input, limits, offset + 12 + |c.data|, done + [c], next.value))
  {
    hide Parse, FirstChunk, ScanChunk, ScanAll;
    var b := Tail(input, offset);
    var c := FirstChunk(b).value;
    ParseFirst(b);
    TailOfTail(input, offset, 12 + |c.data|);
    var rest := Parse(Tail(input, offset + 12 + |c.data|));
    ScanContinues(done, c, rest, limits);
    PrependBoth(done, c, rest);
    hide Prepend, Tail;
  }

  /** Nothing may follow IEND, whether or not it is a chunk. */
  lemma WalkPastEnd(input: Bytes, limits: PngLimits, offset: nat, done: seq<Chunk>, s: Scan)
    requires Walking(input, limits, offset, done, s) && offset < |input| && s.sawIend
    ensures ScanInput(input, limits) == None
  {
    if FirstChunk(Tail(input, offset)).Some? {
      WalkSteps(input, limits, offset, done, s);
    } else {
      WalkFails(input, limits, offset, done, s);
    }
  }

  method ReadChunk(input: Bytes, offset: nat) returns (r: Option<Chunk>)
    requires offset < |input|
    ensures r == FirstChunk(Tail(input, offset))
  {
    ghost var b := input[offset..];
    if |input| - offset < 12 {
      return None;
    }
    assert b[..4] == input[offset..offset + 4];
    var length := Be32(input[offset..offset + 4]);
    var chunkEnd := offset + 12 + length;
    if chunkEnd > |input| {
      return None;
    }
    ChunkFields(input, offset, length);
    var kind, data := input[offset + 4..offset + 8], input[offset + 8..offset + 8 + length];
    var crc := input[offset + 8 + length..chunkEnd];
    var actual := ComputeCrc32(input[offset + 4..offset + 8 + length]);
    hide Be32, Crc32, StoredCrc;
    r := if StoredCrc(crc) == actual then Some(Chunk(kind, data, crc)) else None;
  }

  lemma Growth(s: Scan, c: Chunk, first: bool, limits: PngLimits)
    requires ScanChunk(s, c, first, limits).Some?
    ensures |ScanChunk(s, c, first, limits).value.compressed| <= |s.compressed| + |c.data|
  {
  }

  /** What an iteration leaves behind: the state after `done`, or the
      knowledge that the input is rejected. */
  ghost predicate Advanced(
    input: Bytes, limits: PngLimits, done: seq<Chunk>, r: Option<Scan>, offset: nat)
  {
    if r.None? then |input| >= 8 && ScanInput(input, limits) == None
    else
      && Walking(input, limits, offset, done, r.value)
      && |r.value.compressed| <= offset && (r.value.sawIend ==> offset == |input|)
  }

  /** One iteration of the chunk loop. */
  method WalkChunk(input: Bytes, limits: PngLimits, offset: nat, s: Scan, ghost done: seq<Chunk>)
    returns (r: Option<Scan>, chunkEnd: nat, ghost extended: seq<Chunk>)
    requires 8 <= |input| <= limits.maxFileBytes && offset < |input|
    requires Advanced(input, limits, done, Some(s), offset)
    ensures Advanced(input, limits, extended, r, chunkEnd) && offset < chunkEnd
  {
    hide Parse, ScanAll, ScanInput, ScanChunk, FirstChunk, Walking;
    chunkEnd, extended := |input|, done;
    var chunk := ReadChunk(input, offset);
    if chunk.None? {
      WalkFails(input, limits, offset, done, s);
      return None, |input|, done;
    }
    var c := chunk.value;
    WalkSteps(input, limits, offset, done, s);
    r := ScanChunk(s, c, offset == 8, limits);
    chunkEnd, extended := offset + 12 + |c.data|, done + [c];
    if r.Some? {
      Growth(s, c, offset == 8, limits);
      if |r.value.compressed| > limits.maxFileBytes {
        assert false;
      }
      if r.value.sawIend && chunkEnd != |input| {
        WalkPastEnd(input, limits, chunkEnd, extended, r.value);
        r := None;
      }
    }
  }

  method WalkChunks(input: Bytes, limits: PngLimits) returns (r: Option<Scan>)
    requires 8 <= |input| <= limits.maxFileBytes
    ensures r == ScanInput(input, limits)
  {
    var offset := 8;
    ghost var done: seq<Chunk> := [];
    WalkStarts(input, limits);
    r := Some(START);
    while r.Some? && offset < |input|
      invariant Advanced(input, limits, done, r, offset)
      decreases |input| - offset
    {
      r, offset, done := WalkChunk(input, limits, offset, r.value, done);
    }
    if r.Some? {
      WalkEnds(input, limits, done, r.value);
    }
  }

  // ----- RGBA expansion -----

  function Channels(colorType: byte): nat {
    match colorType
    case 2 => 3
    case 4 => 2
    case 6 => 4
    case _ => 1
  }

  /** One source pixel; `None` when a palette index is out of bounds. */
  function Expand(source: Bytes, colorType: byte, palette: Option<Bytes>, transparency: Option<Bytes>): Option<Pixel>
    requires |source| == Channels(colorType)
  {
    var t := if transparency.Some? then transparency.value else [];
    match colorType
    case 0 =>
      Some(Pixel(source[0], source[0], source[0], if |t| >= 2 && t[0] == 0 && t[1] == source[0] then 0 else 255))
    case 2 =>
      var hidden := |t| >= 6 && t[0] == 0 && t[1] == source[0] && t[2] == 0 && t[3] == source[1]
                    && t[4] == 0 && t[5] == source[2];
      Some(Pixel(source[0], source[1], source[2], if hidden then 0 else 255))
    case 4 => Some(Pixel(source[0], source[0], source[0], source[1]))
    case 6 => Some(Pixel(source[0], source[1], source[2], source[3]))
    case _ =>
      var at := source[0] as int * 3;
      if palette.None? || at + 2 >= |palette.value| then None
      else
        var p := palette.value;
        Some(Pixel(p[at], p[at + 1], p[at + 2], if source[0] as int < |t| then t[source[0]] else 255))
  }

  function SourcePixel(rows: Bytes, index: nat, channels: nat): (r: Bytes)
    requires Times(index, channels) + channels <= |rows|
    ensures |r| == channels
  {
    rows[Times(index, channels)..Times(index, channels) + channels]
  }

  /** The first `count` pixels as RGBA octets. */
  function Pixels(rows: Bytes, count: nat, s: Scan, colorType: byte): (r: Option<Bytes>)
    requires Times(count, Channels(colorType)) <= |rows|
    ensures r.Some? ==> |r.value| == 4 * count
  {
    if count == 0 then Some([])
    else
      var before := Pixels(rows, count - 1, s, colorType);
      var pixel := Expand(SourcePixel(rows, count - 1, Channels(colorType)), colorType, s.palette, s.transparency);
      if before.None? || pixel.None? then None
      else
        var p := pixel.value;
        Some(before.value + [p.red, p.green, p.blue, p.alpha])
  }

  ghost predicate Solid(pixels: Bytes) {
    forall i {:trigger pixels[4 * i + 3]} | 0 <= i && 4 * i + 3 < |pixels| :: pixels[4 * i + 3] == 255
  }

  lemma {:induction false} PixelsStuck(rows: Bytes, m: nat, n: nat, s: Scan, colorType: byte)
    requires m <= n && Times(m, Channels(colorType)) <= |rows| && Times(n, Channels(colorType)) <= |rows|
    requires Pixels(rows, m, s, colorType) == None
    ensures Pixels(rows, n, s, colorType) == None
    decreases n
  {
    if m < n {
      PixelsStuck(rows, m, n - 1, s, colorType);
    }
  }

  method ExpandPixels(rows: Bytes, count: nat, s: Scan, colorType: byte)
    returns (pixels: Option<Bytes>, hasAlpha: bool)
    requires Times(count, Channels(colorType)) <= |rows|
    ensures pixels == Pixels(rows, count, s, colorType)
    ensures pixels.Some? ==> (hasAlpha <==> colorType in {4, 6} || s.transparency.Some? || !Solid(pixels.value))
  {
    var done: Bytes := [];
    hasAlpha := colorType in {4, 6} || s.transparency.Some?;
    for index := 0 to count
      invariant Times(index, Channels(colorType)) <= |rows|
      invariant Pixels(rows, index, s, colorType) == Some(done) && |done| == 4 * index
      invariant hasAlpha <==> colorType in {4, 6} || s.transparency.Some? || !Solid(done)
    {
      TimesMonotone(index + 1, count, Channels(colorType));
      var source := SourcePixel(rows, index, Channels(colorType));
      var pixel := Expand(source, colorType, s.palette, s.transparency);
      hide Expand, Channels;
      if pixel.None? {
        PixelsStuck(rows, index + 1, count, s, colorType);
        return None, false;
      }
      var p := pixel.value;
      if p.alpha != 255 {
        hasAlpha := true;
      }
      SolidAppend(done, p, index);
      done := done + [p.red, p.green, p.blue, p.alpha];
    }
    pixels := Some(done);
  }

  lemma SolidAppend(pixels: Bytes, p: Pixel, count: nat)
    requires |pixels| == 4 * count
    ensures Solid(pixels + [p.red, p.green, p.blue, p.alpha]) <==> Solid(pixels) && p.alpha == 255
  {
    var all := pixels + [p.red, p.green, p.blue, p.alpha];
    assert all[4 * count + 3] == p.alpha;
    forall i {:trigger pixels[4 * i + 3]} | 0 <= i && 4 * i + 3 < |pixels|
      ensures all[4 * i + 3] == pixels[4 * i + 3]
    {
    }
  }

  // ----- The whole decoder -----

  function StreamLength(h: Header): nat {
    Times(h.height, h.width * Channels(h.colorType) + 1)
  }

  function Size(h: Header): Manifest.Dimensions {
    Manifest.Dimensions(h.width, h.height)
  }

  lemma RowsCoverPixels(h: Header)
    ensures Times(Manifest.PixelCount(Size(h)), Channels(h.colorType))
         == Times(h.height, h.width * Channels(h.colorType))
  {
    var n := Channels(h.colorType);
    TimesIsProduct(Manifest.PixelCount(Size(h)), n);
    TimesIsProduct(h.height, h.width * n);
    Regroup(h.width, h.height, n);
  }

  lemma Regroup(w: nat, h: nat, n: nat)
    ensures (w * h) * n == h * (w * n)
  {
  }

  /** The scanline stream, once the chunk layer is content. */
  function Stream(s: Scan, limits: PngLimits, inflate: Inflate): Option<Bytes> {
    if s.header.None? || !s.sawIend || s.compressed == [] then None
    else if s.header.value.colorType == 3 && s.palette.None? then None
    else if StreamLength(s.header.value) > limits.maxDecodedBytes then None
    else
      var stream := inflate(s.compressed);
      if stream.Some? && |stream.value| == StreamLength(s.header.value) then stream else None
  }

  function Rows(h: Header, stream: Bytes): (r: Bytes)
    requires h.width > 0 && |stream| == StreamLength(h)
    ensures |r| == Times(Manifest.PixelCount(Size(h)), Channels(h.colorType))
  {
    var n := Channels(h.colorType);
    var rows := UnfilterRows(stream, None, h.width * n, n);
    RowsCoverPixels(h);
    ScanlineCount(stream, h.height, h.width * n);
    ConcatLength(rows, h.width * n);
    Concat(rows)
  }

  lemma {:induction false} ScanlineCount(stream: Bytes, height: nat, width: nat)
    requires |stream| == Times(height, width + 1)
    ensures |FilterBytes(stream, width)| == height && Tiled(stream, width)
    decreases height
  {
    if height > 0 {
      ScanlineCount(stream[width + 1..], height - 1, width);
    }
  }

  lemma {:induction false} ConcatLength(rows: seq<Bytes>, width: nat)
    requires Rectangular(rows, width)
    ensures |Concat(rows)| == Times(|rows|, width)
    decreases |rows|
  {
    if rows != [] {
      ConcatLength(rows[..|rows| - 1], width);
    }
  }

  datatype Raster = Raster(pixels: Bytes, hasAlpha: bool)

  /** Rows, then RGBA; a bad filter type or palette index is an error. */
  ghost function Render(s: Scan, h: Header, stream: Bytes): Option<Raster>
    requires h.width > 0 && |stream| == StreamLength(h)
  {
    if !ValidFilters(FilterBytes(stream, h.width * Channels(h.colorType))) then None
    else
      var pixels := Pixels(Rows(h, stream), Manifest.PixelCount(Size(h)), s, h.colorType);
      if pixels.None? then None
      else Some(Raster(pixels.value, h.colorType in {4, 6} || s.transparency.Some? || !Solid(pixels.value)))
  }

  method RenderImage(s: Scan, h: Header, stream: Bytes) returns (r: Option<Raster>)
    requires h.width > 0 && |stream| == StreamLength(h)
    ensures r == Render(s, h, stream)
  {
    var channels := Channels(h.colorType);
    RowsCoverPixels(h);
    assert Rows(h, stream) == Concat(UnfilterRows(stream, None, h.width * channels, channels));
    hide Times, UnfilterRows, FilterBytes, Concat, Pixels, ValidFilters, Rows, Expand, Solid;
    var rows, ok := UnfilterImage(stream, h.height, h.width * channels, channels);
    if !ok {
      return None;
    }
    var pixels, hasAlpha := ExpandPixels(rows, Manifest.PixelCount(Size(h)), s, h.colorType);
    r := if pixels.None? then None else Some(Raster(pixels.value, hasAlpha));
  }

  /** What `decode_png` returns, `None` standing for any error. */
  ghost function Decoded(input: Bytes, limits: PngLimits, inflate: Inflate, sha: Hash): Option<DecodedPng> {
    if |input| > limits.maxFileBytes || |input| < 8 || input[..8] != SIGNATURE then None
    else
      var scan := ScanInput(input, limits);
      if scan.None? then None
      else
        var stream := Stream(scan.value, limits, inflate);
        if stream.None? then None
        else
          var h := scan.value.header.value;
          HeaderBounds(input, limits);
          var raster := Render(scan.value, h, stream.value);
          if raster.None? then None
          else Some(DecodedPng(Size(h), raster.value.pixels, raster.value.hasAlpha, sha(input)))
  }

  lemma HeaderBounds(input: Bytes, limits: PngLimits)
    requires |input| >= 8 && ScanInput(input, limits).Some? && ScanInput(input, limits).value.header.Some?
    ensures var h := ScanInput(input, limits).value.header.value;
            && 0 < h.width <= limits.maxWidth && 0 < h.height <= limits.maxHeight
            && Manifest.PixelCount(Size(h)) <= limits.maxPixels
            && Manifest.PixelCount(Size(h)) * 4 <= limits.maxDecodedBytes
  {
    var cs := Parse(input[8..]).value;
    ScanIsRules(cs, limits);
    assert Rule(cs, 0, limits);
  }

  method DecodePng(input: Bytes, limits: PngLimits, inflate: Inflate, sha: Hash)
    returns (r: Result<DecodedPng, PngError>)
    ensures r.Ok? <==> Decoded(input, limits, inflate, sha).Some?
    ensures r.Ok? ==> Decoded(input, limits, inflate, sha) == Some(r.value)
  {
    if |input| > limits.maxFileBytes {
      return Err(PngError);
    }
    if |input| < 8 || input[..8] != SIGNATURE {
      return Err(PngError);
    }
    var scan := WalkChunks(input, limits);
    if scan.None? {
      return Err(PngError);
    }
    var s := scan.value;
    var stream := Stream(s, limits, inflate);
    if stream.None? {
      return Err(PngError);
    }
    var h := s.header.value;
    HeaderBounds(input, limits);
    hide ScanInput, Render;
    var raster := RenderImage(s, h, stream.value);
    if raster.None? {
      return Err(PngError);
    }
    r := Ok(DecodedPng(Size(h), raster.value.pixels, raster.value.hasAlpha, sha(input)));
  }

  // ----- What acceptance means -----

  /** `compressed` inflates to this image, filtered row by row. */
  ghost predicate Compresses(
    h: Header, limits: PngLimits, inflate: Inflate, compressed: Bytes, filters: Bytes, rows: seq<Bytes>)
  {
    var n := Channels(h.colorType);
    && StreamLength(h) <= limits.maxDecodedBytes
    && |filters| == |rows| == h.height && ValidFilters(filters) && Rectangular(rows, h.width * n)
    && inflate(compressed) == Some(FilterRows(filters, rows, None, h.width * n, n))
  }

  /** The encoder's side: sound, well-ordered chunks whose inflated IDAT data
      is an image filtered row by row. */
  ghost predicate Encodes(
    input: Bytes, limits: PngLimits, inflate: Inflate, cs: seq<Chunk>, filters: Bytes, rows: seq<Bytes>)
  {
    && AllOk(cs) && input == SIGNATURE + EncodeAll(cs)
    && WellOrdered(cs, limits) && IdatData(cs) != []
    && (ReadHeader(cs[0].data).colorType == 3 ==> LastData(cs, Palette).Some?)
    && Compresses(ReadHeader(cs[0].data), limits, inflate, IdatData(cs), filters, rows)
  }

  lemma {:induction false} FilterRowsLength(filters: Bytes, rows: seq<Bytes>, previous: Option<Bytes>, width: nat,
                                            bpp: nat)
    requires |filters| == |rows| && Rectangular(rows, width) && Fits(previous, width) && bpp > 0
    ensures |FilterRows(filters, rows, previous, width, bpp)| == Times(|rows|, width + 1)
    decreases |rows|
  {
    if rows != [] {
      FilterRowsLength(filters[1..], rows[1..], Some(rows[0]), width, bpp);
    }
  }

  lemma InputOfChunks(input: Bytes, limits: PngLimits, cs: seq<Chunk>)
    requires AllOk(cs) && input == SIGNATURE + EncodeAll(cs)
    ensures |input| >= 8 && input[..8] == SIGNATURE && ScanInput(input, limits) == ScanAll(cs, limits)
  {
    assert input[8..] == EncodeAll(cs);
    ParseIsTiling(input[8..], cs);
  }

  lemma ScanOfEncoding(
    input: Bytes, limits: PngLimits, inflate: Inflate, cs: seq<Chunk>, filters: Bytes, rows: seq<Bytes>)
    requires Encodes(input, limits, inflate, cs, filters, rows)
    ensures |input| >= 8 && input[..8] == SIGNATURE
    ensures ScanInput(input, limits) == ScanAll(cs, limits) && ScanAll(cs, limits).Some?
    ensures var s := ScanAll(cs, limits).value;
            && s.header == Some(ReadHeader(cs[0].data)) && s.sawIend
            && s.compressed == IdatData(cs) && s.palette == LastData(cs, Palette)
  {
    InputOfChunks(input, limits, cs);
    CompleteIsWellOrdered(cs, limits);
    ScanIsRules(cs, limits);
  }

  lemma StreamOfEncoding(
    input: Bytes, limits: PngLimits, inflate: Inflate, cs: seq<Chunk>, filters: Bytes, rows: seq<Bytes>)
    requires Encodes(input, limits, inflate, cs, filters, rows)
    ensures ScanAll(cs, limits).Some?
    ensures var h := ReadHeader(cs[0].data); var n := Channels(h.colorType);
            Stream(ScanAll(cs, limits).value, limits, inflate) == Some(FilterRows(filters, rows, None, h.width * n, n))
  {
    ScanOfEncoding(input, limits, inflate, cs, filters, rows);
    hide ScanAll, ScanInput, WellOrdered, LastData, IdatData, FilterRows, AllOk, EncodeAll;
    var h := ReadHeader(cs[0].data);
    CompressedLength(h, limits, inflate, IdatData(cs), filters, rows);
    hide Compresses, StreamLength, ReadHeader;
  }

  lemma CompressedLength(
    h: Header, limits: PngLimits, inflate: Inflate, compressed: Bytes, filters: Bytes, rows: seq<Bytes>)
    requires Compresses(h, limits, inflate, compressed, filters, rows)
    ensures var n := Channels(h.colorType);
            && inflate(compressed) == Some(FilterRows(filters, rows, None, h.width * n, n))
            && |FilterRows(filters, rows, None, h.width * n, n)| == StreamLength(h) <= limits.maxDecodedBytes
  {
    var n := Channels(h.colorType);
    FilterRowsLength(filters, rows, None, h.width * n, n);
    hide FilterRows, Times;
  }

  lemma RenderOfEncoding(s: Scan, h: Header, filters: Bytes, rows: seq<Bytes>)
    requires h.width > 0 && |filters| == |rows| == h.height && ValidFilters(filters)
    requires Rectangular(rows, h.width * Channels(h.colorType))
    ensures var n := Channels(h.colorType);
            var stream := FilterRows(filters, rows, None, h.width * n, n);
            && |stream| == StreamLength(h)
            && |Concat(rows)| == Times(Manifest.PixelCount(Size(h)), n)
            && var pixels := Pixels(Concat(rows), Manifest.PixelCount(Size(h)), s, h.colorType);
            && (pixels.None? <==> Render(s, h, stream).None?)
            && (pixels.Some? ==> Render(s, h, stream).value.pixels == pixels.value)
  {
    var n := Channels(h.colorType);
    FilterRowsLength(filters, rows, None, h.width * n, n);
    UnfilterInvertsFilterRows(filters, rows, None, h.width * n, n);
    assert Rows(h, FilterRows(filters, rows, None, h.width * n, n)) == Concat(rows);
    hide FilterRows, Concat, Pixels, UnfilterRows, FilterBytes, Rows;
  }

  /** Round trip: decoding an encoded image gives its own rows, expanded pixel
      by pixel. */
  lemma DecodesEncodedImage(
    input: Bytes, limits: PngLimits, inflate: Inflate, sha: Hash, cs: seq<Chunk>, filters: Bytes, rows: seq<Bytes>)
    requires Encodes(input, limits, inflate, cs, filters, rows) && |input| <= limits.maxFileBytes
    ensures ScanAll(cs, limits).Some?
    ensures var h, s := ReadHeader(cs[0].data), ScanAll(cs, limits).value;
            && |Concat(rows)| == Times(Manifest.PixelCount(Size(h)), Channels(h.colorType))
            && var pixels := Pixels(Concat(rows), Manifest.PixelCount(Size(h)), s, h.colorType);
            && (pixels.None? <==> Decoded(input, limits, inflate, sha).None?)
            && (pixels.Some? ==> Decoded(input, limits, inflate, sha).value.pixels == pixels.value)
  {
    ScanOfEncoding(input, limits, inflate, cs, filters, rows);
    StreamOfEncoding(input, limits, inflate, cs, filters, rows);
    HeaderBounds(input, limits);
    var s := ScanAll(cs, limits).value;
    RenderOfEncoding(s, ReadHeader(cs[0].data), filters, rows);
    DecodedUnfolds(input, limits, inflate, sha);
    hide *;
  }

  lemma DecodedUnfolds(input: Bytes, limits: PngLimits, inflate: Inflate, sha: Hash)
    requires 8 <= |input| <= limits.maxFileBytes && input[..8] == SIGNATURE && ScanInput(input, limits).Some?
    requires Stream(ScanInput(input, limits).value, limits, inflate).Some?
    ensures var s := ScanInput(input, limits).value;
            var stream := Stream(s, limits, inflate).value;
            && s.header.Some? && s.header.value.width > 0 && |stream| == StreamLength(s.header.value)
            && var raster := Render(s, s.header.value, stream);
            && (raster.None? <==> Decoded(input, limits, inflate, sha).None?)
            && (raster.Some? ==> Decoded(input, limits, inflate, sha).value.pixels == raster.value.pixels)
  {
    HeaderBounds(input, limits);
    hide Render, ScanInput, StreamLength;
  }

  /** Unfiltering a stream recovers an image that compresses back to it. */
  lemma StreamCompresses(h: Header, limits: PngLimits, inflate: Inflate, compressed: Bytes, stream: Bytes)
    requires h.width > 0 && |stream| == StreamLength(h) <= limits.maxDecodedBytes && inflate(compressed) == Some(stream)
    requires ValidFilters(FilterBytes(stream, h.width * Channels(h.colorType)))
    ensures var n := Channels(h.colorType);
            Compresses(h, limits, inflate, compressed, FilterBytes(stream, h.width * n),
                       UnfilterRows(stream, None, h.width * n, n))
  {
    var n := Channels(h.colorType);
    var width := h.width * n;
    ScanlineCount(stream, h.height, width);
    FilterInvertsUnfilterRows(stream, None, width, n);
    hide FilterBytes, UnfilterRows, FilterRows, Times, ValidFilters;
  }

  lemma AcceptedChunks(input: Bytes, limits: PngLimits)
    requires |input| >= 8 && input[..8] == SIGNATURE && ScanInput(input, limits).Some?
    requires ScanInput(input, limits).value.header.Some? && ScanInput(input, limits).value.sawIend
    ensures var cs, s := Parse(input[8..]), ScanInput(input, limits).value;
            && cs.Some? && AllOk(cs.value) && input == SIGNATURE + EncodeAll(cs.value) && WellOrdered(cs.value, limits)
            && s.header == Some(ReadHeader(cs.value[0].data)) && s.compressed == IdatData(cs.value)
            && s.palette == LastData(cs.value, Palette)
  {
    var cs := Parse(input[8..]).value;
    ParseIsTiling(input[8..], cs);
    assert input == input[..8] + input[8..];
    CompleteIsWellOrdered(cs, limits);
    ScanIsRules(cs, limits);
  }

  /** Every accepted input is such an encoding. */
  lemma AcceptedIsEncoded(input: Bytes, limits: PngLimits, inflate: Inflate, sha: Hash)
    requires Decoded(input, limits, inflate, sha).Some?
    ensures exists cs, filters, rows :: Encodes(input, limits, inflate, cs, filters, rows)
  {
    hide Parse, ScanInput, WellOrdered, LastData, IdatData, Pixels, FilterBytes, UnfilterRows, Rows, AllOk, EncodeAll,
         Compresses;
    HeaderBounds(input, limits);
    AcceptedChunks(input, limits);
    var cs, s := Parse(input[8..]).value, ScanInput(input, limits).value;
    var h, stream := s.header.value, Stream(s, limits, inflate).value;
    var n := Channels(h.colorType);
    StreamCompresses(h, limits, inflate, s.compressed, stream);
    assert Encodes(input, limits, inflate, cs, FilterBytes(stream, h.width * n),
                   UnfilterRows(stream, None, h.width * n, n));
  }

  /** The output is exactly four octets a pixel within every bound, and an
      image not flagged for alpha is opaque. */
  lemma DecodedIsBounded(input: Bytes, limits: PngLimits, inflate: Inflate, sha: Hash)
    requires Decoded(input, limits, inflate, sha).Some?
    ensures var d := Decoded(input, limits, inflate, sha).value;
            && 0 < d.dimensions.width <= limits.maxWidth && 0 < d.dimensions.height <= limits.maxHeight
            && |d.pixels| == 4 * Manifest.PixelCount(d.dimensions) <= limits.maxDecodedBytes
            && Manifest.PixelCount(d.dimensions) <= limits.maxPixels
            && (!d.hasAlpha ==> Solid(d.pixels))
            && d.sha256 == sha(input)
  {
    HeaderBounds(input, limits);
  }

  /** Damage confined to 32 consecutive bits of one chunk's type and data is
      always noticed. */
  lemma BurstIsRejected(
    input: Bytes, limits: PngLimits, inflate: Inflate, sha: Hash,
    before: seq<Chunk>, c: Chunk, kind: Bytes, data: Bytes, rest: Bytes)
    requires AllOk(before) && ChunkOk(c) && |kind| == 4 && |data| == |c.data|
    requires Burst(c.kind + c.data, kind + data, 32)
    requires input == SIGNATURE + (EncodeAll(before) + (Encode(Chunk(kind, data, c.crc)) + rest))
    ensures Decoded(input, limits, inflate, sha) == None
  {
    BurstBreaksParse(before, c, kind, data, rest);
    assert input[8..] == EncodeAll(before) + (Encode(Chunk(kind, data, c.crc)) + rest);
  }
}
