/** PNG row filters (section 6 of RFC 2083) and the in-place loop that undoes
    them. */
module Filters {
  import opened Bytes

  function Abs(x: int): nat {
    if x < 0 then -x else x
  }

  function Paeth(a: byte, b: byte, c: byte): byte {
    var p := a + b - c;
    var pa, pb, pc := Abs(p - a), Abs(p - b), Abs(p - c);
    if pa <= pb && pa <= pc then a
    else if pb <= pc then b
    else c
  }

  /** The predictor is the neighbour nearest to a + b - c, and among equally
      near ones the first of left, above, upper left. */
  lemma PaethIsNearest(a: byte, b: byte, c: byte)
    ensures var p, r := a + b - c, Paeth(a, b, c);
            && r in {a, b, c}
            && Abs(p - r) <= Abs(p - a) && Abs(p - r) <= Abs(p - b) && Abs(p - r) <= Abs(p - c)
            && (Abs(p - a) == Abs(p - r) ==> r == a)
            && (Abs(p - a) != Abs(p - r) && Abs(p - b) == Abs(p - r) ==> r == b)
  {
  }

  /** The prediction of each filter type; a type above 4 never gets here
      because both loops reject it first. */
  function Predict(filter: byte, left: byte, above: byte, upperLeft: byte): byte {
    match filter
    case 0 => 0
    case 1 => left
    case 2 => above
    case 3 => (left + above) / 2
    case 4 => Paeth(left, above, upperLeft)
    case _ => 0
  }

  /** The byte `distance` before index `i`, or 0 off the row. */
  function Before(row: Bytes, i: nat, distance: nat): byte
    requires i < |row| + distance
  {
    if i >= distance then row[i - distance] else 0
  }

  function PredictAt(filter: byte, row: Bytes, i: nat, previous: Option<Bytes>, bpp: nat): byte
    requires bpp > 0 && i < |row| + bpp
    requires previous.Some? ==> i < |previous.value|
  {
    var above := if previous.Some? then previous.value[i] else 0;
    var upperLeft := if previous.Some? then Before(previous.value, i, bpp) else 0;
    Predict(filter, Before(row, i, bpp), above, upperLeft)
  }

  predicate Fits(previous: Option<Bytes>, length: nat) {
    previous.Some? ==> |previous.value| == length
  }

  /** A raw row as the encoder of RFC 2083 filters it. */
  function Filtered(filter: byte, raw: Bytes, previous: Option<Bytes>, bpp: nat): (r: Bytes)
    requires bpp > 0 && Fits(previous, |raw|)
    ensures |r| == |raw|
  {
    seq(|raw|, i requires 0 <= i < |raw| => (raw[i] - PredictAt(filter, raw, i, previous, bpp)) % 256)
  }

  /** The first `n` bytes the decoder recovers. */
  function Unfiltered(filter: byte, source: Bytes, previous: Option<Bytes>, bpp: nat, n: nat): (r: Bytes)
    requires bpp > 0 && n <= |source| && Fits(previous, |source|)
    ensures |r| == n
  {
    if n == 0 then []
    else
      var r := Unfiltered(filter, source, previous, bpp, n - 1);
      r + [(source[n - 1] + PredictAt(filter, r, n - 1, previous, bpp)) % 256]
  }

  lemma AddBack(x: byte, p: byte)
    ensures ((x - p) % 256 + p) % 256 == x && ((x + p) % 256 - p) % 256 == x
  {
  }

  lemma PredictAtPrefix(filter: byte, row: Bytes, i: nat, previous: Option<Bytes>, bpp: nat)
    requires bpp > 0 && i < |row| && Fits(previous, |row|)
    ensures PredictAt(filter, row[..i], i, previous, bpp) == PredictAt(filter, row, i, previous, bpp)
  {
  }

  lemma {:induction false} UnfilterInvertsFilter(
    filter: byte, raw: Bytes, previous: Option<Bytes>, bpp: nat, n: nat)
    requires bpp > 0 && Fits(previous, |raw|) && n <= |raw|
    ensures Unfiltered(filter, Filtered(filter, raw, previous, bpp), previous, bpp, n) == raw[..n]
  {
    hide PredictAt;
    if n > 0 {
      UnfilterInvertsFilter(filter, raw, previous, bpp, n - 1);
      PredictAtPrefix(filter, raw, n - 1, previous, bpp);
      AddBack(raw[n - 1], PredictAt(filter, raw, n - 1, previous, bpp));
      assert raw[..n] == raw[..n - 1] + [raw[n - 1]];
    }
  }

  lemma {:induction false} UnfilteredPrefix(
    filter: byte, source: Bytes, previous: Option<Bytes>, bpp: nat, m: nat, n: nat)
    requires bpp > 0 && m <= n <= |source| && Fits(previous, |source|)
    ensures Unfiltered(filter, source, previous, bpp, n)[..m] == Unfiltered(filter, source, previous, bpp, m)
    decreases n
  {
    if m < n {
      UnfilteredPrefix(filter, source, previous, bpp, m, n - 1);
      assert Unfiltered(filter, source, previous, bpp, n)[..n - 1]
          == Unfiltered(filter, source, previous, bpp, n - 1);
    }
  }

  lemma UnfilteredAt(filter: byte, source: Bytes, previous: Option<Bytes>, bpp: nat, i: nat)
    requires bpp > 0 && i < |source| && Fits(previous, |source|)
    ensures var raw := Unfiltered(filter, source, previous, bpp, |source|);
            raw[i] == (source[i] + PredictAt(filter, raw, i, previous, bpp)) % 256
  {
    var raw := Unfiltered(filter, source, previous, bpp, |source|);
    UnfilteredPrefix(filter, source, previous, bpp, i, |source|);
    UnfilteredPrefix(filter, source, previous, bpp, i + 1, |source|);
    PredictAtPrefix(filter, raw, i, previous, bpp);
    assert raw[i] == raw[..i + 1][i];
  }

  lemma FilterInvertsUnfilter(filter: byte, source: Bytes, previous: Option<Bytes>, bpp: nat)
    requires bpp > 0 && Fits(previous, |source|)
    ensures Filtered(filter, Unfiltered(filter, source, previous, bpp, |source|), previous, bpp) == source
  {
    var raw := Unfiltered(filter, source, previous, bpp, |source|);
    forall i | 0 <= i < |source|
      ensures Filtered(filter, raw, previous, bpp)[i] == source[i]
    {
      UnfilteredAt(filter, source, previous, bpp, i);
      AddBack(source[i], PredictAt(filter, raw, i, previous, bpp));
    }
  }

  // ----- What each filter type means -----

  function Distance(x: int, y: int): nat {
    if x < y then y - x else x - y
  }

  /** Section 6 of RFC 2083, octet by octet: nothing, Sub, Up, Average, Paeth. */
  predicate Restores(filter: byte, x: byte, left: byte, above: byte, upperLeft: byte, out: byte) {
    && (filter == 0 ==> out == x)
    && (filter == 1 ==> out == (x + left) % 256)
    && (filter == 2 ==> out == (x + above) % 256)
    && (filter == 3 ==> out == (x + (left + above) / 2) % 256)
    && (filter == 4 ==>
          var p := left + above - upperLeft;
          out == (x + if Distance(left, p) <= Distance(above, p) && Distance(left, p) <= Distance(upperLeft, p)
                      then left
                      else if Distance(above, p) <= Distance(upperLeft, p) then above
                      else upperLeft) % 256)
  }

  /** Octet `i` of a row, 0 when there is none. */
  function At(row: Option<Bytes>, i: int): byte {
    if row.Some? && 0 <= i < |row.value| then row.value[i] else 0
  }

  /** `out` is the row that `source` stands for after the row `previous`; off the
      row and above the first one everything is 0. */
  predicate RestoresRow(filter: byte, source: Bytes, previous: Option<Bytes>, bpp: nat, out: Bytes)
    requires Fits(previous, |source|)
  {
    && |out| == |source|
    && forall i | 0 <= i < |source| ::
         Restores(filter, source[i], At(Some(out), i - bpp), At(previous, i), At(previous, i - bpp), out[i])
  }

  lemma PredictionRestores(filter: byte, x: byte, left: byte, above: byte, upperLeft: byte, out: byte)
    requires filter <= 4
    ensures Restores(filter, x, left, above, upperLeft, out)
            <==> out == (x + Predict(filter, left, above, upperLeft)) % 256
  {
  }

  /** The decoder's row is that one. */
  lemma UnfilteredRestores(filter: byte, source: Bytes, previous: Option<Bytes>, bpp: nat)
    requires bpp > 0 && filter <= 4 && Fits(previous, |source|)
    ensures RestoresRow(filter, source, previous, bpp, Unfiltered(filter, source, previous, bpp, |source|))
  {
    hide Restores, Predict;
    var out := Unfiltered(filter, source, previous, bpp, |source|);
    forall i | 0 <= i < |source|
      ensures Restores(filter, source[i], At(Some(out), i - bpp), At(previous, i), At(previous, i - bpp), out[i])
    {
      UnfilteredAt(filter, source, previous, bpp, i);
      PredictionRestores(filter, source[i], At(Some(out), i - bpp), At(previous, i), At(previous, i - bpp), out[i]);
    }
  }

  /** And there is no other; so the encoder's row is the one that stands for it. */
  lemma {:induction false} RestoredPrefix(filter: byte, source: Bytes, previous: Option<Bytes>, bpp: nat, out: Bytes,
                                          n: nat)
    requires bpp > 0 && filter <= 4 && Fits(previous, |source|) && n <= |source|
    requires RestoresRow(filter, source, previous, bpp, out)
    ensures Unfiltered(filter, source, previous, bpp, n) == out[..n]
  {
    hide Restores, Predict;
    if n > 0 {
      var i := n - 1;
      RestoredPrefix(filter, source, previous, bpp, out, i);
      PredictionRestores(filter, source[i], At(Some(out), i - bpp), At(previous, i), At(previous, i - bpp), out[i]);
      assert out[..n] == out[..i] + [out[i]];
    }
  }

  /** Both sides of the filter, with nothing of either in the statement: `raw` is
      what the decoder makes of a row exactly when the row is what the encoder
      makes of `raw`, and exactly when RFC 2083 says that it stands for it. */
  lemma RowMeans(filter: byte, source: Bytes, previous: Option<Bytes>, bpp: nat, raw: Bytes)
    requires bpp > 0 && filter <= 4 && Fits(previous, |source|) && |raw| == |source|
    ensures RestoresRow(filter, source, previous, bpp, raw)
       <==> Unfiltered(filter, source, previous, bpp, |source|) == raw
    ensures RestoresRow(filter, source, previous, bpp, raw) <==> Filtered(filter, raw, previous, bpp) == source
  {
    UnfilteredRestores(filter, source, previous, bpp);
    FilterInvertsUnfilter(filter, source, previous, bpp);
    UnfilterInvertsFilter(filter, raw, previous, bpp, |raw|);
    hide Restores, Predict, Filtered, RestoresRow;
    assert raw[..|raw|] == raw;
    if RestoresRow(filter, source, previous, bpp, raw) {
      RestoredPrefix(filter, source, previous, bpp, raw, |source|);
    }
  }

  // ----- Whole images -----

  function Concat(rows: seq<Bytes>): Bytes {
    if rows == [] then [] else Concat(rows[..|rows| - 1]) + rows[|rows| - 1]
  }

  ghost predicate Rectangular(rows: seq<Bytes>, width: nat) {
    forall i | 0 <= i < |rows| :: |rows[i]| == width
  }

  predicate ValidFilters(filters: Bytes) {
    forall i | 0 <= i < |filters| :: filters[i] <= 4
  }

  /** The stream an encoder emits: each row preceded by its filter byte. */
  ghost function FilterRows(filters: Bytes, rows: seq<Bytes>, previous: Option<Bytes>, width: nat, bpp: nat): Bytes
    requires |filters| == |rows| && Rectangular(rows, width) && Fits(previous, width)
    requires bpp > 0
    decreases |rows|
  {
    if rows == [] then []
    else [filters[0]] + Filtered(filters[0], rows[0], previous, bpp)
         + FilterRows(filters[1..], rows[1..], Some(rows[0]), width, bpp)
  }

  /** The filter bytes of a scanline stream. */
  function FilterBytes(stream: Bytes, width: nat): Bytes
    decreases |stream|
  {
    if |stream| < width + 1 then [] else [stream[0]] + FilterBytes(stream[width + 1..], width)
  }

  function UnfilterRows(stream: Bytes, previous: Option<Bytes>, width: nat, bpp: nat): (rows: seq<Bytes>)
    requires bpp > 0 && Fits(previous, width)
    ensures Rectangular(rows, width) && |rows| == |FilterBytes(stream, width)|
    decreases |stream|
  {
    if |stream| < width + 1 then []
    else
      var rest := stream[width + 1..];
      var row := Unfiltered(stream[0], stream[1..width + 1], previous, bpp, width);
      [row] + UnfilterRows(rest, Some(row), width, bpp)
  }

  /** Decoding what RFC 2083 encodes gives the image back, whatever filter
      each row chose. */
  lemma {:induction false} UnfilterInvertsFilterRows(
    filters: Bytes, rows: seq<Bytes>, previous: Option<Bytes>, width: nat, bpp: nat)
    requires |filters| == |rows| && Rectangular(rows, width) && Fits(previous, width)
    requires bpp > 0
    ensures var stream := FilterRows(filters, rows, previous, width, bpp);
            && FilterBytes(stream, width) == filters
            && UnfilterRows(stream, previous, width, bpp) == rows
    decreases |rows|
  {
    if rows != [] {
      var stream := FilterRows(filters, rows, previous, width, bpp);
      var row := Filtered(filters[0], rows[0], previous, bpp);
      var rest := FilterRows(filters[1..], rows[1..], Some(rows[0]), width, bpp);
      UnfilterInvertsFilterRows(filters[1..], rows[1..], Some(rows[0]), width, bpp);
      assert stream[0] == filters[0] && stream[1..width + 1] == row && stream[width + 1..] == rest;
      UnfilterInvertsFilter(filters[0], rows[0], previous, bpp, width);
      assert rows[0][..width] == rows[0];
      assert filters == [filters[0]] + filters[1..];
      assert rows == [rows[0]] + rows[1..];
    }
  }

  /** `stream` is a whole number of scanlines. */
  ghost predicate Tiled(stream: Bytes, width: nat)
    decreases |stream|
  {
    stream == [] || (|stream| >= width + 1 && Tiled(stream[width + 1..], width))
  }

  /** Filtering the decoded rows again gives the stream back, so no two
      streams decode to the same rows with the same filter bytes. */
  lemma {:induction false} FilterInvertsUnfilterRows(stream: Bytes, previous: Option<Bytes>, width: nat, bpp: nat)
    requires bpp > 0 && Fits(previous, width)
    requires Tiled(stream, width)
    ensures FilterRows(FilterBytes(stream, width), UnfilterRows(stream, previous, width, bpp), previous, width, bpp)
         == stream
    decreases |stream|
  {
    hide Filtered, Unfiltered;
    var filters := FilterBytes(stream, width);
    if |stream| >= width + 1 {
      var rest, source := stream[width + 1..], stream[1..width + 1];
      var row := Unfiltered(stream[0], source, previous, bpp, width);
      assert filters[1..] == FilterBytes(rest, width) && filters[0] == stream[0];
      assert UnfilterRows(stream, previous, width, bpp)[1..] == UnfilterRows(rest, Some(row), width, bpp);
      FilterInvertsUnfilter(stream[0], source, previous, bpp);
      FilterInvertsUnfilterRows(rest, Some(row), width, bpp);
      RowAndRest(stream, width);
    }
  }

  lemma RowAndRest(stream: Bytes, width: nat)
    requires |stream| >= width + 1
    ensures stream == [stream[0]] + stream[1..width + 1] + stream[width + 1..]
  {
  }

  /** Scanline `k` of a stream, its filter byte first. */
  function Scanline(stream: Bytes, width: nat, k: nat): Option<Bytes>
    decreases k
  {
    if |stream| < width + 1 then None
    else if k == 0 then Some(stream[..width + 1])
    else Scanline(stream[width + 1..], width, k - 1)
  }

  /** Row `k` is what its scanline stands for after the row before. */
  predicate RestoresScanline(stream: Bytes, previous: Option<Bytes>, width: nat, bpp: nat, rows: seq<Bytes>, k: nat)
    requires Fits(previous, width) && k < |rows|
  {
    var line, above := Scanline(stream, width, k), if k == 0 then previous else Some(rows[k - 1]);
    && line.Some? && |line.value| == width + 1 && line.value[0] <= 4 && Fits(above, width)
    && RestoresRow(line.value[0], line.value[1..], above, bpp, rows[k])
  }

  predicate RestoresImage(stream: Bytes, previous: Option<Bytes>, width: nat, bpp: nat, rows: seq<Bytes>)
    requires Fits(previous, width)
  {
    forall k | 0 <= k < |rows| :: RestoresScanline(stream, previous, width, bpp, rows, k)
  }

  lemma NextScanline(stream: Bytes, previous: Option<Bytes>, width: nat, bpp: nat, row: Bytes, rows: seq<Bytes>, k: nat)
    requires Fits(previous, width) && |stream| >= width + 1 && |row| == width && k < |rows|
    requires RestoresScanline(stream[width + 1..], Some(row), width, bpp, rows, k)
    ensures RestoresScanline(stream, previous, width, bpp, [row] + rows, k + 1)
  {
    hide RestoresRow;
    assert Scanline(stream, width, k + 1) == Scanline(stream[width + 1..], width, k);
    assert ([row] + rows)[k] == if k == 0 then row else rows[k - 1];
  }

  lemma {:induction false} UnfilteredRowsRestore(stream: Bytes, previous: Option<Bytes>, width: nat, bpp: nat)
    requires bpp > 0 && Fits(previous, width) && ValidFilters(FilterBytes(stream, width))
    ensures RestoresImage(stream, previous, width, bpp, UnfilterRows(stream, previous, width, bpp))
    decreases |stream|
  {
    hide Unfiltered, RestoresRow, RestoresScanline;
    if |stream| >= width + 1 {
      var rest, filter, source := stream[width + 1..], stream[0], stream[1..width + 1];
      var row := Unfiltered(filter, source, previous, bpp, width);
      RestOfFilters(stream, width);
      UnfilteredRowsRestore(rest, Some(row), width, bpp);
      var others := UnfilterRows(rest, Some(row), width, bpp);
      var rows := [row] + others;
      forall k | 0 <= k < |rows| ensures RestoresScanline(stream, previous, width, bpp, rows, k) {
        if k == 0 {
          FirstScanline(stream, previous, width, bpp, rows);
        } else {
          NextScanline(stream, previous, width, bpp, row, others, k - 1);
        }
      }
    }
  }

  lemma RestOfFilters(stream: Bytes, width: nat)
    requires |stream| >= width + 1 && ValidFilters(FilterBytes(stream, width))
    ensures stream[0] <= 4 && ValidFilters(FilterBytes(stream[width + 1..], width))
  {
    var filters := FilterBytes(stream, width);
    assert filters[0] == stream[0] && filters[1..] == FilterBytes(stream[width + 1..], width);
  }

  lemma FirstScanline(stream: Bytes, previous: Option<Bytes>, width: nat, bpp: nat, rows: seq<Bytes>)
    requires bpp > 0 && Fits(previous, width) && |stream| >= width + 1 && stream[0] <= 4 && rows != []
    requires rows[0] == Unfiltered(stream[0], stream[1..width + 1], previous, bpp, width)
    ensures RestoresScanline(stream, previous, width, bpp, rows, 0)
  {
    UnfilteredRestores(stream[0], stream[1..width + 1], previous, bpp);
    hide RestoresRow, Unfiltered;
    assert stream[..width + 1][1..] == stream[1..width + 1];
  }

  // ----- The decoder's loops -----

  /** `unfilter_row`, filling the slice of the current row in place. */
  method UnfilterRow(filter: byte, source: Bytes, destination: array<byte>, previous: Option<Bytes>, bpp: nat)
    returns (ok: bool)
    requires bpp > 0 && Fits(previous, |source|)
    modifies destination
    ensures ok <==> |source| == destination.Length && (filter <= 4 || source == [])
    ensures ok ==> destination[..] == Unfiltered(filter, source, previous, bpp, |source|)
    ensures ok ==> RestoresRow(filter, source, previous, bpp, destination[..])
  {
    if |source| != destination.Length {
      return false;
    }
    for index := 0 to |source|
      invariant index > 0 ==> filter <= 4
      invariant destination[..index] == Unfiltered(filter, source, previous, bpp, index)
    {
      if filter > 4 {
        return false;
      }
      var left := if index >= bpp then destination[index - bpp] else 0;
      var above := if previous.Some? then previous.value[index] else 0;
      var upperLeft := if index >= bpp && previous.Some? then previous.value[index - bpp] else 0;
      assert left == Before(destination[..index], index, bpp);
      destination[index] := (source[index] + Predict(filter, left, above, upperLeft)) % 256;
    }
    assert destination[..] == destination[..|source|];
    RowIsRestored(filter, source, previous, bpp, destination[..]);
    ok := true;
  }

  lemma RowIsRestored(filter: byte, source: Bytes, previous: Option<Bytes>, bpp: nat, out: Bytes)
    requires bpp > 0 && Fits(previous, |source|) && (filter <= 4 || source == [])
    requires out == Unfiltered(filter, source, previous, bpp, |source|)
    ensures RestoresRow(filter, source, previous, bpp, out)
  {
    hide Restores;
    if filter <= 4 {
      UnfilteredRestores(filter, source, previous, bpp);
    }
  }

  /** What the row loop has established after consuming `src` bytes:
      `decoded` holds the finished rows, the last of them `previous`. */
  ghost predicate Progress(
    stream: Bytes, width: nat, bpp: nat, src: nat, used: Bytes, done: seq<Bytes>, previous: Option<Bytes>)
    requires bpp > 0
  {
    && src <= |stream| && Fits(previous, width) && ValidFilters(used)
    && FilterBytes(stream, width) == used + FilterBytes(stream[src..], width)
    && UnfilterRows(stream, None, width, bpp) == done + UnfilterRows(stream[src..], previous, width, bpp)
  }

  lemma ProgressStart(stream: Bytes, width: nat, bpp: nat)
    requires bpp > 0
    ensures Progress(stream, width, bpp, 0, [], [], None)
  {
    assert stream[0..] == stream;
  }

  lemma ProgressStep(
    stream: Bytes, width: nat, bpp: nat, src: nat, used: Bytes, done: seq<Bytes>, previous: Option<Bytes>)
    requires bpp > 0 && Progress(stream, width, bpp, src, used, done, previous) && src + width + 1 <= |stream|
    ensures stream[src] > 4 ==> !ValidFilters(FilterBytes(stream, width))
    ensures stream[src] <= 4 ==>
              var row := Unfiltered(stream[src], stream[src + 1..src + 1 + width], previous, bpp, width);
              Progress(stream, width, bpp, src + width + 1, used + [stream[src]], done + [row], Some(row))
  {
    var rest, next := stream[src..], stream[src + width + 1..];
    var row := Unfiltered(stream[src], stream[src + 1..src + 1 + width], previous, bpp, width);
    assert rest[1..width + 1] == stream[src + 1..src + 1 + width];
    assert rest[width + 1..] == next;
    assert FilterBytes(stream, width) == (used + [stream[src]]) + FilterBytes(next, width);
    assert FilterBytes(stream, width)[|used|] == stream[src];
    assert UnfilterRows(stream, None, width, bpp) == (done + [row]) + UnfilterRows(next, Some(row), width, bpp);
  }

  lemma ProgressEnds(
    stream: Bytes, width: nat, bpp: nat, src: nat, used: Bytes, done: seq<Bytes>, previous: Option<Bytes>)
    requires bpp > 0 && Progress(stream, width, bpp, src, used, done, previous) && src == |stream|
    ensures ValidFilters(FilterBytes(stream, width))
    ensures UnfilterRows(stream, None, width, bpp) == done
  {
    assert stream[src..] == [];
    assert done + [] == done && used + [] == used;
  }

  lemma ConcatAppend(rows: seq<Bytes>, row: Bytes)
    ensures Concat(rows + [row]) == Concat(rows) + row
  {
    assert (rows + [row])[..|rows|] == rows;
  }

  /** `count * size`, unfolded one addend at a time. */
  function Times(count: nat, size: nat): nat {
    if count == 0 then 0 else Times(count - 1, size) + size
  }

  lemma {:induction false} TimesIsProduct(count: nat, size: nat)
    ensures Times(count, size) == count * size
  {
    if count > 0 {
      TimesIsProduct(count - 1, size);
    }
  }

  lemma {:induction false} TimesMonotone(a: nat, b: nat, size: nat)
    requires a <= b
    ensures Times(a, size) <= Times(b, size)
    decreases b
  {
    if a < b {
      TimesMonotone(a, b - 1, size);
    }
  }

  /** One turn of the row loop. */
  method NextRow(stream: Bytes, start: nat, width: nat, bpp: nat, previous: Option<Bytes>,
                 ghost used: Bytes, ghost done: seq<Bytes>)
    returns (ok: bool, row: Bytes)
    requires bpp > 0 && width > 0 && start + width + 1 <= |stream|
    requires Progress(stream, width, bpp, start, used, done, previous) && Fits(previous, width)
    ensures !ok ==> !ValidFilters(FilterBytes(stream, width))
    ensures ok ==> |row| == width
                   && Progress(stream, width, bpp, start + width + 1, used + [stream[start]], done + [row], Some(row))
  {
    hide Progress, UnfilterRows, FilterBytes, Unfiltered, ValidFilters;
    ProgressStep(stream, width, bpp, start, used, done, previous);
    var filter, source := stream[start], stream[start + 1..start + 1 + width];
    var current := new byte[width](_ => 0);
    ok := UnfilterRow(filter, source, current, previous, bpp);
    row := current[..];
  }

  /** The row loop of `decode_png`. */
  method UnfilterImage(stream: Bytes, height: nat, width: nat, bpp: nat) returns (rows: Bytes, ok: bool)
    requires bpp > 0 && width > 0 && |stream| == Times(height, width + 1)
    ensures ok <==> ValidFilters(FilterBytes(stream, width))
    ensures ok ==> |rows| == Times(height, width) && rows == Concat(UnfilterRows(stream, None, width, bpp))
  {
    rows, ok := [], true;
    var previous: Option<Bytes> := None;
    ghost var done: seq<Bytes>, used: Bytes := [], [];
    ProgressStart(stream, width, bpp);
    assert Concat(done) == [];
    hide Progress, UnfilterRows, FilterBytes, Concat, ValidFilters;
    for row := 0 to height
      invariant ok && Fits(previous, width) && |rows| == Times(row, width) && rows == Concat(done)
      invariant Progress(stream, width, bpp, Times(row, width + 1), used, done, previous)
    {
      TimesMonotone(row + 1, height, width + 1);
      var start := Times(row, width + 1);
      var current;
      ok, current := NextRow(stream, start, width, bpp, previous, used, done);
      if !ok {
        return;
      }
      ConcatAppend(done, current);
      used, done, previous := used + [stream[start]], done + [current], Some(current);
      rows := rows + current;
    }
    ProgressEnds(stream, width, bpp, Times(height, width + 1), used, done, previous);
  }
}
