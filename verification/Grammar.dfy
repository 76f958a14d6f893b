/** Which chunk sequences the decoder accepts. */
module Grammar {
  import opened Bytes
  import opened Chunks

  predicate HeaderOk(d: Bytes, limits: PngLimits) {
    && |d| == 13
    && var width, height := Be32(d[0..4]), Be32(d[4..8]);
    && 0 < width <= limits.maxWidth && 0 < height <= limits.maxHeight
    && width * height <= limits.maxPixels && width * height * 4 <= limits.maxDecodedBytes
    && d[10] == 0 && d[11] == 0 && d[12] == 0 && d[8] == 8
    && d[9] in {0, 2, 3, 4, 6}
  }

  predicate PaletteOk(d: Bytes) {
    d != [] && |d| % 3 == 0 && |d| <= 256 * 3
  }

  predicate TransparencyOk(d: Bytes) {
    |d| <= 256 * 2
  }

  datatype Kind = ImageHeader | Palette | Transparency | ImageData | ImageEnd | UnknownCritical | Ancillary

  /** Unknown chunks are critical when their first letter is upper case. */
  function KindOf(kind: Bytes): Kind {
    if kind == IHDR then ImageHeader
    else if kind == PLTE then Palette
    else if kind == TRNS then Transparency
    else if kind == IDAT then ImageData
    else if kind == IEND then ImageEnd
    else if |kind| > 0 && 65 <= kind[0] <= 90 then UnknownCritical
    else Ancillary
  }

  function Role(c: Chunk): Kind {
    KindOf(c.kind)
  }

  function ReadHeader(d: Bytes): Header
    requires |d| == 13
  {
    Header(Be32(d[0..4]), Be32(d[4..8]), d[9])
  }

  /** The `match kind` of the chunk loop; nothing may follow IEND. */
  function ScanChunk(s: Scan, c: Chunk, first: bool, limits: PngLimits): Option<Scan> {
    if s.sawIend then None
    else
      match Role(c)
      case ImageHeader =>
        if first && s.header.None? && HeaderOk(c.data, limits)
        then Some(s.(header := Some(ReadHeader(c.data)))) else None
      case Palette =>
        if PaletteOk(c.data) && !s.sawIdat then Some(s.(palette := Some(c.data))) else None
      case Transparency =>
        if TransparencyOk(c.data) && !s.sawIdat then Some(s.(transparency := Some(c.data))) else None
      case ImageData =>
        if s.header.Some? then Some(s.(sawIdat := true, compressed := s.compressed + c.data)) else None
      case ImageEnd =>
        if c.data == [] && s.sawIdat then Some(s.(sawIend := true)) else None
      case UnknownCritical => None
      case Ancillary => Some(s)
  }

  function ScanAll(cs: seq<Chunk>, limits: PngLimits): Option<Scan>
  {
    if cs == [] then Some(START)
    else
      var n := |cs| - 1;
      var s := ScanAll(cs[..n], limits);
      if s.None? then None else ScanChunk(s.value, cs[n], n == 0, limits)
  }

  lemma {:induction false} ScanStuck(cs: seq<Chunk>, more: seq<Chunk>, limits: PngLimits)
    requires ScanAll(cs, limits) == None
    ensures ScanAll(cs + more, limits) == None
    decreases |more|
  {
    if more == [] {
      assert cs + more == cs;
    } else {
      var n := |more| - 1;
      assert (cs + more)[..|cs| + n] == cs + more[..n];
      ScanStuck(cs, more[..n], limits);
    }
  }

  // ----- The same rules, stated of the whole sequence -----

  ghost predicate HasIdat(cs: seq<Chunk>) {
    exists i | 0 <= i < |cs| :: Role(cs[i]) == ImageData
  }

  /** What the rules demand of the chunk at one position. */
  ghost predicate Rule(cs: seq<Chunk>, i: nat, limits: PngLimits)
    requires i < |cs|
  {
    var c := cs[i];
    && (i > 0 ==> Role(cs[i - 1]) != ImageEnd)
    && (Role(c) == ImageHeader ==> i == 0 && HeaderOk(c.data, limits))
    && (Role(c) == Palette ==> PaletteOk(c.data) && !HasIdat(cs[..i]))
    && (Role(c) == Transparency ==> TransparencyOk(c.data) && !HasIdat(cs[..i]))
    && (Role(c) == ImageData ==> i > 0 && Role(cs[0]) == ImageHeader)
    && (Role(c) == ImageEnd ==> c.data == [] && HasIdat(cs[..i]))
    && Role(c) != UnknownCritical
  }

  ghost predicate Rules(cs: seq<Chunk>, limits: PngLimits)
  {
    forall i | 0 <= i < |cs| :: Rule(cs, i, limits)
  }

  function IdatData(cs: seq<Chunk>): Bytes {
    if cs == [] then []
    else IdatData(cs[..|cs| - 1]) + (if Role(cs[|cs| - 1]) == ImageData then cs[|cs| - 1].data else [])
  }

  /** The data of the last chunk of some kind. */
  function LastData(cs: seq<Chunk>, kind: Kind): Option<Bytes> {
    if cs == [] then None
    else if Role(cs[|cs| - 1]) == kind then Some(cs[|cs| - 1].data)
    else LastData(cs[..|cs| - 1], kind)
  }

  ghost predicate Summary(s: Scan, cs: seq<Chunk>)
  {
    && s.header == (if |cs| > 0 && Role(cs[0]) == ImageHeader && |cs[0].data| == 13
                    then Some(ReadHeader(cs[0].data)) else None)
    && s.palette == LastData(cs, Palette)
    && s.transparency == LastData(cs, Transparency)
    && s.compressed == IdatData(cs)
    && (s.sawIdat <==> HasIdat(cs))
    && (s.sawIend <==> |cs| > 0 && Role(cs[|cs| - 1]) == ImageEnd)
  }

  lemma HasIdatAppend(cs: seq<Chunk>, c: Chunk)
    ensures HasIdat(cs + [c]) <==> HasIdat(cs) || Role(c) == ImageData
  {
    var all := cs + [c];
    assert all[|cs|] == c;
    forall i | 0 <= i < |cs| && Role(cs[i]) == ImageData
      ensures HasIdat(all)
    {
      assert all[i] == cs[i];
    }
  }

  lemma RulesAppend(cs: seq<Chunk>, c: Chunk, limits: PngLimits)
    ensures Rules(cs + [c], limits) <==> Rules(cs, limits) && Rule(cs + [c], |cs|, limits)
  {
    var all := cs + [c];
    forall i | 0 <= i < |cs|
      ensures Rule(all, i, limits) <==> Rule(cs, i, limits)
    {
      assert all[..i] == cs[..i];
    }
  }

  lemma RuleOfLast(s: Scan, cs: seq<Chunk>, c: Chunk, limits: PngLimits)
    requires Summary(s, cs) && Rules(cs, limits)
    ensures ScanChunk(s, c, cs == [], limits).Some? <==> Rule(cs + [c], |cs|, limits)
  {
    assert |cs| > 0 && HeaderOk(cs[0].data, limits) ==> |cs[0].data| == 13;
    hide KindOf, HeaderOk, PaletteOk, TransparencyOk, ReadHeader;
    var all := cs + [c];
    assert all[..|cs|] == cs && all[|cs|] == c;
    assert |cs| > 0 ==> Rule(cs, 0, limits) && all[0] == cs[0] && all[|cs| - 1] == cs[|cs| - 1];
  }

  lemma SummaryAppend(s: Scan, cs: seq<Chunk>, c: Chunk, limits: PngLimits)
    requires Summary(s, cs)
    requires ScanChunk(s, c, cs == [], limits).Some?
    ensures Summary(ScanChunk(s, c, cs == [], limits).value, cs + [c])
  {
    hide KindOf, PaletteOk, TransparencyOk, ReadHeader;
    var all := cs + [c];
    assert all[..|all| - 1] == cs && all[|cs|] == c;
    assert |cs| > 0 ==> all[0] == cs[0];
    HasIdatAppend(cs, c);
  }

  /** The one-pass scan accepts exactly the sequences that obey the rules, and
      leaves behind what the rest of the decoder needs. */
  lemma {:induction false} ScanIsRules(cs: seq<Chunk>, limits: PngLimits)
    ensures ScanAll(cs, limits).Some? <==> Rules(cs, limits)
    ensures ScanAll(cs, limits).Some? ==> Summary(ScanAll(cs, limits).value, cs)
    decreases |cs|
  {
    if cs != [] {
      var n := |cs| - 1;
      var before, c := cs[..n], cs[n];
      assert cs == before + [c];
      ScanIsRules(before, limits);
      RulesAppend(before, c, limits);
      if ScanAll(before, limits).Some? {
        var s := ScanAll(before, limits).value;
        RuleOfLast(s, before, c, limits);
        if ScanChunk(s, c, n == 0, limits).Some? {
          SummaryAppend(s, before, c, limits);
        }
      }
    }
  }

  /** The order rules of section 4.3 of RFC 2083 that the decoder enforces. */
  ghost predicate WellOrdered(cs: seq<Chunk>, limits: PngLimits)
  {
    && |cs| > 0 && Role(cs[0]) == ImageHeader && HeaderOk(cs[0].data, limits)
    && Role(cs[|cs| - 1]) == ImageEnd && cs[|cs| - 1].data == []
    && HasIdat(cs)
    && (forall i | 0 < i < |cs| :: Role(cs[i]) != ImageHeader)
    && (forall i | 0 <= i < |cs| - 1 :: Role(cs[i]) != ImageEnd)
    && (forall i | 0 <= i < |cs| && Role(cs[i]) == Palette :: PaletteOk(cs[i].data) && !HasIdat(cs[..i]))
    && (forall i | 0 <= i < |cs| && Role(cs[i]) == Transparency :: TransparencyOk(cs[i].data) && !HasIdat(cs[..i]))
    && (forall i | 0 <= i < |cs| :: Role(cs[i]) != UnknownCritical)
  }

  lemma WellOrderedObeysRules(cs: seq<Chunk>, limits: PngLimits)
    requires WellOrdered(cs, limits)
    ensures Rules(cs, limits) && |cs[0].data| == 13
  {
    var n := |cs|;
    assert |cs[0].data| == 13;
    hide KindOf, HeaderOk, PaletteOk, TransparencyOk;
    forall i | 0 <= i < n
      ensures Rule(cs, i, limits)
    {
      if i == n - 1 {
        var k :| 0 <= k < n && Role(cs[k]) == ImageData;
        assert k < i && cs[..i][k] == cs[k];
      }
    }
  }

  lemma RulesAreWellOrdered(cs: seq<Chunk>, limits: PngLimits)
    requires |cs| > 0 && Rules(cs, limits) && Role(cs[0]) == ImageHeader && Role(cs[|cs| - 1]) == ImageEnd
    ensures WellOrdered(cs, limits)
  {
    hide KindOf, HeaderOk, PaletteOk, TransparencyOk;
    var n := |cs|;
    assert Rule(cs, 0, limits) && Rule(cs, n - 1, limits);
    assert cs == cs[..n - 1] + [cs[n - 1]];
    HasIdatAppend(cs[..n - 1], cs[n - 1]);
    forall i | 0 <= i < n
      ensures Rule(cs, i, limits) && (i < n - 1 ==> Role(cs[i]) != ImageEnd)
    {
      assert i < n - 1 ==> Rule(cs, i + 1, limits);
    }
  }

  /** The chunk loop ends well exactly on the well-ordered sequences. */
  lemma CompleteIsWellOrdered(cs: seq<Chunk>, limits: PngLimits)
    ensures (ScanAll(cs, limits).Some? && ScanAll(cs, limits).value.header.Some? && ScanAll(cs, limits).value.sawIend)
       <==> WellOrdered(cs, limits)
  {
    ScanIsRules(cs, limits);
    if WellOrdered(cs, limits) {
      WellOrderedObeysRules(cs, limits);
    } else if Rules(cs, limits) && |cs| > 0 && Role(cs[|cs| - 1]) == ImageEnd && Role(cs[0]) == ImageHeader {
      RulesAreWellOrdered(cs, limits);
    }
  }
}
