/** The chunk layer of the PNG decoder: framing, CRC and the order rules. */
module Chunks {
  import opened Bytes
  import opened Crc

  const SIGNATURE: Bytes := [137, 80, 78, 71, 13, 10, 26, 10]
  const IHDR: Bytes := [73, 72, 68, 82]
  const PLTE: Bytes := [80, 76, 84, 69]
  const TRNS: Bytes := [116, 82, 78, 83]
  const IDAT: Bytes := [73, 68, 65, 84]
  const IEND: Bytes := [73, 69, 78, 68]

  datatype PngLimits = PngLimits(
    maxFileBytes: nat, maxWidth: nat, maxHeight: nat, maxPixels: nat, maxDecodedBytes: nat)

  datatype Chunk = Chunk(kind: Bytes, data: Bytes, crc: Bytes)

  datatype Header = Header(width: nat, height: nat, colorType: byte)

  /** What the chunk loop carries from one chunk to the next. */
  datatype Scan = Scan(
    header: Option<Header>, palette: Option<Bytes>, transparency: Option<Bytes>, compressed: Bytes,
    sawIdat: bool, sawIend: bool)

  const START := Scan(None, None, None, [], false, false)

  // ----- Framing -----

  function Push(high: nat, low: byte): nat {
    high * 256 + low
  }

  function Be32(b: Bytes): nat
    requires |b| == 4
  {
    Push(Push(Push(b[0], b[1]), b[2]), b[3])
  }

  function ToBe32(n: nat): (r: Bytes)
    requires n < 0x1_0000_0000
    ensures |r| == 4 && Be32(r) == n
  {
    var high := n / 256;
    var higher := high / 256;
    [higher / 256, higher % 256, high % 256, n % 256]
  }

  lemma PushInjective(x: nat, a: byte, y: nat, b: byte)
    requires Push(x, a) == Push(y, b)
    ensures x == y && a == b
  {
  }

  lemma Be32Injective(a: Bytes, b: Bytes)
    requires |a| == |b| == 4 && Be32(a) == Be32(b)
    ensures a == b
  {
    hide Push;
    PushInjective(Push(Push(a[0], a[1]), a[2]), a[3], Push(Push(b[0], b[1]), b[2]), b[3]);
    PushInjective(Push(a[0], a[1]), a[2], Push(b[0], b[1]), b[2]);
    PushInjective(a[0], a[1], b[0], b[1]);
  }

  lemma Be32Bound(a: Bytes)
    requires |a| == 4
    ensures Be32(a) < 0x1_0000_0000
  {
  }

  /** The four stored octets as the word they spell, most significant first. */
  function StoredCrc(crc: Bytes): Word
    requires |crc| == 4
  {
    ByteBits(crc[3]) + ByteBits(crc[2]) + ByteBits(crc[1]) + ByteBits(crc[0])
  }

  predicate ChunkOk(c: Chunk) {
    && |c.kind| == 4 && |c.crc| == 4 && |c.data| < 0x1_0000_0000
    && StoredCrc(c.crc) == Crc32(c.kind + c.data)
  }

  ghost predicate AllOk(cs: seq<Chunk>) {
    forall i | 0 <= i < |cs| :: ChunkOk(cs[i])
  }

  function Encode(c: Chunk): (r: Bytes)
    requires |c.data| < 0x1_0000_0000
  {
    ToBe32(|c.data|) + c.kind + c.data + c.crc
  }

  ghost function EncodeAll(cs: seq<Chunk>): Bytes
    requires AllOk(cs)
  {
    if cs == [] then [] else Encode(cs[0]) + EncodeAll(cs[1..])
  }

  /** The first chunk of `b`, when it is complete and its CRC is right. */
  function FirstChunk(b: Bytes): (r: Option<Chunk>)
    ensures r.Some? ==> ChunkOk(r.value) && |b| >= 12 + |r.value.data|
  {
    if |b| < 12 then None
    else
      var length := Be32(b[..4]);
      if 12 + length > |b| then None
      else
        var c := Chunk(b[4..8], b[8..8 + length], b[8 + length..12 + length]);
        Be32Bound(b[..4]);
        if StoredCrc(c.crc) == Crc32(c.kind + c.data) then Some(c) else None
  }

  function Parse(b: Bytes): (r: Option<seq<Chunk>>)
    decreases |b|
  {
    if b == [] then Some([])
    else
      var first := FirstChunk(b);
      if first.None? then None
      else
        var rest := Parse(b[12 + |first.value.data|..]);
        if rest.None? then None else Some([first.value] + rest.value)
  }

  lemma FirstChunkEncodes(b: Bytes)
    requires FirstChunk(b).Some?
    ensures var c := FirstChunk(b).value; b == Encode(c) + b[12 + |c.data|..]
  {
    var c := FirstChunk(b).value;
    Be32Injective(b[..4], ToBe32(|c.data|));
    Slices(b, 4, 8, 8 + |c.data|, 12 + |c.data|);
  }

  lemma Slices(b: Bytes, i: nat, j: nat, k: nat, l: nat)
    requires i <= j <= k <= l <= |b|
    ensures b == b[..i] + b[i..j] + b[j..k] + b[k..l] + b[l..]
  {
  }

  lemma FirstChunkOfEncoding(c: Chunk, rest: Bytes)
    requires ChunkOk(c)
    ensures FirstChunk(Encode(c) + rest) == Some(c)
    ensures (Encode(c) + rest)[12 + |c.data|..] == rest
  {
    hide ToBe32, Crc32, Be32;
    Fields(ToBe32(|c.data|), c.kind, c.data, c.crc, rest);
  }

  lemma Fields(length: Bytes, kind: Bytes, data: Bytes, crc: Bytes, rest: Bytes)
    requires |length| == |kind| == |crc| == 4
    ensures var b, n := length + kind + data + crc + rest, |data|;
            && b[..4] == length && b[4..8] == kind && b[8..8 + n] == data && b[8 + n..12 + n] == crc
            && b[12 + n..] == rest && b[4..8 + n] == kind + data
  {
    var b, n := length + kind + data + crc + rest, |data|;
    assert b[4..8 + n] == kind + data;
  }

  /** What parses is tiled by chunks with correct CRCs. */
  lemma {:induction false} ParseTiles(b: Bytes)
    requires Parse(b).Some?
    ensures AllOk(Parse(b).value) && EncodeAll(Parse(b).value) == b
    decreases |b|
  {
    if b != [] {
      var c := FirstChunk(b).value;
      FirstChunkEncodes(b);
      ParseTiles(b[12 + |c.data|..]);
    }
  }

  function Prepend<T>(front: seq<T>, rest: Option<seq<T>>): Option<seq<T>> {
    if rest.None? then None else Some(front + rest.value)
  }

  lemma ParseCons(c: Chunk, rest: Bytes)
    requires ChunkOk(c)
    ensures Parse(Encode(c) + rest) == Prepend([c], Parse(rest))
  {
    FirstChunkOfEncoding(c, rest);
  }

  /** Every tiling parses, after any number of sound chunks. */
  lemma {:induction false} ParseAfter(cs: seq<Chunk>, tail: Bytes)
    requires AllOk(cs)
    ensures Parse(EncodeAll(cs) + tail) == Prepend(cs, Parse(tail))
    decreases |cs|
  {
    hide Parse, Encode, ChunkOk, AllOk, EncodeAll;
    if cs == [] {
      EncodesNothing();
      assert EncodeAll(cs) + tail == tail;
      assert Parse(tail).Some? ==> cs + Parse(tail).value == Parse(tail).value;
    } else {
      EncodeStep(cs);
      ParseCons(cs[0], EncodeAll(cs[1..]) + tail);
      ParseAfter(cs[1..], tail);
      Assoc(Encode(cs[0]), EncodeAll(cs[1..]), tail);
      assert cs == [cs[0]] + cs[1..];
      if Parse(tail).Some? {
        Assoc([cs[0]], cs[1..], Parse(tail).value);
      }
    }
  }

  lemma EncodesNothing()
    ensures AllOk([]) && EncodeAll([]) == []
  {
  }

  lemma EncodeStep(cs: seq<Chunk>)
    requires cs != [] && AllOk(cs)
    ensures ChunkOk(cs[0]) && AllOk(cs[1..]) && |cs[0].data| < 0x1_0000_0000
    ensures EncodeAll(cs) == Encode(cs[0]) + EncodeAll(cs[1..])
  {
    hide Encode;
  }

  /** An input parses exactly when sound chunks tile it, and then there is
      only one tiling. */
  lemma ParseIsTiling(b: Bytes, cs: seq<Chunk>)
    ensures Parse(b) == Some(cs) <==> AllOk(cs) && EncodeAll(cs) == b
  {
    if Parse(b) == Some(cs) {
      ParseTiles(b);
    }
    if AllOk(cs) && EncodeAll(cs) == b {
      ParseAfter(cs, []);
      assert EncodeAll(cs) + [] == b && cs + [] == cs;
    }
  }

  /** Damage the type and data of one chunk by a burst of at most 32 bits and
      the whole file no longer parses. */
  lemma BurstBreaksParse(before: seq<Chunk>, c: Chunk, kind: Bytes, data: Bytes, rest: Bytes)
    requires AllOk(before) && ChunkOk(c)
    requires |kind| == 4 && |data| == |c.data|
    requires Burst(c.kind + c.data, kind + data, 32)
    ensures Parse(EncodeAll(before) + (Encode(Chunk(kind, data, c.crc)) + rest)) == None
  {
    var b := Encode(Chunk(kind, data, c.crc)) + rest;
    hide ToBe32, Be32;
    Fields(ToBe32(|data|), kind, data, c.crc, rest);
    BurstChangesCrc(c.kind + c.data, kind + data);
    assert FirstChunk(b) == None;
    hide FirstChunk, Encode, ChunkOk, Burst, EncodeAll;
    ParseAfter(before, b);
  }
}
