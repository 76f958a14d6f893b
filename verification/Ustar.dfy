/** One USTAR header: octal fields, checksum, and the prefix/name split. The
    layout is the "ustar Interchange Format" of IEEE Std 1003.1-2017 (pax). */
module Ustar {
  import opened Bytes
  import opened Paths
  import opened Utf8

  const BLOCK := 512
  const SPACE: byte := 32

  // ----- Octal fields -----

  function Eights(width: nat): (r: nat)
    ensures r > 0
  {
    if width == 0 then 1 else 8 * Eights(width - 1)
  }

  function OctalText(value: nat, width: nat): (r: Bytes)
    requires value < Eights(width)
    ensures |r| == width && forall i | 0 <= i < width :: 48 <= r[i] < 56
    decreases width
  {
    if width == 0 then [] else OctalText(value / 8, width - 1) + [48 + value % 8]
  }

  function OctalValue(s: Bytes): nat
    requires forall i | 0 <= i < |s| :: 48 <= s[i] < 56
  {
    if s == [] then 0
    else
      assert 48 <= s[|s| - 1];
      var digit: int := s[|s| - 1];
      8 * OctalValue(s[..|s| - 1]) + (digit - 48)
  }

  lemma {:induction false} OctalRoundTrip(value: nat, width: nat)
    requires value < Eights(width)
    ensures OctalValue(OctalText(value, width)) == value
    decreases width
  {
    if width > 0 {
      OctalRoundTrip(value / 8, width - 1);
      assert OctalText(value, width)[..width - 1] == OctalText(value / 8, width - 1);
    }
  }

  /** The octets before the first NUL or space. */
  function TextOf(field: Bytes): (r: Bytes)
    ensures r <= field
  {
    if field == [] || field[0] == 0 || field[0] == SPACE then [] else [field[0]] + TextOf(field[1..])
  }

  predicate IsOctal(s: Bytes) {
    forall i | 0 <= i < |s| :: 48 <= s[i] < 56
  }

  function ParseOctal(field: Bytes): Option<nat> {
    var text := TextOf(field);
    if text == [] || !IsOctal(text) || OctalValue(text) > U64_MAX then None else Some(OctalValue(text))
  }

  function OctalField(value: nat, width: nat): (r: Bytes)
    requires value < Eights(width)
    ensures |r| == width + 1
  {
    OctalText(value, width) + [0]
  }

  lemma {:induction false} TextOfDigits(s: Bytes)
    requires IsOctal(s)
    ensures TextOf(s + [0]) == s
    decreases s
  {
    if s == [] {
      assert s + [0] == [0];
    } else {
      assert (s + [0])[1..] == s[1..] + [0];
      TextOfDigits(s[1..]);
      assert [s[0]] + s[1..] == s;
    }
  }

  /** What is written in an octal field is read back. */
  lemma ParsesOctal(value: nat, width: nat)
    requires value < Eights(width) && 0 < width && value <= U64_MAX
    ensures ParseOctal(OctalField(value, width)) == Some(value)
  {
    TextOfDigits(OctalText(value, width));
    OctalRoundTrip(value, width);
  }

  // ----- Laying out the header -----

  function Overwrite(h: Bytes, at: nat, b: Bytes): (r: Bytes)
    requires at + |b| <= |h|
    ensures |r| == |h|
    ensures forall k | 0 <= k < |h| :: r[k] == if at <= k < at + |b| then b[k - at] else h[k]
  {
    h[..at] + b + h[at + |b|..]
  }

  function Sum(h: Bytes): (r: nat)
    ensures r <= 255 * |h|
  {
    if h == [] then 0 else Sum(h[..|h| - 1]) + h[|h| - 1]
  }

  datatype Parts = Parts(name: Bytes, prefix: Bytes)

  /** Index of the last '/'. */
  function LastSlash(path: Bytes): (r: Option<nat>)
    ensures r.Some? ==> r.value < |path| && path[r.value] == SLASH && SLASH !in path[r.value + 1..]
    ensures r.None? ==> SLASH !in path
  {
    if path == [] then None
    else if path[|path| - 1] == SLASH then Some(|path| - 1)
    else
      var r := LastSlash(path[..|path| - 1]);
      assert path == path[..|path| - 1] + [path[|path| - 1]];
      assert r.Some? ==> path[r.value + 1..] == path[..|path| - 1][r.value + 1..] + [path[|path| - 1]];
      r
  }

  /** A path as name and prefix, when it can be represented. */
  function SplitPath(path: Bytes): Option<Parts> {
    if |path| > 255 then None
    else if |path| <= 100 then Some(Parts(path, []))
    else if LastSlash(path).None? then None
    else
      var at := LastSlash(path).value;
      if |path| - at - 1 > 100 || at > 155 then None else Some(Parts(path[at + 1..], path[..at]))
  }

  predicate Fits(s: Parts, size: nat) {
    |s.name| <= 100 && |s.prefix| <= 155 && size < Eights(11)
  }

  function Magic(): Bytes { Ascii("ustar") + [0] }

  function Version(): Bytes { Ascii("00") }

  function Front(s: Parts, size: nat): (r: Bytes)
    requires Fits(s, size)
    ensures |r| == BLOCK
  {
    var h0 := Overwrite(Repeat(0, BLOCK), 0, s.name);
    var h1 := Overwrite(h0, 100, Ascii("0000600") + [0]);
    var h2 := Overwrite(h1, 108, Ascii("0000000") + [0]);
    var h3 := Overwrite(h2, 116, Ascii("0000000") + [0]);
    Overwrite(h3, 124, OctalField(size, 11))
  }

  /** The header with its checksum field blank. */
  function Unsigned(s: Parts, size: nat): (r: Bytes)
    requires Fits(s, size)
    ensures |r| == BLOCK
  {
    var h4 := Overwrite(Front(s, size), 136, Ascii("00000000000") + [0]);
    var h5 := Overwrite(h4, 148, Repeat(SPACE, 8));
    var h6 := Overwrite(h5, 156, [48]);
    var h7 := Overwrite(h6, 257, Magic());
    var h8 := Overwrite(h7, 263, Version());
    Overwrite(h8, 345, s.prefix)
  }

  lemma SumFits(h: Bytes)
    requires |h| == BLOCK
    ensures Sum(h) < Eights(7)
  {
    assert Eights(7) == 2097152 by {
      assert Eights(1) == 8 && Eights(2) == 64 && Eights(3) == 512 && Eights(4) == 4096 && Eights(5) == 32768;
    }
  }

  function Header(s: Parts, size: nat): (r: Bytes)
    requires Fits(s, size)
    ensures |r| == BLOCK
  {
    var u := Unsigned(s, size);
    SumFits(u);
    Overwrite(u, 148, OctalField(Sum(u), 7))
  }

  // ----- Reading a header -----

  function FirstZero(field: Bytes): (r: nat)
    ensures r <= |field| && (forall i | 0 <= i < r :: field[i] != 0) && (r < |field| ==> field[r] == 0)
  {
    if field == [] || field[0] == 0 then 0 else 1 + FirstZero(field[1..])
  }

  /** The text of a field, when only NULs follow its first NUL. */
  function FieldText(field: Bytes): Option<Bytes> {
    var end := FirstZero(field);
    if AllZero(field[end..]) then Some(field[..end]) else None
  }

  function ReadPath(header: Bytes): Option<Bytes>
    requires |header| == BLOCK
  {
    var name, prefix := FieldText(header[..100]), FieldText(header[345..500]);
    if name.None? || prefix.None? || !IsUtf8(name.value) || !IsUtf8(prefix.value) then None
    else
      var path := if prefix.value == [] then name.value else prefix.value + ([SLASH] + name.value);
      if IsObjectPath(path) then Some(path) else None
  }

  predicate ChecksumMatches(header: Bytes)
    requires |header| == BLOCK
  {
    ParseOctal(header[148..156]) == Some(Sum(Overwrite(header, 148, Repeat(SPACE, 8))))
  }

  predicate IsUstar(header: Bytes)
    requires |header| == BLOCK
  {
    header[257..263] == Magic() && header[263..265] == Version()
  }

  /** Path and size of a regular file's header. */
  function ReadHeader(header: Bytes): Option<(Bytes, nat)>
    requires |header| == BLOCK
  {
    if !ChecksumMatches(header) || !IsUstar(header) then None
    else
      var path, size := ReadPath(header), ParseOctal(header[124..136]);
      if path.None? || (header[156] != 48 && header[156] != 0) || size.None? then None
      else Some((path.value, size.value))
  }

  // ----- Round trip of one header -----

  lemma FrontFields(s: Parts, size: nat)
    requires Fits(s, size)
    ensures var f := Front(s, size);
            && f[..|s.name|] == s.name && AllZero(f[|s.name|..100]) && f[124..136] == OctalField(size, 11)
            && AllZero(f[136..])
  {
    hide OctalField, Eights;
    var f := Front(s, size);
    forall k | 0 <= k < |s.name| ensures f[k] == s.name[k] {
    }
    forall k | |s.name| <= k < 100 ensures f[k] == 0 {
    }
    forall k | 0 <= k < 12 ensures f[124 + k] == OctalField(size, 11)[k] {
    }
    forall k | 136 <= k < 512 ensures f[k] == 0 {
    }
  }

  lemma UnsignedFields(s: Parts, size: nat)
    requires Fits(s, size)
    ensures var u, f := Unsigned(s, size), Front(s, size);
            && u[..136] == f[..136] && u[148..156] == Repeat(SPACE, 8) && u[156] == 48
            && u[257..263] == Magic() && u[263..265] == Version()
            && u[345..345 + |s.prefix|] == s.prefix && AllZero(u[345 + |s.prefix|..500])
  {
    FrontFields(s, size);
    hide Front, Magic, Version;
    assert |Magic()| == 6 && |Version()| == 2 by { MagicLength(); }
    var u, f := Unsigned(s, size), Front(s, size);
    forall k | 0 <= k < 136 ensures u[k] == f[k] {
    }
    forall k | 345 + |s.prefix| <= k < 500 ensures u[k] == 0 {
      assert f[136..][k - 136] == f[k];
    }
  }

  lemma MagicLength()
    ensures |Magic()| == 6 && |Version()| == 2
  {
  }

  lemma HeaderFields(s: Parts, size: nat)
    requires Fits(s, size)
    ensures var h, u := Header(s, size), Unsigned(s, size);
            && h[..148] == u[..148] && h[156..] == u[156..] && Sum(u) < Eights(7)
            && h[148..156] == OctalField(Sum(u), 7) && Overwrite(h, 148, Repeat(SPACE, 8)) == u
  {
    UnsignedFields(s, size);
    hide Unsigned, Sum, OctalField, Front;
    var h, u := Header(s, size), Unsigned(s, size);
    SumFits(u);
    var b := Overwrite(h, 148, Repeat(SPACE, 8));
    forall k | 0 <= k < BLOCK ensures b[k] == u[k] {
      if 148 <= k < 156 {
        assert u[148..156][k - 148] == u[k];
      }
    }
  }

  lemma FieldTextOf(text: Bytes, field: Bytes)
    requires |text| <= |field| && field[..|text|] == text && AllZero(field[|text|..]) && 0 !in text
    ensures FieldText(field) == Some(text)
  {
    var end := FirstZero(field);
    forall i | 0 <= i < |text| ensures field[i] != 0 {
      assert field[i] == field[..|text|][i];
    }
    if |text| < |field| {
      assert field[|text|] == field[|text|..][0] == 0;
    }
    assert end == |text|;
  }

  /** Name and prefix put together again are the path. */
  lemma SplitJoins(path: Bytes)
    requires SplitPath(path).Some? && IsObjectPath(path) && IsUtf8(path)
    ensures var s := SplitPath(path).value;
            && (if s.prefix == [] then s.name else s.prefix + ([SLASH] + s.name)) == path
            && IsUtf8(s.name) && IsUtf8(s.prefix) && |s.name| <= 100 && |s.prefix| <= 155
    ensures 0 !in path ==> 0 !in SplitPath(path).value.name && 0 !in SplitPath(path).value.prefix
  {
    hide IsUtf8, IsObjectPath, LastSlash;
    if |path| > 100 {
      var at := LastSlash(path).value;
      NotAtStart(path, at);
      CutAt(path, at);
      Utf8Cut(path[..at], SLASH, path[at + 1..]);
    } else {
      Utf8.AsciiIsUtf8([]);
    }
  }

  lemma NotAtStart(path: Bytes, at: nat)
    requires IsObjectPath(path) && at < |path| && path[at] == SLASH
    ensures at > 0
  {
    hide Paths.Split;
  }

  lemma CutAt(path: Bytes, at: nat)
    requires at < |path| && path[at] == SLASH
    ensures path == path[..at] + ([SLASH] + path[at + 1..])
  {
  }

  lemma PathFields(s: Parts, size: nat)
    requires Fits(s, size) && 0 !in s.name && 0 !in s.prefix
    ensures FieldText(Header(s, size)[..100]) == Some(s.name) && FieldText(Header(s, size)[345..500]) == Some(s.prefix)
  {
    FrontFields(s, size);
    UnsignedFields(s, size);
    HeaderFields(s, size);
    hide Front, Unsigned, Header, FieldText, Sum, OctalField;
    var h, u, f := Header(s, size), Unsigned(s, size), Front(s, size);
    Within(h, u, 0, 148, 0, 100);
    Within(u, f, 0, 136, 0, 100);
    Within(h, u, 156, BLOCK, 345, 500);
    FieldAt(s.name, f, 0, 100);
    FieldAt(s.prefix, u, 345, 500);
  }

  /** Headers that agree on a stretch agree on every part of it. */
  lemma Within(a: Bytes, b: Bytes, i: nat, j: nat, k: nat, l: nat)
    requires |a| == |b| == BLOCK && i <= k <= l <= j <= BLOCK && a[i..j] == b[i..j]
    ensures a[k..l] == b[k..l]
  {
    forall m | k <= m < l ensures a[m] == b[m] {
      assert a[m] == a[i..j][m - i] == b[i..j][m - i] == b[m];
    }
  }

  lemma FieldAt(text: Bytes, h: Bytes, i: nat, j: nat)
    requires |h| == BLOCK && i + |text| <= j <= BLOCK && 0 !in text
    requires h[i..i + |text|] == text && AllZero(h[i + |text|..j])
    ensures FieldText(h[i..j]) == Some(text)
  {
    assert h[i..j][..|text|] == h[i..i + |text|];
    assert h[i..j][|text|..] == h[i + |text|..j];
    FieldTextOf(text, h[i..j]);
  }

  lemma OtherFields(s: Parts, size: nat)
    requires Fits(s, size)
    ensures ChecksumMatches(Header(s, size)) && IsUstar(Header(s, size))
    ensures Header(s, size)[124..136] == OctalField(size, 11) && Header(s, size)[156] == 48
  {
    FrontFields(s, size);
    UnsignedFields(s, size);
    HeaderFields(s, size);
    hide Front, Unsigned, Header, OctalField, Magic, Version, ParseOctal;
    var h, u, f := Header(s, size), Unsigned(s, size), Front(s, size);
    Within(h, u, 0, 148, 124, 136);
    Within(u, f, 0, 136, 124, 136);
    assert h[156] == h[156..][0] == u[156..][0] == u[156];
    Within(h, u, 156, BLOCK, 257, 263);
    Within(h, u, 156, BLOCK, 263, 265);
    assert Sum(u) <= U64_MAX;
    ParsesOctal(Sum(u), 7);
  }

  lemma PathRoundTrip(path: Bytes, size: nat)
    requires SplitPath(path).Some? && IsObjectPath(path) && IsUtf8(path) && 0 !in path && size < Eights(11)
    ensures Fits(SplitPath(path).value, size)
    ensures ReadPath(Header(SplitPath(path).value, size)) == Some(path)
  {
    SplitJoins(path);
    var s := SplitPath(path).value;
    hide SplitPath, Header, FieldText, IsUtf8, Eights, IsObjectPath;
    PathFields(s, size);
  }

  lemma ElevenDigits()
    ensures Eights(11) == 8_589_934_592
  {
    assert Eights(4) == 4096 by {
      assert Eights(1) == 8 && Eights(2) == 64 && Eights(3) == 512;
    }
    assert Eights(7) == 2_097_152 by {
      assert Eights(5) == 32768 && Eights(6) == 262144;
    }
    assert Eights(8) == 16_777_216 && Eights(9) == 134_217_728 && Eights(10) == 1_073_741_824;
  }

  /** A header written for a path without NUL is read back as that path and
      size, through checksum, octal fields and the prefix/name split. */
  lemma HeaderRoundTrip(path: Bytes, size: nat)
    requires SplitPath(path).Some? && IsObjectPath(path) && IsUtf8(path) && 0 !in path && size < Eights(11)
    ensures Fits(SplitPath(path).value, size)
    ensures ReadHeader(Header(SplitPath(path).value, size)) == Some((path, size))
  {
    PathRoundTrip(path, size);
    ElevenDigits();
    var s := SplitPath(path).value;
    hide SplitPath, Header, ReadPath, ChecksumMatches, IsUstar, Eights, ParseOctal, OctalField, Fits, IsObjectPath,
         IsUtf8;
    OtherFields(s, size);
    ParsesOctal(size, 11);
  }

  lemma FieldTextHasNoNul(field: Bytes)
    ensures FieldText(field).Some? ==> 0 !in FieldText(field).value
  {
  }

  /** A path that is read never holds a NUL, so a path with one cannot come back. */
  lemma ReadHasNoNul(header: Bytes)
    requires |header| == BLOCK && ReadHeader(header).Some?
    ensures 0 !in ReadHeader(header).value.0 && IsObjectPath(ReadHeader(header).value.0)
  {
    FieldTextHasNoNul(header[..100]);
    FieldTextHasNoNul(header[345..500]);
    hide FieldText, ChecksumMatches, IsUstar, ParseOctal, IsUtf8, IsObjectPath;
  }

  // ----- Building a header in place -----

  method CopyInto(h: array<byte>, at: nat, b: Bytes)
    requires at + |b| <= h.Length
    modifies h
    ensures h[..] == Overwrite(old(h[..]), at, b)
  {
    for i := 0 to |b|
      invariant forall k | 0 <= k < h.Length :: h[k] == if at <= k < at + i then b[k - at] else old(h[k])
    {
      h[at + i] := b[i];
    }
  }

  method SumOf(h: array<byte>) returns (total: nat)
    ensures total == Sum(h[..])
  {
    total := 0;
    for i := 0 to h.Length
      invariant total == Sum(h[..i])
    {
      assert h[..i + 1][..i] == h[..i];
      total := total + h[i];
    }
    assert h[..h.Length] == h[..];
  }

  method WriteFront(h: array<byte>, s: Parts, size: nat)
    requires h.Length == BLOCK && h[..] == Repeat(0, BLOCK) && Fits(s, size)
    modifies h
    ensures h[..] == Front(s, size)
  {
    hide Overwrite, OctalField, Eights;
    CopyInto(h, 0, s.name);
    CopyInto(h, 100, Ascii("0000600") + [0]);
    CopyInto(h, 108, Ascii("0000000") + [0]);
    CopyInto(h, 116, Ascii("0000000") + [0]);
    CopyInto(h, 124, OctalField(size, 11));
  }

  method WriteHeader(s: Parts, size: nat) returns (header: Bytes)
    requires Fits(s, size)
    ensures header == Header(s, size)
  {
    MagicLength();
    hide Overwrite, OctalField, Front, Sum, Eights, Magic, Version;
    var h := new byte[BLOCK](_ => 0);
    assert h[..] == Repeat(0, BLOCK);
    WriteFront(h, s, size);
    CopyInto(h, 136, Ascii("00000000000") + [0]);
    CopyInto(h, 148, Repeat(SPACE, 8));
    CopyInto(h, 156, [48]);
    CopyInto(h, 257, Magic());
    CopyInto(h, 263, Version());
    CopyInto(h, 345, s.prefix);
    assert h[..] == Unsigned(s, size);
    var checksum := SumOf(h);
    SumFits(h[..]);
    CopyInto(h, 148, OctalField(checksum, 7));
    header := h[..];
  }
}
