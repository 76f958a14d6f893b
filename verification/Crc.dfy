/** The bitwise CRC-32 of the PNG decoder, over 32-bit words given by their
    bits, least significant first. */
module Crc {
  import opened Bytes

  type Word = w: seq<bool> | |w| == 32 witness POLY_BITS

  // 0xedb8_8320
  const POLY_BITS: seq<bool> := [
    false, false, false, false, false, true, false, false,
    true, true, false, false, false, false, false, true,
    false, false, false, true, true, true, false, true,
    true, false, true, true, false, true, true, true
  ]

  function Poly(): Word {
    POLY_BITS
  }

  function Ones(): Word {
    Repeat(true, 32)
  }

  function Xor(a: Word, b: Word): Word {
    seq(32, i requires 0 <= i < 32 => a[i] != b[i])
  }

  function Not(a: Word): Word {
    seq(32, i requires 0 <= i < 32 => !a[i])
  }

  function Shr1(a: Word): Word {
    a[1..] + [false]
  }

  /** The `count` low bits of `value`, least significant first. */
  function LowBits(value: nat, count: nat): (r: seq<bool>)
    ensures |r| == count
  {
    if count == 0 then [] else [value % 2 == 1] + LowBits(value / 2, count - 1)
  }

  function ByteBits(b: byte): (r: seq<bool>)
    ensures |r| == 8
  {
    LowBits(b, 8)
  }

  function Power2(n: nat): (r: nat)
    ensures r > 0
  {
    if n == 0 then 1 else 2 * Power2(n - 1)
  }

  lemma {:induction false} LowBitsInjective(a: nat, b: nat, count: nat)
    requires a < Power2(count) && b < Power2(count)
    requires LowBits(a, count) == LowBits(b, count)
    ensures a == b
  {
    if count > 0 {
      assert LowBits(a, count)[0] == LowBits(b, count)[0];
      assert LowBits(a, count)[1..] == LowBits(b, count)[1..];
      LowBitsInjective(a / 2, b / 2, count - 1);
    }
  }

  /** `u32::from(byte)`. */
  function FromByte(b: byte): Word {
    ByteBits(b) + Repeat(false, 24)
  }

  /** One iteration of the inner loop. */
  function Step(c: Word): Word {
    if c[0] then Xor(Shr1(c), Poly()) else Shr1(c)
  }

  function Steps(c: Word, n: nat): Word
    decreases n
  {
    if n == 0 then c else Steps(Step(c), n - 1)
  }

  function FoldBytes(c: Word, m: Bytes): Word
    decreases m
  {
    if m == [] then c else FoldBytes(Steps(Xor(c, FromByte(m[0])), 8), m[1..])
  }

  function Crc32(m: Bytes): Word {
    Not(FoldBytes(Ones(), m))
  }

  method ComputeCrc32(bytes: Bytes) returns (r: Word)
    ensures r == Crc32(bytes)
  {
    hide Xor, FromByte, Step, Not, Ones;
    var crc := Ones();
    for i := 0 to |bytes|
      invariant FoldBytes(crc, bytes[i..]) == FoldBytes(Ones(), bytes)
    {
      assert bytes[i..][0] == bytes[i] && bytes[i..][1..] == bytes[i + 1..];
      crc := Xor(crc, FromByte(bytes[i]));
      ghost var start := crc;
      for k := 0 to 8
        invariant Steps(crc, 8 - k) == Steps(start, 8)
      {
        crc := Step(crc);
      }
    }
    r := Not(crc);
  }

  // ----- The message as a stream of bits -----

  function Bits(m: Bytes): (r: seq<bool>)
    ensures |r| == 8 * |m|
  {
    if m == [] then [] else ByteBits(m[0]) + Bits(m[1..])
  }

  /** Feed one message bit. */
  function BitStep(c: Word, bit: bool): (r: Word)
    ensures forall i | 0 <= i < 32 :: r[i] == ((i < 31 && c[i + 1]) != ((c[0] != bit) && Poly()[i]))
  {
    seq(32, i requires 0 <= i < 32 => (i < 31 && c[i + 1]) != ((c[0] != bit) && Poly()[i]))
  }

  function FoldBits(c: Word, bits: seq<bool>): Word
    decreases bits
  {
    if bits == [] then c else FoldBits(BitStep(c, bits[0]), bits[1..])
  }

  lemma {:induction false} FoldBitsConcat(c: Word, a: seq<bool>, b: seq<bool>)
    ensures FoldBits(c, a + b) == FoldBits(FoldBits(c, a), b)
    decreases a
  {
    if a == [] {
      assert a + b == b;
    } else {
      assert (a + b)[0] == a[0] && (a + b)[1..] == a[1..] + b;
      FoldBitsConcat(BitStep(c, a[0]), a[1..], b);
    }
  }

  /** Bits beyond the first may be mixed in before or after a step. */
  lemma StepXor(c: Word, bits: seq<bool>, pad: nat)
    requires |bits| + pad == 32 && |bits| > 0
    ensures Step(Xor(c, bits + Repeat(false, pad))) == Xor(BitStep(c, bits[0]), bits[1..] + Repeat(false, pad + 1))
  {
    var x := Xor(c, bits + Repeat(false, pad));
    var y := Xor(BitStep(c, bits[0]), bits[1..] + Repeat(false, pad + 1));
    assert x[0] == (c[0] != bits[0]);
    assert forall i | 0 <= i < 32 :: Step(x)[i] == y[i];
  }

  lemma {:induction false} StepsXor(c: Word, bits: seq<bool>, pad: nat)
    requires |bits| + pad == 32
    ensures Steps(Xor(c, bits + Repeat(false, pad)), |bits|) == FoldBits(c, bits)
    decreases |bits|
  {
    if bits == [] {
      assert Xor(c, bits + Repeat(false, pad)) == c;
    } else {
      StepXor(c, bits, pad);
      StepsXor(BitStep(c, bits[0]), bits[1..], pad + 1);
    }
  }

  /** The octet loop and the bit loop agree. */
  lemma {:induction false} FoldBytesIsFoldBits(c: Word, m: Bytes)
    ensures FoldBytes(c, m) == FoldBits(c, Bits(m))
    decreases m
  {
    if m != [] {
      StepsXor(c, ByteBits(m[0]), 24);
      FoldBitsConcat(c, ByteBits(m[0]), Bits(m[1..]));
      FoldBytesIsFoldBits(FoldBits(c, ByteBits(m[0])), m[1..]);
    }
  }

  // ----- The remainder of section 3.4 of RFC 2083 -----

  /** x^32 + x^26 + x^23 + x^22 + x^16 + x^12 + x^11 + x^10 + x^8 + x^7 + x^5 + x^4
      + x^2 + x + 1, by its exponents. */
  predicate InGenerator(exponent: nat) {
    exponent in {32, 26, 23, 22, 16, 12, 11, 10, 8, 7, 5, 4, 2, 1, 0}
  }

  /** Long division over GF(2) by that polynomial: coefficients, highest first. */
  function Remainder(p: seq<bool>): (r: seq<bool>)
    requires |p| >= 32
    ensures |r| == 32
    decreases |p|
  {
    if |p| == 32 then p
    else if !p[0] then Remainder(p[1..])
    else Remainder(seq(|p| - 1, i requires 0 <= i < |p| - 1 => p[i + 1] != (i < 32 && InGenerator(31 - i))))
  }

  /** A message times x^32, with a word added to its 32 highest coefficients. */
  function Dividend(c: Word, bits: seq<bool>): (r: seq<bool>)
    ensures |r| == |bits| + 32
    ensures forall i | 0 <= i < |r| :: r[i] == ((i < |bits| && bits[i]) != (i < 32 && c[i]))
  {
    seq(|bits| + 32, i requires 0 <= i < |bits| + 32 => (i < |bits| && bits[i]) != (i < 32 && c[i]))
  }

  lemma PolyIsGenerator()
    ensures forall i | 0 <= i < 32 :: Poly()[i] == InGenerator(31 - i)
  {
    forall i | 0 <= i < 32 ensures POLY_BITS[i] == InGenerator(31 - i) {
      if i < 16 {
      } else {
      }
    }
  }

  lemma {:induction false} FoldIsRemainder(c: Word, bits: seq<bool>)
    ensures FoldBits(c, bits) == Remainder(Dividend(c, bits))
    decreases bits
  {
    var p := Dividend(c, bits);
    if bits == [] {
      assert p == c;
    } else {
      var next := BitStep(c, bits[0]);
      PolyIsGenerator();
      hide InGenerator;
      var q := Dividend(next, bits[1..]);
      if p[0] {
        assert q == seq(|p| - 1, i requires 0 <= i < |p| - 1 => p[i + 1] != (i < 32 && InGenerator(31 - i)));
      } else {
        assert q == p[1..];
      }
      FoldIsRemainder(next, bits[1..]);
    }
  }

  function Bit(b: bool): nat {
    if b then 1 else 0
  }

  lemma LowBit(value: nat, count: nat)
    requires count > 0
    ensures forall i | 1 <= i < count :: LowBits(value, count)[i] == LowBits(value / 2, count - 1)[i - 1]
    ensures value == 2 * (value / 2) + Bit(LowBits(value, count)[0])
  {
  }

  lemma TwoBits(value: nat, count: nat)
    requires count >= 2
    ensures var s := LowBits(value, count);
            && (forall i | 2 <= i < count :: s[i] == LowBits(value / 4, count - 2)[i - 2])
            && value == 4 * (value / 4) + Bit(s[0]) + 2 * Bit(s[1])
  {
    hide LowBits, Bit;
    LowBit(value, count);
    LowBit(value / 2, count - 1);
    assert value / 2 / 2 == value / 4;
  }

  lemma FourBits(value: nat, count: nat)
    requires count >= 4
    ensures var s := LowBits(value, count);
            && (forall i | 4 <= i < count :: s[i] == LowBits(value / 16, count - 4)[i - 4])
            && value == 16 * (value / 16) + Bit(s[0]) + 2 * Bit(s[1]) + 4 * Bit(s[2]) + 8 * Bit(s[3])
  {
    hide LowBits, Bit;
    TwoBits(value, count);
    TwoBits(value / 4, count - 2);
    assert value / 4 / 4 == value / 16;
  }

  lemma NoMore(value: nat)
    requires value < 256
    ensures value / 16 / 16 == 0
  {
  }

  lemma AllEightBits(value: nat)
    requires value < 256
    ensures var s := LowBits(value, 8);
            value == Bit(s[0]) + 2 * Bit(s[1]) + 4 * Bit(s[2]) + 8 * Bit(s[3])
                     + 16 * Bit(s[4]) + 32 * Bit(s[5]) + 64 * Bit(s[6]) + 128 * Bit(s[7])
  {
    FourBits(value, 8);
    FourBits(value / 16, 4);
    NoMore(value);
    hide *;
  }

  /** The lowest bit of an octet comes first. */
  lemma LowestFirst(b: byte)
    ensures var s := ByteBits(b);
            b == Bit(s[0]) + 2 * Bit(s[1]) + 4 * Bit(s[2]) + 8 * Bit(s[3])
                 + 16 * Bit(s[4]) + 32 * Bit(s[5]) + 64 * Bit(s[6]) + 128 * Bit(s[7])
  {
    AllEightBits(b);
    hide LowBits, Bit;
  }

  /** The CRC of a message is the complement of the remainder of its bits, each
      octet's lowest first, times x^32, after the 32 highest coefficients of that
      product have been complemented. */
  lemma Crc32IsRemainder(m: Bytes)
    ensures var all := Bits(m) + seq(32, _ => false);
            var p := seq(|all|, i requires 0 <= i < |all| => if i < 32 then !all[i] else all[i]);
            var r := Remainder(p);
            Crc32(m) == seq(32, i requires 0 <= i < 32 => !r[i])
  {
    var all := Bits(m) + seq(32, _ => false);
    var p := seq(|all|, i requires 0 <= i < |all| => if i < 32 then !all[i] else all[i]);
    FoldBytesIsFoldBits(Ones(), m);
    FoldIsRemainder(Ones(), Bits(m));
    assert p == Dividend(Ones(), Bits(m));
  }

  // ----- Burst detection -----

  /** A step whose outcome is known on the top bit can be undone. */
  lemma BitStepBack(s: Word, t: Word, u: bool, v: bool, n: nat)
    requires 0 < n <= 32
    requires forall i | n - 1 <= i < 32 :: BitStep(s, u)[i] == BitStep(t, v)[i]
    ensures (s[0] != u) == (t[0] != v)
    ensures forall i | n <= i < 32 :: s[i] == t[i]
    ensures s == t ==> u == v
  {
    assert BitStep(s, u)[31] == BitStep(t, v)[31];
    forall i | n <= i < 32
      ensures s[i] == t[i]
    {
      assert BitStep(s, u)[i - 1] == BitStep(t, v)[i - 1];
    }
  }

  lemma {:induction false} SuffixKeepsDifference(s: Word, t: Word, bits: seq<bool>)
    requires FoldBits(s, bits) == FoldBits(t, bits)
    ensures s == t
    decreases bits
  {
    if bits != [] {
      SuffixKeepsDifference(BitStep(s, bits[0]), BitStep(t, bits[0]), bits[1..]);
      BitStepBack(s, t, bits[0], bits[0], 1);
      assert forall i | 0 <= i < 32 :: s[i] == t[i];
    }
  }

  lemma {:induction false} ShortBitsInjective(s: Word, t: Word, u: seq<bool>, v: seq<bool>)
    requires |u| == |v| <= 32
    requires FoldBits(s, u) == FoldBits(t, v)
    ensures forall i | |u| <= i < 32 :: s[i] == t[i]
    ensures s == t ==> u == v
    decreases |u|
  {
    if u != [] {
      var s', t' := BitStep(s, u[0]), BitStep(t, v[0]);
      ShortBitsInjective(s', t', u[1..], v[1..]);
      BitStepBack(s, t, u[0], v[0], |u|);
      if s == t {
        assert u == [u[0]] + u[1..] && v == [v[0]] + v[1..];
      }
    }
  }

  lemma {:induction false} BitsInjective(a: Bytes, b: Bytes)
    requires |a| == |b| && Bits(a) == Bits(b)
    ensures a == b
  {
    if a != [] {
      var x, y := ByteBits(a[0]), ByteBits(b[0]);
      assert Bits(a)[..8] == x && Bits(b)[..8] == y;
      assert Bits(a)[8..] == Bits(a[1..]) && Bits(b)[8..] == Bits(b[1..]);
      assert Power2(8) == 256;
      LowBitsInjective(a[0], b[0], 8);
      BitsInjective(a[1..], b[1..]);
      assert a == [a[0]] + a[1..] && b == [b[0]] + b[1..];
    }
  }

  /** Two messages differ by a burst when every differing bit lies within
      `window` consecutive bits. */
  ghost predicate Burst(a: Bytes, b: Bytes, window: nat) {
    && |a| == |b| && a != b
    && exists k: nat :: BurstAt(a, b, k, window)
  }

  ghost predicate BurstAt(a: Bytes, b: Bytes, k: nat, window: nat)
    requires |a| == |b|
  {
    forall i | 0 <= i < 8 * |a| && !(k <= i < k + window) :: Bits(a)[i] == Bits(b)[i]
  }

  /** CRC-32 tells apart any two messages that differ by a burst of at most
      32 bits, on octet boundaries or not. */
  lemma BurstChangesCrc(a: Bytes, b: Bytes)
    requires Burst(a, b, 32)
    ensures Crc32(a) != Crc32(b)
  {
    var k: nat :| BurstAt(a, b, k, 32);
    var x, y := Bits(a), Bits(b);
    var lo := if k < |x| then k else |x|;
    var hi := if k + 32 < |x| then k + 32 else |x|;
    var p, u, v, q := x[..lo], x[lo..hi], y[lo..hi], x[hi..];
    assert x == p + (u + q);
    assert y == p + (v + q) by {
      assert y[..lo] == p && y[hi..] == q;
    }
    if Crc32(a) == Crc32(b) {
      NotInjective(FoldBytes(Ones(), a), FoldBytes(Ones(), b));
      FoldBytesIsFoldBits(Ones(), a);
      FoldBytesIsFoldBits(Ones(), b);
      FoldBitsConcat(Ones(), p, u + q);
      FoldBitsConcat(Ones(), p, v + q);
      var s := FoldBits(Ones(), p);
      FoldBitsConcat(s, u, q);
      FoldBitsConcat(s, v, q);
      SuffixKeepsDifference(FoldBits(s, u), FoldBits(s, v), q);
      ShortBitsInjective(s, s, u, v);
      BitsInjective(a, b);
    }
  }

  lemma NotInjective(a: Word, b: Word)
    requires Not(a) == Not(b)
    ensures a == b
  {
    assert forall i | 0 <= i < 32 :: a[i] == !Not(a)[i] && b[i] == !Not(b)[i];
  }

  // ----- The table-driven form of section 15 of RFC 2083 -----

  function Table(n: byte): Word {
    Steps(FromByte(n), 8)
  }

  function LowByte(c: Word): Word {
    c[..8] + Repeat(false, 24)
  }

  function Shr8(c: Word): Word {
    c[8..] + Repeat(false, 8)
  }

  lemma StepLinear(a: Word, b: Word)
    ensures Step(Xor(a, b)) == Xor(Step(a), Step(b))
  {
    assert forall i | 0 <= i < 32 :: Step(Xor(a, b))[i] == Xor(Step(a), Step(b))[i];
  }

  lemma {:induction false} StepsLinear(a: Word, b: Word, n: nat)
    ensures Steps(Xor(a, b), n) == Xor(Steps(a, n), Steps(b, n))
    decreases n
  {
    if n > 0 {
      StepLinear(a, b);
      StepsLinear(Step(a), Step(b), n - 1);
    }
  }

  lemma {:induction false} StepsShift(high: seq<bool>, n: nat, k: nat)
    requires n + |high| + k == 32
    ensures Steps(Repeat(false, n) + high + Repeat(false, k), n) == high + Repeat(false, n + k)
    decreases n
  {
    var w := Repeat(false, n) + high + Repeat(false, k);
    if n == 0 {
      assert w == high + Repeat(false, k);
    } else {
      assert Step(w) == Repeat(false, n - 1) + high + Repeat(false, k + 1);
      StepsShift(high, n - 1, k + 1);
    }
  }

  /** The number whose low bits are `bits`. */
  function ValueOf(bits: seq<bool>): (r: nat)
    ensures r < Power2(|bits|)
  {
    if bits == [] then 0 else (if bits[0] then 1 else 0) + 2 * ValueOf(bits[1..])
  }

  lemma {:induction false} LowBitsOfValue(bits: seq<bool>)
    ensures LowBits(ValueOf(bits), |bits|) == bits
    decreases bits
  {
    if bits != [] {
      LowBitsOfValue(bits[1..]);
      assert ValueOf(bits) / 2 == ValueOf(bits[1..]);
      assert bits == [bits[0]] + bits[1..];
    }
  }

  lemma EightBits()
    ensures Power2(8) == 256
  {
    assert Power2(4) == 16;
    assert Power2(8) == 16 * Power2(4);
  }

  /** `(c ^ b) & 0xff`, the index into the table. */
  function TableIndex(c: Word, b: byte): (r: byte)
    ensures FromByte(r) == LowByte(Xor(c, FromByte(b)))
  {
    var bits := Xor(c, FromByte(b))[..8];
    EightBits();
    LowBitsOfValue(bits);
    ValueOf(bits)
  }

  /** One octet of the bitwise loop is one table lookup. */
  lemma StepsIsTableLookup(c: Word, b: byte)
    ensures Steps(Xor(c, FromByte(b)), 8) == Xor(Table(TableIndex(c, b)), Shr8(c))
  {
    var x := Xor(c, FromByte(b));
    var high := Repeat(false, 8) + c[8..];
    assert high == Repeat(false, 8) + c[8..] + Repeat(false, 0);
    assert x == Xor(LowByte(x), high);
    StepsLinear(LowByte(x), high, 8);
    StepsShift(c[8..], 8, 0);
    assert Repeat(false, 8 + 0) == Repeat(false, 8);
  }

  /** The loop of the RFC's sample code: one lookup for each octet. */
  function TableFold(c: Word, m: Bytes): Word
    decreases m
  {
    if m == [] then c else TableFold(Xor(Table(TableIndex(c, m[0])), Shr8(c)), m[1..])
  }

  lemma {:induction false} FoldBytesIsTableFold(c: Word, m: Bytes)
    ensures FoldBytes(c, m) == TableFold(c, m)
    decreases m
  {
    hide Xor, FromByte, Table, Shr8, Steps, TableIndex;
    if m != [] {
      StepsIsTableLookup(c, m[0]);
      FoldBytesIsTableFold(Steps(Xor(c, FromByte(m[0])), 8), m[1..]);
    }
  }

  /** The two algorithms compute the same CRC of every message. */
  lemma Crc32IsTableDriven(m: Bytes)
    ensures Crc32(m) == Not(TableFold(Ones(), m))
  {
    FoldBytesIsTableFold(Ones(), m);
  }
}
