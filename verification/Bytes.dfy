/** Octets, octet strings and the small result types shared by every module.
    A Rust `String` is modelled by its UTF-8 octets, so `len()` is `|s|`. */
module Bytes {

  type byte = x: int | 0 <= x < 256

  type Bytes = seq<byte>

  const U64_MAX := 0xFFFF_FFFF_FFFF_FFFF

  datatype Option<+T> = None | Some(value: T)

  datatype Result<+T, +E> = Ok(value: T) | Err(error: E)

  /** `count` copies of `value`. */
  function Repeat<T>(value: T, count: nat): (r: seq<T>)
    ensures |r| == count && forall i | 0 <= i < count :: r[i] == value
  {
    seq(count, _ => value)
  }

  lemma Assoc<T>(a: seq<T>, b: seq<T>, c: seq<T>)
    ensures (a + b) + c == a + (b + c)
  {
  }

  predicate AllZero(s: Bytes) {
    forall i | 0 <= i < |s| :: s[i] == 0
  }

  method IsZero(s: Bytes) returns (r: bool)
    ensures r == AllZero(s)
  {
    for i := 0 to |s|
      invariant forall k | 0 <= k < i :: s[k] == 0
    {
      if s[i] != 0 {
        return false;
      }
    }
    r := true;
  }

  /** An ASCII literal as octets. */
  function Ascii(text: string): (r: Bytes)
    ensures |r| == |text|
    ensures forall i | 0 <= i < |text| && text[i] < 128 as char :: r[i] == text[i] as int
  {
    seq(|text|, i requires 0 <= i < |text| => if text[i] < 128 as char then text[i] as int else 63)
  }

  predicate IsDigit(b: byte) {
    48 <= b <= 57
  }

  predicate IsLowerHex(b: byte) {
    IsDigit(b) || 97 <= b <= 102
  }

  predicate IsAlphanumeric(b: byte) {
    IsDigit(b) || 65 <= b <= 90 || 97 <= b <= 122
  }

  /** 64 lowercase hexadecimal digits, the only text `sha256_hex` produces. */
  predicate IsSha256(s: Bytes) {
    |s| == 64 && forall i | 0 <= i < 64 :: IsLowerHex(s[i])
  }

  type Digest = d: Bytes | IsSha256(d) witness Repeat(48, 64)

  /** SHA-256 in hexadecimal, left abstract: any function into 64 hex digits. */
  type Hash = Bytes -> Digest

  /** An opaque identifier: ASCII letters, digits, '-' and '_', at most 128. */
  predicate IsId(s: Bytes) {
    0 < |s| <= 128 && forall i | 0 <= i < |s| :: IsAlphanumeric(s[i]) || s[i] == 45 || s[i] == 95
  }
}
