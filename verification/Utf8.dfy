/** Well-formed UTF-8 (section 4 of RFC 3629), what every Rust `String` holds. */
module Utf8 {
  import opened Bytes

  predicate IsContinuation(b: byte) {
    128 <= b < 192
  }

  /** Octets in the character that starts `s`, or 0 when none does. */
  function CharLength(s: Bytes): (n: nat)
    requires s != []
    ensures n <= |s|
  {
    if s[0] < 128 then 1
    else if 194 <= s[0] < 224 && |s| >= 2 && IsContinuation(s[1]) then 2
    else if |s| >= 3 && IsContinuation(s[1]) && IsContinuation(s[2])
            && 224 <= s[0] < 240 && (s[0] == 224 ==> s[1] >= 160) && (s[0] == 237 ==> s[1] < 160) then 3
    else if |s| >= 4 && IsContinuation(s[1]) && IsContinuation(s[2]) && IsContinuation(s[3])
            && 240 <= s[0] < 245 && (s[0] == 240 ==> s[1] >= 144) && (s[0] == 244 ==> s[1] < 144) then 4
    else 0
  }

  predicate IsUtf8(s: Bytes) {
    s == [] || (CharLength(s) > 0 && IsUtf8(s[CharLength(s)..]))
  }

  lemma CharOfPrefix(a: Bytes, b: Bytes)
    requires a != [] && CharLength(a) > 0
    ensures CharLength(a + b) == CharLength(a)
  {
    var s := a + b;
    assert s[0] == a[0];
    assert |a| > 1 ==> s[1] == a[1];
    assert |a| > 2 ==> s[2] == a[2];
    assert |a| > 3 ==> s[3] == a[3];
  }

  lemma {:induction false} Utf8Concat(a: Bytes, b: Bytes)
    requires IsUtf8(a) && IsUtf8(b)
    ensures IsUtf8(a + b)
    decreases |a|
  {
    if a == [] {
      assert a + b == b;
    } else {
      CharOfPrefix(a, b);
      var n := CharLength(a);
      assert (a + b)[n..] == a[n..] + b;
      Utf8Concat(a[n..], b);
    }
  }

  lemma {:induction false} AsciiIsUtf8(s: Bytes)
    requires forall i | 0 <= i < |s| :: s[i] < 128
    ensures IsUtf8(s)
  {
    if s != [] {
      AsciiIsUtf8(s[1..]);
    }
  }

  /** A character never spans an ASCII octet, so text can be cut there. */
  lemma {:induction false} Utf8Cut(a: Bytes, c: byte, b: Bytes)
    requires c < 128 && IsUtf8(a + ([c] + b))
    ensures IsUtf8(a) && IsUtf8(b)
    decreases |a|
  {
    var s := a + ([c] + b);
    if a == [] {
      assert s == [c] + b && s[1..] == b;
    } else {
      var n := CharLength(s);
      assert n <= |a| by {
        assert s[|a|] == c && !IsContinuation(c);
      }
      assert s[0] == a[0] && (n > 1 ==> s[1] == a[1]) && (n > 2 ==> s[2] == a[2]) && (n > 3 ==> s[3] == a[3]);
      assert s[n..] == a[n..] + ([c] + b);
      Utf8Cut(a[n..], c, b);
      assert CharLength(a) == n;
    }
  }
}
