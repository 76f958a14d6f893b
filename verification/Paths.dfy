/** Relative object paths: the normal form every layer insists on. */
module Paths {
  import opened Bytes

  const SLASH: byte := 47
  const BACKSLASH: byte := 92
  const DOT: byte := 46
  const MAX_PATH_BYTES := 256

  /** `str::split` on one byte: the parts between separators, at least one. */
  function Split(s: Bytes, separator: byte): (r: seq<Bytes>)
    ensures r != []
  {
    if s == [] then [[]]
    else
      var rest := Split(s[1..], separator);
      if s[0] == separator then [[]] + rest else [[s[0]] + rest[0]] + rest[1..]
  }

  predicate NormalPart(part: Bytes) {
    part != [] && part != [DOT] && part != [DOT, DOT]
  }

  predicate NormalParts(parts: seq<Bytes>) {
    forall i | 0 <= i < |parts| :: NormalPart(parts[i])
  }

  /** Bounded, relative, without backslash, empty part, `.` or `..`. */
  predicate IsObjectPath(p: Bytes) {
    0 < |p| <= MAX_PATH_BYTES && p[0] != SLASH && BACKSLASH !in p && NormalParts(Split(p, SLASH))
  }

  predicate IsJournalPath(p: Bytes) {
    p == [] || IsObjectPath(p)
  }

  lemma {:induction false} SplitWhole(s: Bytes, separator: byte)
    requires separator !in s
    ensures Split(s, separator) == [s]
    decreases s
  {
    if s != [] {
      SplitWhole(s[1..], separator);
      assert [s[0]] + s[1..] == s;
    }
  }

  lemma {:induction false} SplitFirst(a: Bytes, separator: byte, b: Bytes)
    requires separator !in a
    ensures Split(a + ([separator] + b), separator) == [a] + Split(b, separator)
    decreases a
  {
    var s := a + ([separator] + b);
    if a == [] {
      assert s == [separator] + b && s[1..] == b;
    } else {
      SplitFirst(a[1..], separator, b);
      assert s[0] == a[0] && s[1..] == a[1..] + ([separator] + b);
      assert [a[0]] + a[1..] == a;
    }
  }

  /** p[i..j] lies between two separators, or between one and an end. */
  predicate IsSegment(p: Bytes, i: nat, j: nat) {
    i <= j <= |p| && (i == 0 || p[i - 1] == 47) && (j == |p| || p[j] == 47) && 47 !in p[i..j]
  }

  predicate GoodIfSegment(p: Bytes, i: nat, j: nat) {
    IsSegment(p, i, j) ==> p[i..j] != [] && p[i..j] != [46] && p[i..j] != [46, 46]
  }

  ghost predicate SegmentsAreNormal(p: Bytes) {
    forall i: nat, j: nat :: GoodIfSegment(p, i, j)
  }

  lemma OneSegment(p: Bytes)
    requires SLASH !in p
    ensures NormalParts(Split(p, SLASH)) <==> SegmentsAreNormal(p)
  {
    SplitWhole(p, SLASH);
    hide Split;
    assert p[0..|p|] == p;
    assert IsSegment(p, 0, |p|);
    assert Split(p, SLASH)[0] == p;
    assert GoodIfSegment(p, 0, |p|) <==> NormalPart(p);
    assert forall m | 0 <= m < |p| :: p[m] in p;
    forall i: nat, j: nat | IsSegment(p, i, j) ensures p[i..j] == p {
    }
  }

  lemma AfterSlash(a: Bytes, b: Bytes, i: nat, j: nat)
    requires i <= j <= |b|
    ensures var p, k := a + ([SLASH] + b), |a| + 1;
            && p[k - 1] == SLASH && p[0..|a|] == a && p[k + i..k + j] == b[i..j]
            && (i > 0 ==> p[k + i - 1] == b[i - 1]) && (j < |b| ==> p[k + j] == b[j])
  {
    var p, k := a + ([SLASH] + b), |a| + 1;
    assert p == (a + [SLASH]) + b;
  }

  lemma ShiftedSegment(a: Bytes, b: Bytes, i: nat, j: nat)
    requires SLASH !in a
    ensures var p := a + ([SLASH] + b);
            var k := |a| + 1;
            && IsSegment(p, 0, |a|) && p[0..|a|] == a
            && (IsSegment(b, i, j) ==> IsSegment(p, k + i, k + j) && p[k + i..k + j] == b[i..j])
  {
    AfterSlash(a, b, 0, 0);
    if IsSegment(b, i, j) {
      AfterSlash(a, b, i, j);
    }
  }

  lemma NotInside(a: Bytes, b: Bytes, i: nat, j: nat)
    requires SLASH !in a && IsSegment(a + ([SLASH] + b), i, j) && i < |a| + 1
    ensures i == 0 && j == |a| && (a + ([SLASH] + b))[i..j] == a
  {
    var p := a + ([SLASH] + b);
    assert p[|a|] == SLASH;
    assert forall m | 0 <= m < |a| :: p[m] in a;
    forall m | i <= m < j ensures p[m] != SLASH {
      assert p[m] == p[i..j][m - i];
    }
  }

  lemma UnshiftedSegment(a: Bytes, b: Bytes, i: nat, j: nat)
    requires SLASH !in a && IsSegment(a + ([SLASH] + b), i, j)
    ensures i <= j
    ensures var p := a + ([SLASH] + b);
            var k := |a| + 1;
            || (i == 0 && j == |a| && p[i..j] == a)
            || (i >= k && IsSegment(b, i - k, j - k) && p[i..j] == b[i - k..j - k])
  {
    if i < |a| + 1 {
      NotInside(a, b, i, j);
    } else {
      AfterSlash(a, b, i - |a| - 1, j - |a| - 1);
    }
  }

  lemma {:induction false} SplitIsSegments(p: Bytes)
    ensures NormalParts(Split(p, SLASH)) <==> SegmentsAreNormal(p)
    decreases |p|
  {
    if SLASH !in p {
      OneSegment(p);
    } else {
      var n := FirstSlash(p);
      var a, b := p[..n], p[n + 1..];
      assert p == a + ([SLASH] + b);
      SplitFirst(a, SLASH, b);
      SplitIsSegments(b);
      PartsAndSegments(a, b);
    }
  }

  lemma FirstSlash(p: Bytes) returns (n: nat)
    requires SLASH in p
    ensures n < |p| && p[n] == SLASH && SLASH !in p[..n]
  {
    n := 0;
    while p[n] != SLASH
      invariant n < |p| && SLASH !in p[..n]
      decreases |p| - n
    {
      assert p[..n + 1] == p[..n] + [p[n]];
      assert p == p[..n + 1] + p[n + 1..];
      n := n + 1;
    }
  }

  lemma PartsAndSegments(a: Bytes, b: Bytes)
    requires SLASH !in a && (NormalParts(Split(b, SLASH)) <==> SegmentsAreNormal(b))
    ensures NormalParts([a] + Split(b, SLASH)) <==> SegmentsAreNormal(a + ([SLASH] + b))
  {
    hide Split, IsSegment;
    var p, parts := a + ([SLASH] + b), [a] + Split(b, SLASH);
    ShiftedSegment(a, b, 0, 0);
    if NormalParts(parts) {
      assert NormalPart(parts[0]);
      forall i | 0 <= i < |Split(b, SLASH)| ensures NormalPart(Split(b, SLASH)[i]) {
        assert NormalPart(parts[i + 1]);
      }
      forall i: nat, j: nat ensures GoodIfSegment(p, i, j) {
        if IsSegment(p, i, j) {
          UnshiftedSegment(a, b, i, j);
          if i > |a| {
            assert GoodIfSegment(b, i - |a| - 1, j - |a| - 1);
          }
        }
      }
    }
    if SegmentsAreNormal(p) {
      assert GoodIfSegment(p, 0, |a|);
      forall i: nat, j: nat ensures GoodIfSegment(b, i, j) {
        ShiftedSegment(a, b, i, j);
        assert GoodIfSegment(p, |a| + 1 + i, |a| + 1 + j);
      }
    }
  }

  /** A path is accepted exactly when it has 1 to 256 octets, no backslash, and
      between its slashes nothing empty, no `.` and no `..`; in particular it does
      not start with a slash, and so never leaves its directory. */
  lemma ObjectPathBySegments(p: Bytes)
    ensures IsObjectPath(p) <==> 0 < |p| <= 256 && 92 !in p && SegmentsAreNormal(p)
  {
    SplitIsSegments(p);
    hide Split, SegmentsAreNormal;
    if 0 < |p| && SegmentsAreNormal(p) && p[0] == SLASH {
      EmptyFirst(p);
    }
  }

  lemma EmptyFirst(p: Bytes)
    requires 0 < |p| && p[0] == SLASH
    ensures !SegmentsAreNormal(p)
  {
    assert p[0..0] == [];
    assert !GoodIfSegment(p, 0, 0);
  }

  // ----- The paths of a session -----

  function Journal(): Bytes { Ascii("journal.jsonl") }

  function Manifest(): Bytes { Ascii("manifest.json") }

  function Captures(): Bytes { Ascii("captures") }

  function InCaptures(name: Bytes): Bytes {
    Captures() + ([SLASH] + name)
  }

  function ImageName(id: Bytes): Bytes {
    id + Ascii(".png")
  }

  function ImagePath(id: Bytes): Bytes {
    InCaptures(ImageName(id))
  }

  /** Where a new image is written before it is renamed into place. */
  function ImageTemp(digest: Digest): Bytes {
    InCaptures(Ascii(".tmp-") + digest)
  }

  function ManifestTemp(digest: Digest): Bytes {
    Ascii(".tmp-manifest-") + digest
  }

  lemma ImagePathIs(id: Bytes)
    ensures ImagePath(id) == Ascii("captures/") + id + Ascii(".png")
  {
    var slash: Bytes := [SLASH];
    assert Ascii("captures/") == Captures() + slash;
    hide Ascii;
    Assoc(Captures(), slash, id + Ascii(".png"));
    Assoc(Captures() + slash, id, Ascii(".png"));
  }

  lemma ImageTempIs(digest: Digest)
    ensures ImageTemp(digest) == Ascii("captures/.tmp-") + digest
  {
    var slash: Bytes := [SLASH];
    assert Ascii("captures/.tmp-") == (Captures() + slash) + Ascii(".tmp-");
    hide Ascii;
    Assoc(Captures(), slash, Ascii(".tmp-") + digest);
    Assoc(Captures() + slash, Ascii(".tmp-"), digest);
  }

  lemma ImagePathIsObjectPath(id: Bytes)
    requires IsId(id)
    ensures IsObjectPath(ImagePath(id))
  {
    var name := ImageName(id);
    assert forall i | 0 <= i < |name| :: name[i] != SLASH && name[i] != BACKSLASH;
    SplitFirst(Captures(), SLASH, name);
    SplitWhole(name, SLASH);
    assert Split(ImagePath(id), SLASH) == [Captures()] + [name];
  }

  lemma ManifestIsObjectPath()
    ensures IsObjectPath(Manifest())
  {
    hide Split;
    var p := Manifest();
    assert forall i | 0 <= i < |p| :: p[i] != SLASH && p[i] != BACKSLASH;
    SplitWhole(p, SLASH);
  }

  /** The session's files never collide: different roles, different paths. */
  lemma PathsDiffer(id: Bytes, other: Bytes, image: Digest, manifest: Digest)
    requires IsId(id) && IsId(other)
    ensures id != other ==> ImagePath(id) != ImagePath(other)
    ensures ImagePath(id) !in {ImageTemp(image), ManifestTemp(manifest), Journal(), Manifest()}
    ensures ImageTemp(image) !in {ManifestTemp(manifest), Journal(), Manifest()}
    ensures ManifestTemp(manifest) !in {Journal(), Manifest()}
    ensures Journal() != Manifest()
  {
    hide Split;
    var a, b := ImagePath(id), ImagePath(other);
    if a == b {
      assert a[9..] == ImageName(id) && b[9..] == ImageName(other);
      assert ImageName(id)[..|id|] == id && ImageName(other)[..|other|] == other;
    }
    assert a[0] == 99 && a[9] == id[0];
    assert ImageTemp(image)[0] == 99 && ImageTemp(image)[9] == DOT;
    assert ManifestTemp(manifest)[0] == DOT;
    assert Journal()[0] == 106 && Manifest()[0] == 109;
  }
}
