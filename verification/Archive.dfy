/** Verification of an evidence archive: what `verify_archive` accepts. */
module Archive {
  import opened Bytes
  import opened Errors
  import opened Manifest
  import opened Plans
  import opened Tar
  import opened Tree
  import Journal
  import Paths
  import TarRoundTrip
  import Utf8

  // ----- The checksum list -----

  function StripReturn(line: Bytes): Bytes {
    if line != [] && line[|line| - 1] == 13 then line[..|line| - 1] else line
  }

  function StripReturns(lines: seq<Bytes>): (r: seq<Bytes>)
    ensures |r| == |lines| && forall i | 0 <= i < |lines| :: r[i] == StripReturn(lines[i])
  {
    if lines == [] then [] else [StripReturn(lines[0])] + StripReturns(lines[1..])
  }

  /** `str::lines`: ends at newlines, less a carriage return before each; a
      last unfinished line counts as it is. */
  function Lines(text: Bytes): seq<Bytes> {
    var cut := Journal.CutOf(text);
    StripReturns(cut.lines) + (if cut.tail == [] then [] else [cut.tail])
  }

  /** Where the first two spaces in a row are. */
  function FirstGap(line: Bytes): (r: Option<nat>)
    ensures r.Some? ==> r.value + 2 <= |line| && line[r.value] == 32 && line[r.value + 1] == 32
  {
    if |line| < 2 then None
    else if line[0] == 32 && line[1] == 32 then Some(0)
    else
      var r := FirstGap(line[1..]);
      if r.None? then None else Some(r.value + 1)
  }

  /** The path a line of the list vouches for, when it is right. */
  function CheckLine(line: Bytes, t: Tree, hash: Hash): Option<Bytes> {
    var gap := FirstGap(line);
    if gap.None? then None
    else
      var digest, path := line[..gap.value], line[gap.value + 2..];
      if !Paths.IsObjectPath(path) || path == Sums() || !IsSha256(digest) then None
      else
        var data := Get(t, path);
        if data.None? || hash(data.value) != digest then None else Some(path)
  }

  function CheckLines(lines: seq<Bytes>, t: Tree, hash: Hash): Option<set<Bytes>> {
    if lines == [] then Some({})
    else
      var before, path := CheckLines(lines[..|lines| - 1], t, hash), CheckLine(lines[|lines| - 1], t, hash);
      if before.None? || path.None? || path.value in before.value then None else Some(before.value + {path.value})
  }

  // ----- The manifest's images -----

  predicate Matches(t: Tree, image: ImageEvidence, env: Env) {
    Get(t, image.relativePath).Some? && ImageMatches(Get(t, image.relativePath).value, image, env)
  }

  predicate AllMatch(t: Tree, captures: seq<CaptureRecord>, env: Env) {
    forall i | 0 <= i < |captures| :: Matches(t, captures[i].image, env)
  }

  function ImagePaths(captures: seq<CaptureRecord>): set<Bytes> {
    set i | 0 <= i < |captures| :: captures[i].image.relativePath
  }

  function ManifestIn(t: Tree, env: Env): Option<Evidence> {
    var bytes := Get(t, Paths.Manifest());
    if bytes.None? then None else FromJson(bytes.value, env.parseManifest)
  }

  predicate ListOk(t: Tree, env: Env) {
    var sums := Get(t, Sums());
    && sums.Some? && Utf8.IsUtf8(sums.value)
    && CheckLines(Lines(sums.value), t, env.hash).Some?
    && |CheckLines(Lines(sums.value), t, env.hash).value| + 1 == |t|
  }

  function Referenced(t: Tree, env: Env): set<Bytes>
    requires ListOk(t, env)
  {
    CheckLines(Lines(Get(t, Sums()).value), t, env.hash).value
  }

  function Expected(captures: seq<CaptureRecord>): set<Bytes> {
    {Paths.Manifest()} + ImagePaths(captures)
  }

  function Verified(t: Tree, env: Env): Result<(), StoreError> {
    if !ListOk(t, env) || !Contains(t, Paths.Manifest()) then Err(ArchiveInvalid)
    else
      var m := ManifestIn(t, env);
      if m.None? then Err(ManifestInvalid)
      else if !AllMatch(t, m.value.captures, env) then Err(ArchiveInvalid)
      else if |Expected(m.value.captures)| != |t| - 1 || !(Referenced(t, env) <= Expected(m.value.captures))
      then Err(ArchiveInvalid)
      else Ok(())
  }

  method ReadList(t: Tree, env: Env) returns (r: Option<set<Bytes>>)
    ensures r.Some? <==> ListOk(t, env)
    ensures r.Some? ==> r.value == Referenced(t, env)
  {
    hide CheckLine, Lines, Utf8.IsUtf8;
    var sums := Get(t, Sums());
    if sums.None? || !Utf8.IsUtf8(sums.value) {
      return None;
    }
    var lines := Lines(sums.value);
    var referenced := {};
    for i := 0 to |lines|
      invariant CheckLines(lines[..i], t, env.hash) == Some(referenced)
    {
      assert lines[..i + 1][..i] == lines[..i];
      var path := CheckLine(lines[i], t, env.hash);
      if path.None? || path.value in referenced {
        LinesStuck(lines, i + 1, t, env.hash);
        return None;
      }
      referenced := referenced + {path.value};
    }
    assert lines[..|lines|] == lines;
    if |referenced| + 1 != |t| {
      return None;
    }
    r := Some(referenced);
  }

  lemma {:induction false} LinesStuck(lines: seq<Bytes>, k: nat, t: Tree, hash: Hash)
    requires k <= |lines| && CheckLines(lines[..k], t, hash).None?
    ensures CheckLines(lines, t, hash).None?
    decreases |lines|
  {
    hide CheckLine;
    if k == |lines| {
      assert lines[..k] == lines;
    } else {
      assert lines[..|lines| - 1][..k] == lines[..k];
      LinesStuck(lines[..|lines| - 1], k, t, hash);
    }
  }

  method VerifyArchiveEntries(t: Tree, env: Env) returns (r: Result<(), StoreError>)
    ensures r == Verified(t, env)
  {
    hide ListOk, Referenced, FromJson, ImageMatches;
    var referenced := ReadList(t, env);
    if referenced.None? {
      return Err(ArchiveInvalid);
    }
    var bytes := Get(t, Paths.Manifest());
    if bytes.None? {
      return Err(ArchiveInvalid);
    }
    var manifest := FromJson(bytes.value, env.parseManifest);
    if manifest.None? {
      return Err(ManifestInvalid);
    }
    var captures := manifest.value.captures;
    var expected := CollectPaths(t, captures, env);
    if expected.None? {
      return Err(ArchiveInvalid);
    }
    if |expected.value| != |t| - 1 || !(referenced.value <= expected.value) {
      return Err(ArchiveInvalid);
    }
    r := Ok(());
  }

  method CollectPaths(t: Tree, captures: seq<CaptureRecord>, env: Env) returns (r: Option<set<Bytes>>)
    ensures r == if AllMatch(t, captures, env) then Some(Expected(captures)) else None
  {
    hide ImageMatches, Get;
    var expected := {Paths.Manifest()};
    for i := 0 to |captures|
      invariant AllMatch(t, captures[..i], env) && expected == Expected(captures[..i])
    {
      var image := captures[i].image;
      var data := Get(t, image.relativePath);
      if data.None? || !ImageMatches(data.value, image, env) {
        assert !Matches(t, captures[i].image, env);
        return None;
      }
      PathsGrow(captures, i);
      expected := expected + {image.relativePath};
    }
    assert captures[..|captures|] == captures;
    r := Some(expected);
  }

  lemma PathsGrow(captures: seq<CaptureRecord>, i: nat)
    requires i < |captures|
    ensures ImagePaths(captures[..i + 1]) == ImagePaths(captures[..i]) + {captures[i].image.relativePath}
  {
    var more := captures[..i + 1];
    forall p | p in ImagePaths(captures[..i]) + {captures[i].image.relativePath} ensures p in ImagePaths(more) {
      if p in ImagePaths(captures[..i]) {
        var k :| 0 <= k < i && captures[..i][k].image.relativePath == p;
        assert more[k].image.relativePath == p;
      } else {
        assert more[i].image.relativePath == p;
      }
    }
  }

  // ----- Soundness -----

  /** Line `i` of the list vouches for `path` with its true digest. */
  predicate Vouches(line: Bytes, path: Bytes, t: Tree, hash: Hash) {
    && Get(t, path).Some? && CheckLine(line, t, hash) == Some(path)
    && line == hash(Get(t, path).value) + (Ascii("  ") + path)
  }

  ghost predicate ListedOnce(lines: seq<Bytes>, path: Bytes, t: Tree, hash: Hash) {
    exists i :: 0 <= i < |lines| && Vouches(lines[i], path, t, hash)
      && forall j | 0 <= j < |lines| && j != i :: CheckLine(lines[j], t, hash) != Some(path)
  }

  lemma CheckedLine(line: Bytes, t: Tree, hash: Hash)
    requires CheckLine(line, t, hash).Some?
    ensures var path := CheckLine(line, t, hash).value;
            Vouches(line, path, t, hash) && path != Sums() && Contains(t, path)
  {
    hide Paths.IsObjectPath, Get, FirstGap;
    var gap := FirstGap(line).value;
    assert line == line[..gap] + (line[gap..gap + 2] + line[gap + 2..]);
    assert line[gap..gap + 2] == Ascii("  ");
  }

  lemma ListedStays(lines: seq<Bytes>, last: Bytes, p: Bytes, t: Tree, hash: Hash)
    requires ListedOnce(lines, p, t, hash) && CheckLine(last, t, hash) != Some(p)
    ensures ListedOnce(lines + [last], p, t, hash)
  {
    hide CheckLine, Vouches;
    var more := lines + [last];
    var i :| 0 <= i < |lines| && Vouches(lines[i], p, t, hash)
      && forall j | 0 <= j < |lines| && j != i :: CheckLine(lines[j], t, hash) != Some(p);
    assert more[i] == lines[i];
    forall j | 0 <= j < |more| && j != i ensures CheckLine(more[j], t, hash) != Some(p) {
      if j < |lines| {
        assert more[j] == lines[j];
      }
    }
  }

  lemma ListedNew(lines: seq<Bytes>, last: Bytes, p: Bytes, t: Tree, hash: Hash)
    requires Vouches(last, p, t, hash) && forall j | 0 <= j < |lines| :: CheckLine(lines[j], t, hash) != Some(p)
    ensures ListedOnce(lines + [last], p, t, hash)
  {
    hide CheckLine, Vouches;
    var more := lines + [last];
    assert more[|lines|] == last;
    forall j | 0 <= j < |more| && j != |lines| ensures CheckLine(more[j], t, hash) != Some(p) {
      assert more[j] == lines[j];
    }
  }

  predicate AllIn(lines: seq<Bytes>, paths: set<Bytes>, t: Tree, hash: Hash) {
    forall j | 0 <= j < |lines| :: CheckLine(lines[j], t, hash).Some? && CheckLine(lines[j], t, hash).value in paths
  }

  ghost predicate AllListed(lines: seq<Bytes>, paths: set<Bytes>, t: Tree, hash: Hash) {
    forall p | p in paths :: p != Sums() && Contains(t, p) && ListedOnce(lines, p, t, hash)
  }

  lemma LineAdds(init: seq<Bytes>, last: Bytes, before: set<Bytes>, path: Bytes, t: Tree, hash: Hash)
    requires AllListed(init, before, t, hash) && AllIn(init, before, t, hash) && path !in before
    requires Vouches(last, path, t, hash) && path != Sums() && Contains(t, path)
    ensures AllListed(init + [last], before + {path}, t, hash) && AllIn(init + [last], before + {path}, t, hash)
  {
    assert CheckLine(last, t, hash) == Some(path);
    hide CheckLine, Vouches, Contains, ListedOnce, Sums;
    forall p | p in before ensures ListedOnce(init + [last], p, t, hash) {
      ListedStays(init, last, p, t, hash);
    }
    ListedNew(init, last, path, t, hash);
  }

  /** The list counts each path it vouches for once. */
  lemma {:induction false} CheckedLines(lines: seq<Bytes>, t: Tree, hash: Hash)
    requires CheckLines(lines, t, hash).Some?
    ensures |CheckLines(lines, t, hash).value| == |lines|
    ensures AllListed(lines, CheckLines(lines, t, hash).value, t, hash)
    ensures AllIn(lines, CheckLines(lines, t, hash).value, t, hash)
    decreases |lines|
  {
    hide CheckLine, Vouches, Contains, AllListed, AllIn, Sums;
    if lines == [] {
      NothingListed(t, hash);
    } else {
      var n := |lines| - 1;
      CheckedLines(lines[..n], t, hash);
      CheckedLine(lines[n], t, hash);
      assert lines == lines[..n] + [lines[n]];
      LineAdds(lines[..n], lines[n], CheckLines(lines[..n], t, hash).value, CheckLine(lines[n], t, hash).value, t,
               hash);
    }
  }

  lemma NothingListed(t: Tree, hash: Hash)
    ensures AllListed([], {}, t, hash) && AllIn([], {}, t, hash)
  {
  }

  lemma SameSize(a: set<Bytes>, b: set<Bytes>)
    requires a <= b && |a| == |b|
    ensures a == b
  {
    if a != b {
      var x :| x in b && x !in a;
      Subset(a, b - {x});
    }
  }

  lemma {:induction false} Subset(a: set<Bytes>, b: set<Bytes>)
    requires a <= b
    ensures |a| <= |b|
    decreases |a|
  {
    if a != {} {
      var x :| x in a;
      Subset(a - {x}, b - {x});
    }
  }

  /** What an accepted set of entries attests: the names are the checksum list,
      the manifest and the images it cites; every entry but the list is listed
      exactly once, with its true digest; every image matches its record. */
  ghost predicate Attests(t: Tree, env: Env) {
    && ManifestIn(t, env).Some? && Contains(t, Sums())
    && Keys(t) == {Sums()} + Expected(ManifestIn(t, env).value.captures)
    && Sums() !in Expected(ManifestIn(t, env).value.captures)
    && AllMatch(t, ManifestIn(t, env).value.captures, env)
    && var lines := Lines(Get(t, Sums()).value);
       |lines| + 1 == |t| && forall p | p in Keys(t) && p != Sums() :: ListedOnce(lines, p, t, env.hash)
  }

  lemma KeysBySet(t: Tree, a: set<Bytes>)
    requires Sorted(t) && a <= Keys(t) && Sums() in Keys(t) && Sums() !in a && |a| + 1 == |t|
    ensures Keys(t) == {Sums()} + a
  {
    hide Less;
    KeyCount(t);
    SameSize(a + {Sums()}, Keys(t));
  }

  lemma ReferencedFacts(t: Tree, env: Env)
    requires ListOk(t, env)
    ensures var lines := Lines(Get(t, Sums()).value);
            && |Referenced(t, env)| == |lines| && |lines| + 1 == |t| && Contains(t, Sums())
            && Sums() !in Referenced(t, env) && Referenced(t, env) <= Keys(t)
            && forall p | p in Referenced(t, env) :: ListedOnce(lines, p, t, env.hash)
  {
    var lines := Lines(Get(t, Sums()).value);
    CheckedLines(lines, t, env.hash);
    hide Lines, CheckLines, ListedOnce, Get, Utf8.IsUtf8;
    forall p | p in Referenced(t, env) ensures p in Keys(t) {
      ContainsIsKey(t, p);
    }
  }

  /** Verification is sound: whatever it accepts attests itself. */
  lemma VerifiedIsSound(t: Tree, env: Env)
    requires Sorted(t) && Verified(t, env).Ok?
    ensures Attests(t, env)
  {
    ReferencedFacts(t, env);
    hide Lines, ListedOnce, FromJson, ListOk, Referenced, Less, Get;
    ContainsIsKey(t, Sums());
    var captures := ManifestIn(t, env).value.captures;
    KeysBySet(t, Referenced(t, env));
    SameSize(Referenced(t, env), Expected(captures));
  }

  /** `verify_archive` on arbitrary octets. */
  function ArchiveVerified(archive: Bytes, env: Env): Result<(), StoreError> {
    var t := Parsed(archive);
    if t.Err? then Err(t.error) else Verified(t.value, env)
  }

  /** Whatever octets it accepts, they parse to at most 34 sorted, normal and
      distinct paths, and the entries attest themselves. */
  lemma AcceptedAttests(archive: Bytes, env: Env)
    requires ArchiveVerified(archive, env).Ok?
    ensures Parsed(archive).Ok? && TarRoundTrip.IsParsed(Parsed(archive).value) && Attests(Parsed(archive).value, env)
  {
    hide Parsed, Verified;
    TarRoundTrip.ParsedIsSound(archive);
    VerifiedIsSound(Parsed(archive).value, env);
  }
}
