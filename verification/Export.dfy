/** Export: the archive built from a session, and that it passes verification. */
module Export {
  import opened Bytes
  import opened Manifest
  import opened Plans
  import opened Tar
  import opened TarRoundTrip
  import opened Tree
  import opened Archive
  import Integrity
  import Journal
  import JournalText
  import Paths
  import Utf8

  // ----- The list as text -----

  function LineOf(item: Item, hash: Hash): Bytes {
    hash(item.data) + (Ascii("  ") + item.path)
  }

  function TextLines(t: Tree, hash: Hash): (r: seq<Bytes>)
    ensures |r| == |t| && forall i | 0 <= i < |t| :: r[i] == LineOf(t[i], hash)
  {
    if t == [] then [] else TextLines(t[..|t| - 1], hash) + [LineOf(t[|t| - 1], hash)]
  }

  predicate NoBreaks(t: Tree) {
    forall i | 0 <= i < |t| :: 10 !in t[i].path
  }

  predicate NoReturns(t: Tree) {
    forall i | 0 <= i < |t| :: 13 !in t[i].path
  }

  lemma LineIsWhole(item: Item, hash: Hash)
    requires 10 !in item.path
    ensures JournalText.NoNewline(LineOf(item, hash)) && SumsLine(item, hash) == LineOf(item, hash) + [10]
  {
    var d := hash(item.data);
    assert forall i | 0 <= i < |d| :: d[i] != 10;
    assert Ascii("  ") + (item.path + [10]) == (Ascii("  ") + item.path) + [10];
  }

  /** The text has one line for each entry. */
  lemma {:induction false} TextIsCut(t: Tree, hash: Hash)
    requires NoBreaks(t)
    ensures Journal.CutOf(SumsText(t, hash)) == Journal.Cut(TextLines(t, hash), [])
    decreases |t|
  {
    if t == [] {
      EmptyCut();
    } else {
      var n := |t| - 1;
      TextIsCut(t[..n], hash);
      hide Journal.CutOf, LineOf, SumsLine;
      LineIsWhole(t[n], hash);
      Journal.CutLine(SumsText(t[..n], hash), LineOf(t[n], hash));
    }
  }

  lemma EmptyCut()
    ensures Journal.CutOf([]) == Journal.Cut([], [])
  {
  }

  lemma LineHasNoReturn(item: Item, hash: Hash)
    requires 13 !in item.path && item.path != []
    ensures StripReturn(LineOf(item, hash)) == LineOf(item, hash)
  {
    var line := LineOf(item, hash);
    assert line[|line| - 1] == item.path[|item.path| - 1];
  }

  lemma TextLinesAreLines(t: Tree, hash: Hash)
    requires NoBreaks(t) && NoReturns(t) && AllPaths(t)
    ensures Lines(SumsText(t, hash)) == TextLines(t, hash)
  {
    TextIsCut(t, hash);
    hide Journal.CutOf, SumsText, Paths.Split;
    var lines := TextLines(t, hash);
    forall i | 0 <= i < |t| ensures StripReturn(lines[i]) == lines[i] {
      LineHasNoReturn(t[i], hash);
    }
    assert StripReturns(lines) == lines;
  }

  lemma {:induction false} GapAfterDigest(digest: Bytes, path: Bytes)
    requires 32 !in digest
    ensures FirstGap(digest + ([32, 32] + path)) == Some(|digest|)
    decreases digest
  {
    var s := digest + ([32, 32] + path);
    if digest == [] {
      assert s == [32, 32] + path;
    } else {
      GapAfterDigest(digest[1..], path);
      assert s[0] == digest[0] && s[1..] == digest[1..] + ([32, 32] + path);
    }
  }

  /** A line the builder wrote vouches for its entry. */
  lemma OwnLineChecks(item: Item, all: Tree, hash: Hash)
    requires Paths.IsObjectPath(item.path) && item.path != Sums() && Get(all, item.path) == Some(item.data)
    ensures CheckLine(LineOf(item, hash), all, hash) == Some(item.path)
  {
    var digest: Bytes := hash(item.data);
    assert Ascii("  ") == [32, 32];
    assert forall i | 0 <= i < |digest| :: digest[i] != 32;
    GapAfterDigest(digest, item.path);
    hide Paths.IsObjectPath, FirstGap, Get, Sums;
    var line := LineOf(item, hash);
    assert line[..|digest|] == digest && line[|digest| + 2..] == item.path;
  }

  predicate IsListed(item: Item, all: Tree) {
    Paths.IsObjectPath(item.path) && item.path != Sums() && Get(all, item.path) == Some(item.data)
  }

  lemma LastKey(t: Tree)
    requires t != []
    ensures Keys(t) == Keys(t[..|t| - 1]) + {t[|t| - 1].path}
  {
    var n := |t| - 1;
    assert forall i | 0 <= i < n :: t[..n][i] == t[i];
    forall p | p in Keys(t[..n]) + {t[n].path} ensures p in Keys(t) {
      if p in Keys(t[..n]) {
        var i :| 0 <= i < n && t[..n][i].path == p;
        assert t[i].path == p;
      }
    }
    forall p | p in Keys(t) ensures p in Keys(t[..n]) + {t[n].path} {
      var i :| 0 <= i < |t| && t[i].path == p;
      if i < n {
        assert t[..n][i].path == p;
      }
    }
  }

  lemma LastIsNew(t: Tree)
    requires Sorted(t) && t != []
    ensures Sorted(t[..|t| - 1]) && t[|t| - 1].path !in Keys(t[..|t| - 1])
  {
    hide Less;
    var n := |t| - 1;
    if t[n].path in Keys(t[..n]) {
      var i :| 0 <= i < n && t[..n][i].path == t[n].path;
      LessIsStrict(t[i].path, t[n].path);
    }
  }

  lemma {:induction false} OwnLinesCheck(t: Tree, all: Tree, hash: Hash)
    requires Sorted(t) && forall i | 0 <= i < |t| :: IsListed(t[i], all)
    ensures CheckLines(TextLines(t, hash), all, hash) == Some(Keys(t))
    decreases |t|
  {
    if t == [] {
      assert Keys(t) == {};
    } else {
      hide CheckLine, LineOf, Less, IsListed, Keys, Sorted, TextLines;
      var n := |t| - 1;
      LinesPrefix(t, hash);
      LastIsNew(t);
      LastKey(t);
      assert IsListed(t[n], all);
      forall i | 0 <= i < n ensures IsListed(t[..n][i], all) {
        assert t[..n][i] == t[i];
      }
      OwnLinesCheck(t[..n], all, hash);
      OwnLine(t[n], all, hash);
    }
  }

  lemma OwnLine(item: Item, all: Tree, hash: Hash)
    requires IsListed(item, all)
    ensures CheckLine(LineOf(item, hash), all, hash) == Some(item.path)
  {
    OwnLineChecks(item, all, hash);
  }

  lemma LinesPrefix(t: Tree, hash: Hash)
    requires t != []
    ensures TextLines(t, hash)[..|t| - 1] == TextLines(t[..|t| - 1], hash)
    ensures TextLines(t, hash)[|t| - 1] == LineOf(t[|t| - 1], hash)
  {
    hide LineOf;
  }

  lemma {:induction false} TextIsUtf8(t: Tree, hash: Hash)
    requires AllUtf8(t)
    ensures Utf8.IsUtf8(SumsText(t, hash))
    decreases |t|
  {
    if t == [] {
      Utf8.AsciiIsUtf8([]);
    } else {
      var n := |t| - 1;
      TextIsUtf8(t[..n], hash);
      hide Utf8.IsUtf8;
      var digest: Bytes := hash(t[n].data);
      Utf8.AsciiIsUtf8(digest);
      Utf8.AsciiIsUtf8(Ascii("  "));
      Utf8.AsciiIsUtf8([10]);
      Utf8.Utf8Concat(t[n].path, [10]);
      Utf8.Utf8Concat(Ascii("  "), t[n].path + [10]);
      Utf8.Utf8Concat(digest, Ascii("  ") + (t[n].path + [10]));
      Utf8.Utf8Concat(SumsText(t[..n], hash), SumsLine(t[n], hash));
    }
  }

  // ----- What is exported -----

  /** The entries of an export: a valid manifest and the images it cites. */
  ghost predicate IsExport(t: Tree, m: Evidence, env: Env) {
    && Sorted(t) && Valid(m) && ManifestIn(t, env) == Some(m) && Keys(t) == Expected(m.captures)
    && AllMatch(t, m.captures, env) && Sums() !in Keys(t)
  }

  predicate IsPlainPath(p: Bytes) {
    Paths.IsObjectPath(p) && Utf8.IsUtf8(p) && 0 !in p && 13 !in p
  }

  lemma ManifestIsPlain()
    ensures IsPlainPath(Paths.Manifest()) && 10 !in Paths.Manifest()
  {
    Paths.ManifestIsObjectPath();
    Integrity.ManifestNameIsUtf8();
    hide Paths.IsObjectPath, Utf8.IsUtf8;
  }

  lemma ImageIsPlain(c: CaptureRecord)
    requires ValidCapture(c)
    ensures IsPlainPath(c.image.relativePath)
  {
    hide Paths.IsObjectPath, Utf8.IsUtf8;
  }

  /** Validation leaves only newline and tab among control characters. */
  lemma ExportPaths(t: Tree, m: Evidence, env: Env)
    requires IsExport(t, m, env)
    ensures AllPaths(t) && AllUtf8(t) && NoNul(t) && NoReturns(t)
  {
    ManifestIsPlain();
    hide IsPlainPath, Less, AllMatch, ManifestIn, Paths.Manifest, Sums, ValidCapture, FindingsOk, AgentFindingsOk,
         ComparisonOk, BeforeAfterOk;
    forall i | 0 <= i < |t| ensures IsPlainPath(t[i].path) {
      assert t[i].path in Keys(t);
      if t[i].path != Paths.Manifest() {
        var k :| 0 <= k < |m.captures| && m.captures[k].image.relativePath == t[i].path;
        ImageIsPlain(m.captures[k]);
      }
    }
    PlainPaths(t);
  }

  lemma PlainPaths(t: Tree)
    requires forall i | 0 <= i < |t| :: IsPlainPath(t[i].path)
    ensures AllPaths(t) && AllUtf8(t) && NoNul(t) && NoReturns(t)
  {
    hide Paths.IsObjectPath, Utf8.IsUtf8;
  }

  lemma {:induction false} FewPaths(captures: seq<CaptureRecord>)
    ensures |ImagePaths(captures)| <= |captures|
  {
    if captures == [] {
      assert ImagePaths(captures) == {};
    } else {
      var n := |captures| - 1;
      FewPaths(captures[..n]);
      PathsGrow(captures, n);
      assert captures[..n + 1] == captures;
    }
  }

  lemma ExportCount(t: Tree, m: Evidence, env: Env)
    requires IsExport(t, m, env)
    ensures |t| <= MAX_CAPTURE_COUNT + 1
  {
    KeyCount(t);
    FewPaths(m.captures);
    hide Less, ValidCapture, FindingsOk, AgentFindingsOk, ComparisonOk, BeforeAfterOk, AllMatch, ManifestIn;
  }

  lemma AllCount(t: Tree, hash: Hash)
    requires Sorted(t) && Sums() !in Keys(t)
    ensures |WithSums(t, hash)| == |t| + 1 && Keys(WithSums(t, hash)) == Keys(t) + {Sums()} && Sorted(WithSums(t, hash))
  {
    hide Less, WithSums;
    WithSumsIsSorted(t, hash);
    KeyCount(t);
    KeyCount(WithSums(t, hash));
  }

  lemma SameContent(t: Tree, hash: Hash, p: Bytes)
    ensures Get(WithSums(t, hash), p) == if p == Sums() then Some(SumsText(t, hash)) else Get(t, p)
  {
    GetInsert(t, Sums(), SumsText(t, hash), p);
  }

  lemma AllListedIn(t: Tree, hash: Hash)
    requires Sorted(t) && AllPaths(t) && Sums() !in Keys(t)
    ensures forall i | 0 <= i < |t| :: IsListed(t[i], WithSums(t, hash))
  {
    hide Paths.IsObjectPath, Less, Sums, SumsText;
    forall i | 0 <= i < |t| ensures IsListed(t[i], WithSums(t, hash)) {
      GetAt(t, i);
      assert t[i].path in Keys(t);
      SameContent(t, hash, t[i].path);
    }
  }

  lemma ListIsOk(t: Tree, m: Evidence, env: Env)
    requires IsExport(t, m, env) && NoBreaks(t)
    ensures ListOk(WithSums(t, env.hash), env) && Referenced(WithSums(t, env.hash), env) == Keys(t)
  {
    ExportPaths(t, m, env);
    hide Less, Paths.IsObjectPath, Utf8.IsUtf8, Valid, ManifestIn, AllMatch, Expected, Sums, SumsText, Lines,
         CheckLines, IsListed, AllUtf8, NoNul, AllPaths, NoReturns, NoBreaks;
    var all := WithSums(t, env.hash);
    AllCount(t, env.hash);
    KeyCount(t);
    SameContent(t, env.hash, Sums());
    TextIsUtf8(t, env.hash);
    TextLinesAreLines(t, env.hash);
    AllListedIn(t, env.hash);
    OwnLinesCheck(t, all, env.hash);
  }

  lemma ImagesMatch(t: Tree, m: Evidence, env: Env)
    requires IsExport(t, m, env)
    ensures AllMatch(WithSums(t, env.hash), m.captures, env) && ManifestIn(WithSums(t, env.hash), env) == Some(m)
    ensures Contains(WithSums(t, env.hash), Paths.Manifest())
  {
    hide Valid, FromJson, ImageMatches, Sums, SumsText, Paths.Manifest, WithSums, Less, Get;
    SameContent(t, env.hash, Paths.Manifest());
    forall i | 0 <= i < |m.captures| ensures Matches(WithSums(t, env.hash), m.captures[i].image, env) {
      assert Matches(t, m.captures[i].image, env);
      assert m.captures[i].image.relativePath in ImagePaths(m.captures);
      SameContent(t, env.hash, m.captures[i].image.relativePath);
    }
  }

  /** Without newlines in its paths an export's entries pass verification. */
  lemma ExportVerifies(t: Tree, m: Evidence, env: Env)
    requires IsExport(t, m, env) && NoBreaks(t)
    ensures Verified(WithSums(t, env.hash), env).Ok?
  {
    ListIsOk(t, m, env);
    ImagesMatch(t, m, env);
    AllCount(t, env.hash);
    KeyCount(t);
    hide Valid, FromJson, ImageMatches, Sums, SumsText, Paths.Manifest, WithSums, Less, Get, ListOk, AllMatch,
         ManifestIn, Keys;
  }

  // ----- Newlines -----

  lemma {:induction false} CutLinesAreWhole(text: Bytes)
    ensures forall i | 0 <= i < |Journal.CutOf(text).lines| :: 10 !in Journal.CutOf(text).lines[i]
    ensures 10 !in Journal.CutOf(text).tail
    decreases |text|
  {
    if text != [] {
      CutLinesAreWhole(text[..|text| - 1]);
    }
  }

  lemma LinesAreWhole(text: Bytes)
    ensures forall i | 0 <= i < |Lines(text)| :: 10 !in Lines(text)[i]
  {
    CutLinesAreWhole(text);
    hide Journal.CutOf;
  }

  /** Whatever is accepted has no newline in the name of any listed entry. */
  lemma AcceptedHasNoBreaks(all: Tree, env: Env)
    requires Sorted(all) && Verified(all, env).Ok?
    ensures forall p | p in Keys(all) && p != Sums() :: 10 !in p
  {
    VerifiedIsSound(all, env);
    var lines := Lines(Get(all, Sums()).value);
    LinesAreWhole(Get(all, Sums()).value);
    hide Lines, Verified, ManifestIn, AllMatch, Expected, CheckLine, Get, Less, Sums;
    forall p | p in Keys(all) && p != Sums() ensures 10 !in p {
      assert ListedOnce(lines, p, all, env.hash);
      var i :| 0 <= i < |lines| && Vouches(lines[i], p, all, env.hash);
      InLine(lines[i], p, all, env.hash);
    }
  }

  lemma InLine(line: Bytes, p: Bytes, t: Tree, hash: Hash)
    requires Vouches(line, p, t, hash) && 10 !in line
    ensures 10 !in p
  {
    hide CheckLine, Get;
    var front := hash(Get(t, p).value) + Ascii("  ");
    assert line == front + p;
  }

  /** An export is accepted by `verify_archive` exactly when no path in it holds
      a newline, the one line break that validation lets through. */
  lemma VerifyAfterBuild(t: Tree, m: Evidence, env: Env)
    requires IsExport(t, m, env) && AllSized(WithSums(t, env.hash)) && Built(t, env.hash).Ok?
    ensures ArchiveVerified(Built(t, env.hash).value, env).Ok? <==> NoBreaks(t)
  {
    var all := WithSums(t, env.hash);
    ExportPaths(t, m, env);
    ExportCount(t, m, env);
    AllCount(t, env.hash);
    hide Less, Valid, ManifestIn, AllMatch, Expected, Sums, SumsText, WithSums, Built, Parsed, Verified, AllPaths,
         AllUtf8, NoReturns, AllSized;
    ParseAfterBuild(t, env.hash);
    if NoBreaks(t) {
      ExportVerifies(t, m, env);
    } else if ArchiveVerified(Built(t, env.hash).value, env).Ok? {
      AcceptedHasNoBreaks(all, env);
      forall i | 0 <= i < |t| ensures 10 !in t[i].path {
        assert t[i].path in Keys(t);
      }
    }
  }
}
