/** Parsing what was built gives back what was put in. */
module TarRoundTrip {
  import opened Bytes
  import opened Paths
  import opened Tar
  import opened Tree
  import opened Ustar
  import opened Utf8

  /** An entry the header can carry and give back. */
  predicate IsFaithful(item: Item) {
    IsRepresentable(item.path) && IsUtf8(item.path) && IsSized(item.data) && 0 !in item.path
  }

  predicate AllFaithful(t: Tree) {
    forall i | 0 <= i < |t| :: IsFaithful(t[i])
  }

  function Joined(t: Tree): Bytes
    requires AllFaithful(t)
  {
    if t == [] then [] else EntryBytes(t[0].path, t[0].data) + Joined(t[1..])
  }

  lemma EntrySlices(h: Bytes, data: Bytes, padding: Bytes, tail: Bytes)
    requires |h| == BLOCK
    ensures var s := (h + (data + padding)) + tail;
            && s[..BLOCK] == h && s[BLOCK..] == data + padding + tail
            && s[BLOCK..][..|data|] == data && s[BLOCK..][|data| + |padding|..] == tail
  {
    var s := (h + (data + padding)) + tail;
    assert s[BLOCK..] == data + padding + tail;
  }

  lemma HeaderIsNotBlank(s: Parts, size: nat)
    requires Ustar.Fits(s, size)
    ensures !AllZero(Header(s, size))
  {
    OtherFields(s, size);
    hide Header;
    assert Header(s, size)[156] != 0;
  }

  /** One entry is consumed whole, padding included. */
  lemma EntryParses(item: Item, tail: Bytes, t: Tree)
    requires IsFaithful(item) && |t| < MAX_ARCHIVE_ENTRIES && !Contains(t, item.path)
    ensures ParseBlocks(EntryBytes(item.path, item.data) + tail, 0, t)
         == ParseBlocks(tail, 0, Insert(t, item.path, item.data))
  {
    var s, size := SplitPath(item.path).value, |item.data|;
    SplitFits(item.path, item.data);
    HeaderRoundTrip(item.path, size);
    HeaderIsNotBlank(s, size);
    hide SplitPath, Header, ReadHeader, IsUtf8, Eights, AllZero, Insert, Contains, PaddingLength, IsObjectPath, Drop,
         Ustar.Fits;
    var padding := Repeat(0, PaddingLength(size));
    EntrySlices(Header(s, size), item.data, padding, tail);
    var bytes := EntryBytes(item.path, item.data) + tail;
    assert bytes == (Header(s, size) + (item.data + padding)) + tail;
    hide EntryBytes;
    DropAll(bytes[BLOCK..], size + PaddingLength(size));
  }

  lemma DropAll(s: Bytes, n: nat)
    requires n <= |s|
    ensures Drop(s, n) == s[n..]
  {
  }

  lemma FaithfulRest(t: Tree)
    requires AllFaithful(t) && t != []
    ensures AllFaithful(t[1..]) && IsFaithful(t[0])
  {
  }

  lemma SortedAppend(t: Tree, items: Tree)
    requires Sorted(t + items) && items != []
    ensures AllBefore(t, items[0].path) && (t + [items[0]]) + items[1..] == t + items
  {
    forall i | 0 <= i < |t| ensures Less(t[i].path, items[0].path) {
      assert (t + items)[i] == t[i] && (t + items)[|t|] == items[0];
    }
  }

  /** All entries, in order, then whatever follows. */
  lemma {:induction false} EntriesParse(items: Tree, tail: Bytes, t: Tree)
    requires AllFaithful(items) && Sorted(t + items) && |t| + |items| <= MAX_ARCHIVE_ENTRIES
    ensures ParseBlocks(Joined(items) + tail, 0, t) == ParseBlocks(tail, 0, t + items)
    decreases |items|
  {
    hide IsFaithful, ParseBlocks, EntryBytes, Less;
    if items == [] {
      assert Joined(items) + tail == tail && t + items == t;
    } else {
      FaithfulRest(items);
      SortedAppend(t, items);
      InsertLast(t, items[0].path, items[0].data);
      FaithfulBytes(items[0]);
      var bytes := EntryBytes(items[0].path, items[0].data);
      Assoc(bytes, Joined(items[1..]), tail);
      EntryParses(items[0], Joined(items[1..]) + tail, t);
      assert Item(items[0].path, items[0].data) == items[0];
      EntriesParse(items[1..], tail, t + [items[0]]);
    }
  }

  lemma FaithfulBytes(item: Item)
    requires IsFaithful(item)
    ensures SplitPath(item.path).Some? && IsSized(item.data)
  {
  }

  lemma TerminatorParses(t: Tree)
    ensures ParseBlocks(Repeat(0, 2 * BLOCK), 0, t) == Some(t)
  {
    var z := Repeat(0, 2 * BLOCK);
    assert AllZero(z[..BLOCK]) && AllZero(z[BLOCK..][..BLOCK]);
    assert z[BLOCK..][BLOCK..] == [];
    assert ParseBlocks(z, 0, t) == ParseBlocks(z[BLOCK..], 1, t);
  }

  lemma {:induction false} JoinedLast(t: Tree, item: Item)
    requires AllFaithful(t) && IsFaithful(item)
    ensures AllFaithful(t + [item]) && Joined(t + [item]) == Joined(t) + EntryBytes(item.path, item.data)
    decreases |t|
  {
    hide IsFaithful, EntryBytes;
    FaithfulBytes(item);
    if t == [] {
      assert t + [item] == [item] && [item][1..] == [];
      assert EntryBytes(item.path, item.data) + [] == EntryBytes(item.path, item.data);
    } else {
      FaithfulRest(t);
      FaithfulBytes(t[0]);
      JoinedLast(t[1..], item);
      assert (t + [item])[1..] == t[1..] + [item];
      Assoc(EntryBytes(t[0].path, t[0].data), Joined(t[1..]), EntryBytes(item.path, item.data));
    }
  }

  predicate AllUtf8(t: Tree) {
    forall i | 0 <= i < |t| :: IsUtf8(t[i].path)
  }

  predicate NoNul(t: Tree) {
    forall i | 0 <= i < |t| :: 0 !in t[i].path
  }

  /** A successful build wrote every entry, and every path was representable. */
  lemma {:induction false} BlocksAreJoined(t: Tree)
    requires AllSized(t) && Blocks(t).Ok? && AllUtf8(t) && NoNul(t)
    ensures AllFaithful(t) && Blocks(t).value == Joined(t)
    decreases |t|
  {
    hide IsUtf8, IsRepresentable, EntryBytes, IsSized, Less;
    if t != [] {
      var n := |t| - 1;
      BlocksAreJoined(t[..n]);
      assert IsFaithful(t[n]);
      JoinedLast(t[..n], t[n]);
      assert t == t[..n] + [t[n]];
    }
  }

  lemma AddAligned(a: nat, b: nat)
    requires a % BLOCK == 0 && b % BLOCK == 0
    ensures (a + b) % BLOCK == 0
  {
  }

  lemma EntryIsAligned(path: Bytes, data: Bytes)
    requires SplitPath(path).Some? && IsSized(data)
    ensures |EntryBytes(path, data)| % BLOCK == 0
  {
    hide SplitPath, Eights, EntryBytes;
    var n := PaddingLength(|data|);
    hide PaddingLength;
    assert |EntryBytes(path, data)| == BLOCK + (|data| + n);
    AddAligned(BLOCK, |data| + n);
  }

  lemma {:induction false} BlocksAreAligned(t: Tree)
    requires AllSized(t) && Blocks(t).Ok?
    ensures |Blocks(t).value| % BLOCK == 0
    decreases |t|
  {
    hide IsRepresentable, IsSized, EntryBytes, PaddingLength;
    if t != [] {
      var n := |t| - 1;
      BlocksAreAligned(t[..n]);
      BlocksStep(t, n);
      assert t[..n + 1] == t;
      LastIsAligned(t[n]);
      AddAligned(|Blocks(t[..n]).value|, |EntryBytes(t[n].path, t[n].data)|);
    }
  }

  lemma LastIsAligned(item: Item)
    requires IsRepresentable(item.path) && IsSized(item.data)
    ensures SplitPath(item.path).Some? && |EntryBytes(item.path, item.data)| % BLOCK == 0
  {
    hide IsSized, EntryBytes;
    EntryIsAligned(item.path, item.data);
  }

  /** What parsing can return at all. */
  predicate IsParsed(t: Tree) {
    Sorted(t) && |t| <= 34 && NoNul(t) && AllPaths(t)
  }

  lemma InsertIsParsed(t: Tree, path: Bytes, data: Bytes)
    requires IsParsed(t) && |t| < MAX_ARCHIVE_ENTRIES && 0 !in path && IsObjectPath(path) && !Contains(t, path)
    ensures IsParsed(Insert(t, path, data))
  {
    hide IsObjectPath, Less;
    InsertIsSorted(t, path, data);
    ContainsIsKey(t, path);
    var r := Insert(t, path, data);
    KeyCount(t);
    KeyCount(r);
    hide Insert, Contains;
    forall i | 0 <= i < |r| ensures 0 !in r[i].path && IsObjectPath(r[i].path) {
      assert r[i].path in Keys(r);
      if r[i].path != path {
        var j :| 0 <= j < |t| && t[j].path == r[i].path;
      }
    }
  }

  lemma {:induction false} ParsesOnlyPaths(rest: Bytes, zeros: nat, t: Tree)
    requires IsParsed(t) && ParseBlocks(rest, zeros, t).Some?
    ensures IsParsed(ParseBlocks(rest, zeros, t).value)
    decreases |rest|
  {
    hide ReadHeader, Insert, Contains, AllZero, PaddingLength, Drop, IsParsed;
    var header, body := rest[..BLOCK], rest[BLOCK..];
    if AllZero(header) {
      if zeros + 1 != 2 {
        ParsesOnlyPaths(body, zeros + 1, t);
      }
    } else {
      var read := ReadHeader(header).value;
      ReadHasNoNul(header);
      InsertIsParsed(t, read.0, body[..read.1]);
      ParsesOnlyPaths(Drop(body, read.1 + PaddingLength(read.1)), 0, Insert(t, read.0, body[..read.1]));
    }
  }

  /** Every accepted archive holds at most 34 sorted, distinct, normal paths. */
  lemma ParsedIsSound(archive: Bytes)
    requires Parsed(archive).Ok?
    ensures IsParsed(Parsed(archive).value)
  {
    hide ParseBlocks, Less;
    assert IsParsed([]);
    ParsesOnlyPaths(archive, 0, []);
  }

  lemma BuiltParses(all: Tree, archive: Bytes)
    requires AllSized(all) && Sorted(all) && AllUtf8(all) && NoNul(all) && |all| <= MAX_ARCHIVE_ENTRIES
    requires Blocks(all).Ok? && archive == Blocks(all).value + Repeat(0, 2 * BLOCK) && |archive| <= MAX_ARCHIVE_BYTES
    ensures Parsed(archive) == Ok(all)
  {
    hide ParseBlocks, Blocks, Joined, IsFaithful, IsUtf8, IsSized, Less;
    BlocksAreJoined(all);
    BlocksAreAligned(all);
    assert [] + all == all;
    EntriesParse(all, Repeat(0, 2 * BLOCK), []);
    TerminatorParses(all);
  }

  lemma SumsIsPlain()
    ensures IsUtf8(Sums()) && 0 !in Sums()
  {
    var p := Sums();
    hide IsUtf8;
    assert forall i | 0 <= i < |p| :: 0 < p[i] < 128;
    AsciiIsUtf8(p);
  }

  lemma WithSumsIsSorted(t: Tree, hash: Hash)
    requires Sorted(t)
    ensures Sorted(WithSums(t, hash)) && Keys(WithSums(t, hash)) == Keys(t) + {Sums()}
  {
    hide Less, SumsText;
    InsertIsSorted(t, Sums(), SumsText(t, hash));
  }

  lemma AllKeys(t: Tree, all: Tree)
    requires Keys(all) == Keys(t) + {Sums()}
    ensures AllUtf8(t) ==> AllUtf8(all)
    ensures NoNul(all) <==> NoNul(t)
  {
    SumsIsPlain();
    hide IsUtf8, Sums;
    forall i | 0 <= i < |all| ensures all[i].path == Sums() || exists j :: 0 <= j < |t| && t[j].path == all[i].path {
      assert all[i].path in Keys(all);
    }
    forall j | 0 <= j < |t| ensures exists i :: 0 <= i < |all| && all[i].path == t[j].path {
      assert t[j].path in Keys(t);
      assert t[j].path in Keys(all);
    }
  }

  /** A built archive is parsed back to exactly its entries and the checksum
      list, if and only if it has at most 34 of them and no path holds a NUL. */
  lemma ParseAfterBuild(t: Tree, hash: Hash)
    requires Sorted(t) && AllUtf8(t) && AllSized(WithSums(t, hash)) && Built(t, hash).Ok?
    ensures Parsed(Built(t, hash).value) == Ok(WithSums(t, hash))
       <==> |WithSums(t, hash)| <= 34 && NoNul(t)
  {
    var all := WithSums(t, hash);
    var archive := Built(t, hash).value;
    WithSumsIsSorted(t, hash);
    AllKeys(t, all);
    hide Parsed, Blocks, WithSums, Sorted, AllUtf8, NoNul, AllSized;
    if |all| <= MAX_ARCHIVE_ENTRIES && NoNul(t) {
      BuiltParses(all, archive);
    } else if Parsed(archive).Ok? {
      ParsedIsSound(archive);
    }
  }
}
