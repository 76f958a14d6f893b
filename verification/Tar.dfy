/** Building and parsing whole archives. */
module Tar {
  import opened Bytes
  import opened Errors
  import opened Paths
  import opened Tree
  import opened Ustar

  const MAX_ARCHIVE_BYTES := 512 * 1024 * 1024
  const MAX_ARCHIVE_ENTRIES := 34

  function Sums(): Bytes { Ascii("SHA256SUMS") }

  // ----- Building -----

  function PaddingLength(size: nat): (n: nat)
    ensures n < BLOCK && (size + n) % BLOCK == 0
  {
    (BLOCK - size % BLOCK) % BLOCK
  }

  function Padded(data: Bytes): (r: Bytes)
    ensures |r| == |data| + PaddingLength(|data|)
  {
    data + Repeat(0, PaddingLength(|data|))
  }

  /** `write_octal` panics on a size of 8^11 octets or more. */
  predicate IsSized(data: Bytes) {
    |data| < Eights(11)
  }

  predicate IsRepresentable(path: Bytes) {
    IsObjectPath(path) && SplitPath(path).Some?
  }

  lemma SplitFits(path: Bytes, data: Bytes)
    requires SplitPath(path).Some? && IsSized(data)
    ensures Ustar.Fits(SplitPath(path).value, |data|)
  {
    hide Eights;
  }

  function EntryBytes(path: Bytes, data: Bytes): (r: Bytes)
    requires SplitPath(path).Some? && IsSized(data)
    ensures |r| == BLOCK + |data| + PaddingLength(|data|)
  {
    SplitFits(path, data);
    Header(SplitPath(path).value, |data|) + Padded(data)
  }

  method AppendTarEntry(archive: Bytes, path: Bytes, data: Bytes) returns (r: Result<Bytes, StoreError>)
    requires IsSized(data)
    ensures r == if IsRepresentable(path) then Ok(archive + EntryBytes(path, data)) else Err(ArchiveInvalid)
  {
    if !IsObjectPath(path) {
      return Err(ArchiveInvalid);
    }
    hide SplitPath, Header, Eights, PaddingLength, IsObjectPath, Ustar.Fits;
    var parts := SplitName(path);
    if parts.None? {
      return Err(ArchiveInvalid);
    }
    SplitFits(path, data);
    var header := WriteHeader(parts.value, |data|);
    var padding: Bytes := Repeat(0, PaddingLength(|data|));
    Assoc(archive + header, data, padding);
    Assoc(archive, header, data + padding);
    r := Ok(archive + header + data + padding);
  }

  /** Name and prefix, split at the last '/' when the path is long. */
  method SplitName(path: Bytes) returns (r: Option<Parts>)
    ensures r == SplitPath(path)
  {
    if |path| > 255 {
      return None;
    }
    var name, prefix := path, [];
    if |path| > 100 {
      var slash := FindLastSlash(path);
      if slash.None? {
        return None;
      }
      name, prefix := path[slash.value + 1..], path[..slash.value];
    }
    if |name| > 100 || |prefix| > 155 {
      return None;
    }
    r := Some(Parts(name, prefix));
  }

  method FindLastSlash(path: Bytes) returns (r: Option<nat>)
    ensures r == LastSlash(path)
  {
    assert path[..|path|] == path;
    var i := |path|;
    while i > 0
      invariant 0 <= i <= |path| && LastSlash(path) == LastSlash(path[..i])
    {
      assert path[..i][..i - 1] == path[..i - 1];
      if path[i - 1] == SLASH {
        return Some(i - 1);
      }
      i := i - 1;
    }
    r := None;
  }

  function SumsLine(item: Item, hash: Hash): Bytes {
    hash(item.data) + (Ascii("  ") + (item.path + [10]))
  }

  /** The text of `SHA256SUMS`: one line per entry, in order. */
  function SumsText(t: Tree, hash: Hash): Bytes {
    if t == [] then [] else SumsText(t[..|t| - 1], hash) + SumsLine(t[|t| - 1], hash)
  }

  function WithSums(t: Tree, hash: Hash): Tree {
    Insert(t, Sums(), SumsText(t, hash))
  }

  predicate AllSized(t: Tree) {
    forall i | 0 <= i < |t| :: IsSized(t[i].data)
  }

  predicate AllPaths(t: Tree) {
    forall i | 0 <= i < |t| :: IsObjectPath(t[i].path)
  }

  function Blocks(t: Tree): Result<Bytes, StoreError>
    requires AllSized(t)
  {
    if t == [] then Ok([])
    else
      var before, last := Blocks(t[..|t| - 1]), t[|t| - 1];
      if before.Err? then before
      else if !IsRepresentable(last.path) then Err(ArchiveInvalid)
      else
        var archive := before.value + EntryBytes(last.path, last.data);
        if |archive| > MAX_ARCHIVE_BYTES then Err(Quota) else Ok(archive)
  }

  function Built(t: Tree, hash: Hash): Result<Bytes, StoreError>
    requires AllSized(WithSums(t, hash))
  {
    if !AllPaths(t) then Err(ArchiveInvalid)
    else
      var blocks := Blocks(WithSums(t, hash));
      if blocks.Err? then blocks
      else if |blocks.value| + 2 * BLOCK > MAX_ARCHIVE_BYTES then Err(Quota)
      else Ok(blocks.value + Repeat(0, 2 * BLOCK))
  }

  method BuildTar(t: Tree, hash: Hash) returns (r: Result<Bytes, StoreError>)
    requires AllSized(WithSums(t, hash))
    ensures r == Built(t, hash)
  {
    var hashes := [];
    for i := 0 to |t|
      invariant AllPaths(t[..i]) && hashes == SumsText(t[..i], hash)
    {
      if !IsObjectPath(t[i].path) {
        return Err(ArchiveInvalid);
      }
      assert t[..i + 1][..i] == t[..i] && t[..i + 1] == t[..i] + [t[i]];
      hashes := hashes + SumsLine(t[i], hash);
    }
    assert t[..|t|] == t;
    var all := Insert(t, Sums(), hashes);
    hide SumsText, Insert, IsObjectPath, EntryBytes, IsRepresentable;
    var archive: Bytes := [];
    for i := 0 to |all|
      invariant AllSized(all[..i]) && Blocks(all[..i]) == Ok(archive)
    {
      BlocksStep(all, i);
      var appended := AppendTarEntry(archive, all[i].path, all[i].data);
      if appended.Err? {
        BlocksStuck(all, i + 1);
        return Err(ArchiveInvalid);
      }
      archive := appended.value;
      if |archive| > MAX_ARCHIVE_BYTES {
        BlocksStuck(all, i + 1);
        return Err(Quota);
      }
    }
    assert all[..|all|] == all;
    if |archive| + 2 * BLOCK > MAX_ARCHIVE_BYTES {
      return Err(Quota);
    }
    r := Ok(archive + Repeat(0, 2 * BLOCK));
  }

  lemma BlocksStep(t: Tree, i: nat)
    requires AllSized(t) && i < |t|
    ensures AllSized(t[..i]) && AllSized(t[..i + 1]) && t[..i + 1][..i] == t[..i] && t[..i + 1][i] == t[i]
    ensures var before := Blocks(t[..i]);
            Blocks(t[..i + 1])
            == if before.Err? then before
               else if !IsRepresentable(t[i].path) then Err(ArchiveInvalid)
               else if |before.value + EntryBytes(t[i].path, t[i].data)| > MAX_ARCHIVE_BYTES then Err(Quota)
               else Ok(before.value + EntryBytes(t[i].path, t[i].data))
  {
    hide IsSized, IsRepresentable, EntryBytes;
    assert t[..i + 1][..i] == t[..i];
  }

  lemma {:induction false} BlocksStuck(t: Tree, k: nat)
    requires AllSized(t) && k <= |t| && AllSized(t[..k]) && Blocks(t[..k]).Err?
    ensures Blocks(t) == Blocks(t[..k])
    decreases |t|
  {
    hide IsSized, IsRepresentable, EntryBytes;
    if k == |t| {
      assert t[..k] == t;
    } else {
      var n := |t| - 1;
      assert t[..n][..k] == t[..k];
      BlocksStuck(t[..n], k);
    }
  }

  // ----- Parsing -----

  function Drop(s: Bytes, n: nat): (r: Bytes)
    ensures |r| <= |s|
  {
    if n <= |s| then s[n..] else []
  }

  /** The parse loop on what remains of the archive, having seen `zeros` zero
      blocks in a row and collected `t`. */
  function ParseBlocks(rest: Bytes, zeros: nat, t: Tree): Option<Tree>
    decreases |rest|
  {
    if |rest| < BLOCK then None
    else
      var header, body := rest[..BLOCK], rest[BLOCK..];
      if AllZero(header) then
        if zeros + 1 == 2 then if AllZero(body) then Some(t) else None
        else ParseBlocks(body, zeros + 1, t)
      else
        var read := ReadHeader(header);
        if read.None? || |t| >= MAX_ARCHIVE_ENTRIES || read.value.1 > |body| || Contains(t, read.value.0) then None
        else
          var size := read.value.1;
          ParseBlocks(Drop(body, size + PaddingLength(size)), 0, Insert(t, read.value.0, body[..size]))
  }

  function Parsed(archive: Bytes): Result<Tree, StoreError> {
    if |archive| > MAX_ARCHIVE_BYTES || |archive| % BLOCK != 0 then Err(ArchiveInvalid)
    else
      var t := ParseBlocks(archive, 0, []);
      if t.None? then Err(ArchiveInvalid) else Ok(t.value)
  }

  method ParseArchiveEntries(archive: Bytes) returns (r: Result<Tree, StoreError>)
    ensures r == Parsed(archive)
  {
    if |archive| > MAX_ARCHIVE_BYTES || |archive| % BLOCK != 0 {
      return Err(ArchiveInvalid);
    }
    var entries: Tree, offset, zeroBlocks := [], 0, 0;
    assert Drop(archive, 0) == archive;
    hide *;
    while offset + BLOCK <= |archive|
      invariant zeroBlocks < 2
      invariant ParseBlocks(Drop(archive, offset), zeroBlocks, entries) == ParseBlocks(archive, 0, [])
      decreases |archive| - offset
    {
      var outcome := ParseBlock(archive, offset, zeroBlocks, entries);
      match outcome {
        case Finished(t) => return if t.Some? then Ok(t.value) else Err(ArchiveInvalid);
        case More(o, z, t) => offset, zeroBlocks, entries := o, z, t;
      }
    }
    ParseEnds(archive, offset, zeroBlocks, entries);
    r := Err(ArchiveInvalid);
  }

  datatype Outcome = Finished(t: Option<Tree>) | More(offset: nat, zeroBlocks: nat, entries: Tree)

  function Continue(archive: Bytes, outcome: Outcome): Option<Tree> {
    match outcome
    case Finished(t) => t
    case More(offset, zeroBlocks, entries) => ParseBlocks(Drop(archive, offset), zeroBlocks, entries)
  }

  /** One turn of the loop. */
  method ParseBlock(archive: Bytes, start: nat, zeros: nat, entries: Tree) returns (r: Outcome)
    requires start + BLOCK <= |archive| && zeros < 2
    ensures ParseBlocks(Drop(archive, start), zeros, entries) == Continue(archive, r)
    ensures r.More? ==> r.offset > start && r.zeroBlocks < 2
  {
    hide ReadHeader, Insert, Contains, AllZero, Drop, ParseBlocks;
    ParseStep(archive, start, zeros, entries);
    var offset := start + BLOCK;
    var header := archive[start..offset];
    var blank := IsZero(header);
    if blank {
      if zeros + 1 == 2 {
        var clean := IsZero(archive[offset..]);
        return Finished(if clean then Some(entries) else None);
      }
      return More(offset, zeros + 1, entries);
    }
    var read := ReadHeader(header);
    if read.None? {
      return Finished(None);
    }
    var path, size := read.value.0, read.value.1;
    if |entries| >= MAX_ARCHIVE_ENTRIES || offset + size > |archive| || Contains(entries, path) {
      return Finished(None);
    }
    hide PaddingLength;
    r := More(offset + size + PaddingLength(size), 0, Insert(entries, path, archive[offset..offset + size]));
  }

  lemma ParseStep(archive: Bytes, offset: nat, zeros: nat, t: Tree)
    requires offset + BLOCK <= |archive|
    ensures var header, next := archive[offset..offset + BLOCK], offset + BLOCK;
            var read := ReadHeader(header);
            ParseBlocks(Drop(archive, offset), zeros, t)
            == if AllZero(header) then
                 if zeros + 1 == 2 then if AllZero(archive[next..]) then Some(t) else None
                 else ParseBlocks(Drop(archive, next), zeros + 1, t)
               else if read.None? || |t| >= MAX_ARCHIVE_ENTRIES || next + read.value.1 > |archive|
                   || Contains(t, read.value.0)
               then None
               else ParseBlocks(Drop(archive, next + read.value.1 + PaddingLength(read.value.1)), 0,
                                Insert(t, read.value.0, archive[next..next + read.value.1]))
  {
    hide ReadHeader, Insert, Contains, AllZero, PaddingLength;
    var rest := Drop(archive, offset);
    var next := offset + BLOCK;
    assert rest[..BLOCK] == archive[offset..next] && rest[BLOCK..] == archive[next..] == Drop(archive, next);
    var read := ReadHeader(rest[..BLOCK]);
    if read.Some? && next + read.value.1 <= |archive| {
      var size := read.value.1;
      assert archive[next..][..size] == archive[next..next + size];
      DropTwice(archive, next, size + PaddingLength(size));
    }
  }

  lemma DropTwice(s: Bytes, a: nat, b: nat)
    requires a <= |s|
    ensures Drop(s[a..], b) == Drop(s, a + b)
  {
  }

  lemma ParseEnds(archive: Bytes, offset: nat, zeros: nat, t: Tree)
    requires offset + BLOCK > |archive|
    ensures ParseBlocks(Drop(archive, offset), zeros, t) == None
  {
  }
}
