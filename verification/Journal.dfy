/** The hash-chained journal: recovery, torn tails and appends. */
module Journal {
  import opened Bytes
  import opened Errors
  import opened Utf8
  import opened JournalText
  import Paths

  const MAX_JOURNAL_BYTES := 64 * 1024 * 1024

  datatype Entry = Entry(sequence: nat, operation: Operation, relativePath: Bytes,
                         contentSha256: Bytes, entrySha256: Bytes)

  datatype Recovery = Recovery(entries: seq<Entry>, ignoredTruncatedTail: bool)

  /** The JSON deserializer for one line. */
  type LineParser = Bytes -> Option<Line>

  /** What a line of the program's own types can hold. */
  predicate IsPlain(line: Line) {
    && line.body.sequence <= U64_MAX && IsUtf8(line.body.relativePath) && IsUtf8(line.body.contentSha256)
    && IsUtf8(line.body.previousSha256) && IsUtf8(line.entrySha256)
  }

  /** The one law of the deserializer: it reads back what was written. It may
      accept other texts too. `JournalText.ParseLine` satisfies it. */
  ghost predicate ReadsBack(parse: LineParser) {
    forall line: Line | IsPlain(line) :: parse(PrintLine(line)) == Some(line)
  }

  lemma CanonicalReadsBack()
    ensures ReadsBack(ParseLine)
  {
    forall line: Line | IsPlain(line) ensures ParseLine(PrintLine(line)) == Some(line) {
      LineRoundTrip(line);
    }
  }

  // ----- Complete lines and the torn tail -----

  datatype Cut = Cut(lines: seq<Bytes>, tail: Bytes)

  function CutOf(bytes: Bytes): Cut {
    if bytes == [] then Cut([], [])
    else
      var cut := CutOf(bytes[..|bytes| - 1]);
      var last := bytes[|bytes| - 1];
      if last == NEWLINE then Cut(cut.lines + [cut.tail], []) else Cut(cut.lines, cut.tail + [last])
  }

  lemma {:induction false} CutTail(bytes: Bytes, s: Bytes)
    requires NoNewline(s)
    ensures CutOf(bytes + s) == Cut(CutOf(bytes).lines, CutOf(bytes).tail + s)
    decreases s
  {
    if s == [] {
      assert bytes + s == bytes && CutOf(bytes).tail + s == CutOf(bytes).tail;
    } else {
      var n := |s| - 1;
      CutTail(bytes, s[..n]);
      assert (bytes + s)[..|bytes + s| - 1] == bytes + s[..n];
      assert s[..n] + [s[n]] == s;
      assert CutOf(bytes).tail + s[..n] + [s[n]] == CutOf(bytes).tail + s;
    }
  }

  lemma CutStep(bytes: Bytes, b: byte)
    ensures CutOf(bytes + [b])
         == (if b == NEWLINE then Cut(CutOf(bytes).lines + [CutOf(bytes).tail], [])
             else Cut(CutOf(bytes).lines, CutOf(bytes).tail + [b]))
  {
    assert (bytes + [b])[..|bytes|] == bytes;
  }

  lemma CutLine(bytes: Bytes, s: Bytes)
    requires NoNewline(s) && CutOf(bytes).tail == []
    ensures CutOf(bytes + (s + [NEWLINE])) == Cut(CutOf(bytes).lines + [s], [])
  {
    hide CutOf;
    CutTail(bytes, s);
    assert bytes + (s + [NEWLINE]) == (bytes + s) + [NEWLINE];
    CutStep(bytes + s, NEWLINE);
    assert [] + s == s;
  }

  lemma {:induction false} CutPrefix(bytes: Bytes, k: nat)
    requires k <= |bytes|
    ensures CutOf(bytes[..k]).lines <= CutOf(bytes).lines
    decreases |bytes|
  {
    if k == |bytes| {
      assert bytes[..k] == bytes;
    } else {
      var init := bytes[..|bytes| - 1];
      CutPrefix(init, k);
      assert init[..k] == bytes[..k];
    }
  }

  /** `cut.tail` is what follows the last newline of `bytes`. */
  predicate CutsAtLastNewline(bytes: Bytes, cut: Cut) {
    var n := |bytes| - |cut.tail|;
    && 0 <= n && cut.tail == bytes[n..] && NoNewline(cut.tail)
    && (n > 0 ==> bytes[n - 1] == NEWLINE)
    && CutOf(bytes[..n]) == Cut(cut.lines, [])
    && |cut.lines| <= n
  }

  lemma TailGrows(bytes: Bytes, cut: Cut, b: byte)
    requires CutsAtLastNewline(bytes, cut) && b != NEWLINE
    ensures CutsAtLastNewline(bytes + [b], Cut(cut.lines, cut.tail + [b]))
  {
    var n := |bytes| - |cut.tail|;
    assert (bytes + [b])[n..] == bytes[n..] + [b];
    assert (bytes + [b])[..n] == bytes[..n];
  }

  lemma TailEnds(bytes: Bytes, cut: Cut)
    requires CutsAtLastNewline(bytes, cut)
    requires CutOf(bytes + [NEWLINE]) == Cut(cut.lines + [cut.tail], [])
    ensures CutsAtLastNewline(bytes + [NEWLINE], Cut(cut.lines + [cut.tail], []))
  {
    hide CutOf;
    var more := bytes + [NEWLINE];
    assert more[..|more|] == more;
  }

  lemma {:induction false} TailIsAfterLastNewline(bytes: Bytes)
    ensures CutsAtLastNewline(bytes, CutOf(bytes))
  {
    if bytes == [] {
    } else {
      hide CutOf, CutsAtLastNewline;
      var init, b := bytes[..|bytes| - 1], bytes[|bytes| - 1];
      TailIsAfterLastNewline(init);
      assert bytes == init + [b];
      CutStep(init, b);
      if b == NEWLINE {
        TailEnds(init, CutOf(init));
      } else {
        TailGrows(init, CutOf(init), b);
      }
    }
  }

  function Repaired(bytes: Bytes): Bytes
  {
    TailIsAfterLastNewline(bytes);
    bytes[..|bytes| - |CutOf(bytes).tail|]
  }

  lemma RepairedIsPrefix(bytes: Bytes)
    ensures Repaired(bytes) <= bytes
  {
    TailIsAfterLastNewline(bytes);
  }

  /** Where a torn tail is cut off: just after the last newline. */
  method ValidLength(bytes: Bytes) returns (length: nat)
    ensures length == |Repaired(bytes)|
  {
    TailIsAfterLastNewline(bytes);
    ghost var n := |Repaired(bytes)|;
    forall i | n <= i < |bytes| ensures bytes[i] != NEWLINE {
      assert bytes[i] == bytes[n..][i - n];
    }
    length := |bytes|;
    while length > 0 && bytes[length - 1] != NEWLINE
      invariant n <= length <= |bytes|
    {
      length := length - 1;
    }
  }

  // ----- Recovery -----

  /** The digest the next entry must name: 64 zeros before the first. */
  function Head(entries: seq<Entry>): Bytes {
    if entries == [] then Repeat(48, 64) else entries[|entries| - 1].entrySha256
  }

  function EntryOf(line: Line): Entry {
    Entry(line.body.sequence, line.body.operation, line.body.relativePath, line.body.contentSha256, line.entrySha256)
  }

  predicate Follows(entries: seq<Entry>, line: Line, hash: Hash) {
    && line.body.sequence == |entries| + 1
    && Paths.IsJournalPath(line.body.relativePath)
    && line.body.previousSha256 == Head(entries)
    && line.entrySha256 == hash(PrintBody(line.body))
    && IsSha256(line.body.contentSha256)
  }

  function RecoverLine(entries: seq<Entry>, text: Bytes, parse: LineParser, hash: Hash): Option<seq<Entry>> {
    var line := parse(text);
    if line.Some? && Follows(entries, line.value, hash) then Some(entries + [EntryOf(line.value)]) else None
  }

  function RecoverLines(lines: seq<Bytes>, parse: LineParser, hash: Hash): Option<seq<Entry>> {
    if lines == [] then Some([])
    else
      var before := RecoverLines(lines[..|lines| - 1], parse, hash);
      if before.None? then None else RecoverLine(before.value, lines[|lines| - 1], parse, hash)
  }

  function Recovered(bytes: Bytes, parse: LineParser, hash: Hash): Result<Recovery, StoreError> {
    if |bytes| > MAX_JOURNAL_BYTES then Err(JournalInvalid)
    else
      var entries := RecoverLines(CutOf(bytes).lines, parse, hash);
      if entries.None? then Err(JournalInvalid) else Ok(Recovery(entries.value, CutOf(bytes).tail != []))
  }

  lemma {:induction false} RecoverStuck(lines: seq<Bytes>, k: nat, parse: LineParser, hash: Hash)
    requires k <= |lines| && RecoverLines(lines[..k], parse, hash) == None
    ensures RecoverLines(lines, parse, hash) == None
    decreases |lines|
  {
    if k == |lines| {
      assert lines[..k] == lines;
    } else {
      var init := lines[..|lines| - 1];
      assert init[..k] == lines[..k];
      RecoverStuck(init, k, parse, hash);
    }
  }

  lemma RecoverOneMore(lines: seq<Bytes>, text: Bytes, parse: LineParser, hash: Hash)
    requires RecoverLines(lines, parse, hash).Some?
    ensures RecoverLines(lines + [text], parse, hash)
         == RecoverLine(RecoverLines(lines, parse, hash).value, text, parse, hash)
  {
    assert (lines + [text])[..|lines|] == lines;
  }

  /** The recovery loop has consumed whole lines up to `offset`. */
  ghost predicate Consumed(bytes: Bytes, offset: nat, entries: seq<Entry>, parse: LineParser, hash: Hash) {
    && offset <= |bytes| && CutOf(bytes[..offset]).tail == [] && |entries| <= offset
    && RecoverLines(CutOf(bytes[..offset]).lines, parse, hash) == Some(entries)
  }

  lemma NextLine(bytes: Bytes, offset: nat, end: nat)
    requires offset <= end < |bytes| && bytes[end] == NEWLINE && NoNewline(bytes[offset..end])
    requires CutOf(bytes[..offset]).tail == []
    ensures CutOf(bytes[..end + 1]) == Cut(CutOf(bytes[..offset]).lines + [bytes[offset..end]], [])
  {
    hide CutOf;
    CutLine(bytes[..offset], bytes[offset..end]);
    assert bytes[..end + 1] == bytes[..offset] + (bytes[offset..end] + [NEWLINE]);
  }

  lemma ConsumedLine(bytes: Bytes, offset: nat, end: nat, entries: seq<Entry>, parse: LineParser, hash: Hash)
    requires Consumed(bytes, offset, entries, parse, hash)
    requires offset <= end < |bytes| && bytes[end] == NEWLINE && NoNewline(bytes[offset..end])
    ensures var next := RecoverLine(entries, bytes[offset..end], parse, hash);
            && (next.Some? ==> Consumed(bytes, end + 1, next.value, parse, hash))
            && (next.None? ==> RecoverLines(CutOf(bytes).lines, parse, hash) == None)
  {
    hide CutOf, RecoverLines, RecoverLine;
    var line := bytes[offset..end];
    NextLine(bytes, offset, end);
    var lines := CutOf(bytes[..offset]).lines;
    RecoverOneMore(lines, line, parse, hash);
    CutPrefix(bytes, end + 1);
    var next := RecoverLine(entries, line, parse, hash);
    if next.None? {
      var all := CutOf(bytes).lines;
      assert all[..|lines| + 1] == lines + [line];
      RecoverStuck(all, |lines| + 1, parse, hash);
    } else {
      assert |next.value| == |entries| + 1 by {
        RecoverLineAddsOne(entries, line, parse, hash);
      }
    }
  }

  lemma RecoverLineAddsOne(entries: seq<Entry>, text: Bytes, parse: LineParser, hash: Hash)
    requires RecoverLine(entries, text, parse, hash).Some?
    ensures |RecoverLine(entries, text, parse, hash).value| == |entries| + 1
  {
  }

  lemma ConsumedAll(bytes: Bytes, offset: nat, entries: seq<Entry>, parse: LineParser, hash: Hash)
    requires Consumed(bytes, offset, entries, parse, hash) && NoNewline(bytes[offset..])
    ensures RecoverLines(CutOf(bytes).lines, parse, hash) == Some(entries)
    ensures CutOf(bytes).tail == bytes[offset..]
  {
    CutTail(bytes[..offset], bytes[offset..]);
    assert bytes[..offset] + bytes[offset..] == bytes;
    assert [] + bytes[offset..] == bytes[offset..];
  }

  /** The first newline at or after `offset`. */
  method Position(bytes: Bytes, offset: nat) returns (end: Option<nat>)
    requires offset <= |bytes|
    ensures end.None? ==> NoNewline(bytes[offset..])
    ensures end.Some? ==> offset <= end.value < |bytes| && bytes[end.value] == NEWLINE
                          && NoNewline(bytes[offset..end.value])
  {
    for i := offset to |bytes|
      invariant NoNewline(bytes[offset..i])
    {
      if bytes[i] == NEWLINE {
        return Some(i);
      }
      assert bytes[offset..i + 1] == bytes[offset..i] + [bytes[i]];
    }
    assert bytes[offset..|bytes|] == bytes[offset..];
    end := None;
  }

  /** The checks on one line, given the number and digest it must carry. */
  method CheckLine(text: Bytes, expected: nat, previous: Bytes, ghost entries: seq<Entry>, parse: LineParser,
                   hash: Hash)
    returns (line: Option<Line>)
    requires expected == |entries| + 1 && previous == Head(entries)
    ensures RecoverLine(entries, text, parse, hash)
            == if line.Some? then Some(entries + [EntryOf(line.value)]) else None
  {
    hide Paths.IsJournalPath, PrintBody, Head;
    line := parse(text);
    if line.None? {
      return None;
    }
    var body := line.value.body;
    if body.sequence != expected || !Paths.IsJournalPath(body.relativePath) {
      return None;
    }
    if body.previousSha256 != previous || line.value.entrySha256 != hash(PrintBody(body))
       || !IsSha256(body.contentSha256) {
      return None;
    }
  }

  method RecoverJournal(bytes: Bytes, parse: LineParser, hash: Hash) returns (r: Result<Recovery, StoreError>)
    ensures r == Recovered(bytes, parse, hash)
  {
    if |bytes| > MAX_JOURNAL_BYTES {
      return Err(JournalInvalid);
    }
    assert MAX_JOURNAL_BYTES + 1 < U64_MAX;
    var entries: seq<Entry>, expected, ignored, offset := [], 1, false, 0;
    var previous := Repeat(48, 64);
    assert Head(entries) == previous;
    NothingToRecover(bytes, parse, hash);
    hide Consumed, CutOf, RecoverLines, RecoverLine, Recovered, Head, EntryOf, NoNewline;
    while offset < |bytes|
      invariant offset <= |bytes| <= MAX_JOURNAL_BYTES && !ignored
      invariant Consumed(bytes, offset, entries, parse, hash)
      invariant expected == |entries| + 1 && previous == Head(entries)
    {
      var position := Position(bytes, offset);
      if position.None? {
        ignored := true;
        break;
      }
      var end := position.value;
      var line := TakeLine(bytes, offset, end, expected, previous, entries, parse, hash);
      if line.None? {
        return Err(JournalInvalid);
      }
      assert expected < U64_MAX; // so the checked increment cannot overflow
      offset, expected := end + 1, expected + 1;
      entries, previous := entries + [EntryOf(line.value)], line.value.entrySha256;
    }
    if !ignored {
      NothingLeft(bytes, offset);
    }
    RecoverySucceeds(bytes, offset, entries, parse, hash);
    r := Ok(Recovery(entries, ignored));
  }

  /** One turn of the recovery loop: check a line, or settle that the journal is
      rejected. */
  method TakeLine(bytes: Bytes, offset: nat, end: nat, expected: nat, previous: Bytes, ghost entries: seq<Entry>,
                  parse: LineParser, hash: Hash)
    returns (line: Option<Line>)
    requires Consumed(bytes, offset, entries, parse, hash) && |bytes| <= MAX_JOURNAL_BYTES
    requires offset <= end < |bytes| && bytes[end] == NEWLINE && NoNewline(bytes[offset..end])
    requires expected == |entries| + 1 && previous == Head(entries)
    ensures line.None? ==> Recovered(bytes, parse, hash) == Err(JournalInvalid)
    ensures line.Some? ==>
              && Consumed(bytes, end + 1, entries + [EntryOf(line.value)], parse, hash)
              && Head(entries + [EntryOf(line.value)]) == line.value.entrySha256
    ensures expected < U64_MAX
  {
    FewEntries(bytes, offset, entries, parse, hash);
    hide *;
    ConsumedLine(bytes, offset, end, entries, parse, hash);
    line := CheckLine(bytes[offset..end], expected, previous, entries, parse, hash);
    if line.None? {
      RecoveryFails(bytes, parse, hash);
    } else {
      HeadOfMore(entries, line.value);
    }
  }

  lemma NothingLeft(bytes: Bytes, offset: nat)
    requires offset == |bytes|
    ensures NoNewline(bytes[offset..])
  {
  }

  lemma RecoveryFails(bytes: Bytes, parse: LineParser, hash: Hash)
    requires RecoverLines(CutOf(bytes).lines, parse, hash) == None
    ensures Recovered(bytes, parse, hash) == Err(JournalInvalid)
  {
    hide CutOf, RecoverLines;
  }

  lemma RecoverySucceeds(bytes: Bytes, offset: nat, entries: seq<Entry>, parse: LineParser, hash: Hash)
    requires Consumed(bytes, offset, entries, parse, hash) && offset <= |bytes| <= MAX_JOURNAL_BYTES
    requires NoNewline(bytes[offset..])
    ensures Recovered(bytes, parse, hash) == Ok(Recovery(entries, offset < |bytes|))
  {
    hide CutOf, RecoverLines, Consumed, NoNewline;
    ConsumedAll(bytes, offset, entries, parse, hash);
  }

  lemma HeadOfMore(entries: seq<Entry>, line: Line)
    ensures Head(entries + [EntryOf(line)]) == line.entrySha256
  {
  }

  lemma FewEntries(bytes: Bytes, offset: nat, entries: seq<Entry>, parse: LineParser, hash: Hash)
    requires Consumed(bytes, offset, entries, parse, hash)
    ensures |entries| <= |bytes|
  {
  }

  lemma NothingToRecover(bytes: Bytes, parse: LineParser, hash: Hash)
    ensures Consumed(bytes, 0, [], parse, hash)
  {
    assert bytes[..0] == [];
    assert CutOf([]) == Cut([], []) && RecoverLines([], parse, hash) == Some([]);
  }

  lemma EmptyJournal(parse: LineParser, hash: Hash)
    ensures Recovered([], parse, hash) == Ok(Recovery([], false)) && Repaired([]) == []
  {
  }

  // ----- Appending -----

  function NextSequence(entries: seq<Entry>): nat {
    if entries == [] then 1 else entries[|entries| - 1].sequence + 1
  }

  function BodyFor(entries: seq<Entry>, operation: Operation, path: Bytes, content: Bytes, hash: Hash): Body {
    Body(NextSequence(entries), operation, path, hash(content), Head(entries))
  }

  function LineFor(entries: seq<Entry>, operation: Operation, path: Bytes, content: Bytes, hash: Hash): Line {
    var body := BodyFor(entries, operation, path, content, hash);
    Line(body, hash(PrintBody(body)))
  }

  function EntryFor(entries: seq<Entry>, operation: Operation, path: Bytes, content: Bytes, hash: Hash): Entry {
    EntryOf(LineFor(entries, operation, path, content, hash))
  }

  /** `journal_line`: the octets that record one operation after `entries`. */
  function JournalLine(entries: seq<Entry>, operation: Operation, path: Bytes, content: Bytes, hash: Hash): Bytes {
    PrintLine(LineFor(entries, operation, path, content, hash)) + [NEWLINE]
  }

  lemma DigestIsUtf8(d: Digest)
    ensures IsUtf8(d)
  {
    AsciiIsUtf8(d);
  }

  /** Recovered entries are numbered from one and never overflow a `u64`. */
  lemma {:induction false} Numbered(lines: seq<Bytes>, parse: LineParser, hash: Hash)
    requires RecoverLines(lines, parse, hash).Some?
    ensures var entries := RecoverLines(lines, parse, hash).value;
            |entries| == |lines| && forall i | 0 <= i < |entries| :: entries[i].sequence == i + 1
    decreases |lines|
  {
    if lines != [] {
      Numbered(lines[..|lines| - 1], parse, hash);
    }
  }

  lemma RecoveredIsSmall(bytes: Bytes, parse: LineParser, hash: Hash)
    requires Recovered(bytes, parse, hash).Ok?
    ensures var entries := Recovered(bytes, parse, hash).value.entries;
            |entries| <= MAX_JOURNAL_BYTES && NextSequence(entries) == |entries| + 1
  {
    TailIsAfterLastNewline(bytes);
    Numbered(CutOf(bytes).lines, parse, hash);
  }

  predicate HasDigestHead(entries: seq<Entry>) {
    IsSha256(Head(entries))
  }

  lemma {:induction false} HeadIsDigest(lines: seq<Bytes>, parse: LineParser, hash: Hash)
    requires RecoverLines(lines, parse, hash).Some?
    ensures HasDigestHead(RecoverLines(lines, parse, hash).value)
    decreases |lines|
  {
  }

  /** The line written after recovery is the next line recovery will accept. */
  lemma OwnLineFollows(bytes: Bytes, operation: Operation, path: Bytes, content: Bytes, parse: LineParser, hash: Hash)
    requires Recovered(bytes, parse, hash).Ok? && ReadsBack(parse)
    requires Paths.IsJournalPath(path) && IsUtf8(path)
    ensures var entries := Recovered(bytes, parse, hash).value.entries;
            RecoverLine(entries, PrintLine(LineFor(entries, operation, path, content, hash)), parse, hash)
            == Some(entries + [EntryFor(entries, operation, path, content, hash)])
  {
    var entries := Recovered(bytes, parse, hash).value.entries;
    RecoveredIsSmall(bytes, parse, hash);
    HeadIsDigest(CutOf(bytes).lines, parse, hash);
    hide CutOf, RecoverLines, Paths.IsJournalPath, IsUtf8, PrintBody, PrintLine;
    var line := LineFor(entries, operation, path, content, hash);
    DigestIsUtf8(line.body.contentSha256);
    DigestIsUtf8(line.entrySha256);
    var head: Digest := Head(entries);
    DigestIsUtf8(head);
    assert IsPlain(line);
  }

  lemma RepairedIsWhole(bytes: Bytes, parse: LineParser, hash: Hash)
    requires Recovered(bytes, parse, hash).Ok?
    ensures Recovered(Repaired(bytes), parse, hash) == Ok(Recovery(Recovered(bytes, parse, hash).value.entries, false))
    ensures CutOf(Repaired(bytes)).tail == []
  {
    TailIsAfterLastNewline(bytes);
  }

  /** Appending one whole line to whole lines. */
  lemma WholeLine(base: Bytes, text: Bytes, parse: LineParser, hash: Hash)
    requires Recovered(base, parse, hash).Ok? && CutOf(base).tail == [] && NoNewline(text)
    requires RecoverLine(Recovered(base, parse, hash).value.entries, text, parse, hash).Some?
    requires |base| + |text| + 1 <= MAX_JOURNAL_BYTES
    ensures Recovered(base + (text + [NEWLINE]), parse, hash)
         == Ok(Recovery(RecoverLine(Recovered(base, parse, hash).value.entries, text, parse, hash).value, false))
  {
    hide CutOf, RecoverLines, RecoverLine;
    CutLine(base, text);
    RecoverOneMore(CutOf(base).lines, text, parse, hash);
  }

  /** Appending part of a line to whole lines. */
  lemma PartLine(base: Bytes, part: Bytes, parse: LineParser, hash: Hash)
    requires Recovered(base, parse, hash).Ok? && CutOf(base).tail == [] && NoNewline(part)
    requires |base| + |part| <= MAX_JOURNAL_BYTES
    ensures Recovered(base + part, parse, hash)
         == Ok(Recovery(Recovered(base, parse, hash).value.entries, part != []))
  {
    hide RecoverLines;
    CutTail(base, part);
    assert [] + part == part;
  }

  /** A crash after `p` octets of an append loses nothing and invents nothing:
      recovery sees the old entries, or all of them and the new one, and flags a
      torn tail exactly when part of the line was written. */
  lemma AppendIsAtomic(bytes: Bytes, operation: Operation, path: Bytes, content: Bytes, p: nat,
                       parse: LineParser, hash: Hash)
    requires Recovered(bytes, parse, hash).Ok? && ReadsBack(parse)
    requires Paths.IsJournalPath(path) && IsUtf8(path)
    requires p <= |JournalLine(Recovered(bytes, parse, hash).value.entries, operation, path, content, hash)|
    requires |Repaired(bytes)| + p <= MAX_JOURNAL_BYTES
    ensures var entries := Recovered(bytes, parse, hash).value.entries;
            var line := JournalLine(entries, operation, path, content, hash);
            Recovered(Repaired(bytes) + line[..p], parse, hash)
            == Ok(if p == |line| then Recovery(entries + [EntryFor(entries, operation, path, content, hash)], false)
                  else Recovery(entries, p > 0))
  {
    var entries := Recovered(bytes, parse, hash).value.entries;
    OwnLineFollows(bytes, operation, path, content, parse, hash);
    RepairedIsWhole(bytes, parse, hash);
    var base := Repaired(bytes);
    var text := PrintLine(LineFor(entries, operation, path, content, hash));
    LineHasNoNewline(LineFor(entries, operation, path, content, hash));
    hide Recovered, Repaired, RecoverLine, PrintLine, CutOf, LineFor, EntryFor, Paths.IsJournalPath, IsUtf8;
    if p == |text| + 1 {
      assert (text + [NEWLINE])[..p] == text + [NEWLINE];
      WholeLine(base, text, parse, hash);
    } else {
      assert (text + [NEWLINE])[..p] == text[..p];
      PartLine(base, text[..p], parse, hash);
    }
  }

  /** The journal after a completed append, or why there was none. */
  function Appended(bytes: Bytes, operation: Operation, path: Bytes, content: Bytes, parse: LineParser, hash: Hash)
    : Result<Bytes, StoreError>
  {
    if !Paths.IsJournalPath(path) then Err(JournalInvalid)
    else
      var recovery := Recovered(bytes, parse, hash);
      if recovery.Err? then Err(recovery.error)
      else Ok(Repaired(bytes) + JournalLine(recovery.value.entries, operation, path, content, hash))
  }

  /** A completed append drops any torn tail and adds exactly one entry, and
      the journal stays recoverable exactly when it stays within the recovery
      bound, which the append itself never checks. */
  lemma AppendRepairs(bytes: Bytes, operation: Operation, path: Bytes, content: Bytes, parse: LineParser, hash: Hash)
    requires Appended(bytes, operation, path, content, parse, hash).Ok? && ReadsBack(parse) && IsUtf8(path)
    ensures var entries := Recovered(bytes, parse, hash).value.entries;
            var after := Appended(bytes, operation, path, content, parse, hash).value;
            && (Recovered(after, parse, hash).Ok? <==> |after| <= MAX_JOURNAL_BYTES)
            && (|after| <= MAX_JOURNAL_BYTES ==>
                Recovered(after, parse, hash)
                == Ok(Recovery(entries + [EntryFor(entries, operation, path, content, hash)], false)))
  {
    var entries := Recovered(bytes, parse, hash).value.entries;
    var line := JournalLine(entries, operation, path, content, hash);
    if |Repaired(bytes)| + |line| <= MAX_JOURNAL_BYTES {
      AppendIsAtomic(bytes, operation, path, content, |line|, parse, hash);
      assert line[..|line|] == line;
    }
  }

  /** The journal after `n` more appends of the same operation, as long as they
      are not refused. */
  function AfterAppends(bytes: Bytes, n: nat, operation: Operation, path: Bytes, content: Bytes, parse: LineParser,
                        hash: Hash): Bytes
    decreases n
  {
    if n == 0 then bytes
    else
      var next := Appended(bytes, operation, path, content, parse, hash);
      if next.Err? then bytes else AfterAppends(next.value, n - 1, operation, path, content, parse, hash)
  }

  lemma AppendGrows(bytes: Bytes, operation: Operation, path: Bytes, content: Bytes, parse: LineParser, hash: Hash)
    requires Recovered(bytes, parse, hash).Ok? && Paths.IsJournalPath(path)
    ensures Appended(bytes, operation, path, content, parse, hash).Ok?
    ensures |Repaired(bytes)| <= |bytes| <= MAX_JOURNAL_BYTES
    ensures var after := Appended(bytes, operation, path, content, parse, hash).value;
            Recovered(after, parse, hash).Ok? && ReadsBack(parse) && IsUtf8(path) ==>
              |Repaired(after)| > |Repaired(bytes)|
  {
    RepairedIsPrefix(bytes);
    var after := Appended(bytes, operation, path, content, parse, hash).value;
    if Recovered(after, parse, hash).Ok? && ReadsBack(parse) && IsUtf8(path) {
      AppendRepairs(bytes, operation, path, content, parse, hash);
      var line := JournalLine(Recovered(bytes, parse, hash).value.entries, operation, path, content, hash);
      assert |after| == |Repaired(bytes)| + |line|;
    }
  }

  /** And every recoverable journal does get there: after enough appends comes
      one that succeeds and leaves a journal that recovery rejects for good. */
  lemma {:induction false} SomeAppendBreaks(bytes: Bytes, operation: Operation, path: Bytes, content: Bytes,
                                            parse: LineParser, hash: Hash)
    returns (n: nat)
    requires Recovered(bytes, parse, hash).Ok? && ReadsBack(parse) && Paths.IsJournalPath(path) && IsUtf8(path)
    ensures var last := AfterAppends(bytes, n, operation, path, content, parse, hash);
            && Recovered(last, parse, hash).Ok?
            && Appended(last, operation, path, content, parse, hash).Ok?
            && Recovered(Appended(last, operation, path, content, parse, hash).value, parse, hash)
                == Err(JournalInvalid)
    decreases MAX_JOURNAL_BYTES - |Repaired(bytes)|
  {
    hide Appended, Repaired, Recovered, ReadsBack, Paths.IsJournalPath, IsUtf8;
    AppendGrows(bytes, operation, path, content, parse, hash);
    var next := Appended(bytes, operation, path, content, parse, hash).value;
    if Recovered(next, parse, hash).Ok? {
      AppendGrows(next, operation, path, content, parse, hash);
      var m := SomeAppendBreaks(next, operation, path, content, parse, hash);
      n := m + 1;
    } else {
      RejectedIsInvalid(next, parse, hash);
      n := 0;
    }
  }

  lemma RejectedIsInvalid(bytes: Bytes, parse: LineParser, hash: Hash)
    ensures Recovered(bytes, parse, hash).Err? ==> Recovered(bytes, parse, hash) == Err(JournalInvalid)
  {
  }

  // ----- History -----

  /** The body text that entry `i` must have hashed to. */
  function BodyText(entries: seq<Entry>, i: nat): Bytes
    requires i < |entries|
  {
    PrintBody(Body(i + 1, entries[i].operation, entries[i].relativePath, entries[i].contentSha256, Head(entries[..i])))
  }

  /** Numbered from one, chained from 64 zeros, every digest right. */
  predicate IsChained(entries: seq<Entry>, hash: Hash) {
    forall i | 0 <= i < |entries| ::
      && entries[i].sequence == i + 1
      && Paths.IsJournalPath(entries[i].relativePath)
      && IsSha256(entries[i].contentSha256)
      && entries[i].entrySha256 == hash(BodyText(entries, i))
  }

  lemma ChainGrows(entries: seq<Entry>, line: Line, hash: Hash)
    requires IsChained(entries, hash) && Follows(entries, line, hash)
    ensures IsChained(entries + [EntryOf(line)], hash)
  {
    hide PrintBody, Head, Paths.IsJournalPath;
    var more := entries + [EntryOf(line)];
    forall i | 0 <= i < |more|
      ensures more[i].sequence == i + 1 && Paths.IsJournalPath(more[i].relativePath)
      ensures IsSha256(more[i].contentSha256) && more[i].entrySha256 == hash(BodyText(more, i))
    {
      if i < |entries| {
        assert more[..i] == entries[..i];
        assert BodyText(more, i) == BodyText(entries, i);
      } else {
        assert more[..i] == entries;
        assert BodyText(more, i) == PrintBody(line.body);
      }
    }
  }

  lemma {:induction false} LinesAreChained(lines: seq<Bytes>, parse: LineParser, hash: Hash)
    requires RecoverLines(lines, parse, hash).Some?
    ensures IsChained(RecoverLines(lines, parse, hash).value, hash)
    decreases |lines|
  {
    if lines != [] {
      var init := lines[..|lines| - 1];
      LinesAreChained(init, parse, hash);
      var line := parse(lines[|lines| - 1]).value;
      hide IsChained;
      ChainGrows(RecoverLines(init, parse, hash).value, line, hash);
    }
  }

  lemma RecoveredIsChained(bytes: Bytes, parse: LineParser, hash: Hash)
    requires Recovered(bytes, parse, hash).Ok?
    ensures IsChained(Recovered(bytes, parse, hash).value.entries, hash)
  {
    LinesAreChained(CutOf(bytes).lines, parse, hash);
  }

  /** Two different texts with one digest, one from each history. */
  ghost predicate Collides(a: seq<Entry>, b: seq<Entry>, i: nat, j: nat, hash: Hash) {
    i < |a| && j < |b| && BodyText(a, i) != BodyText(b, j) && hash(BodyText(a, i)) == hash(BodyText(b, j))
  }

  /** The last entry's digest fixes the whole history: two chains with one head
      are the same list, or they exhibit a collision of the hash. */
  lemma {:induction false} HeadDeterminesHistory(a: seq<Entry>, b: seq<Entry>, hash: Hash)
    returns (i: nat, j: nat)
    requires IsChained(a, hash) && IsChained(b, hash) && a != [] && b != []
    requires Head(a) == Head(b)
    ensures a == b || Collides(a, b, i, j, hash)
    decreases |a|
  {
    hide IsChained, BodyText, Head;
    i, j := |a| - 1, |b| - 1;
    LastOfChain(a, hash);
    LastOfChain(b, hash);
    if BodyText(a, i) == BodyText(b, j) {
      BodyOfText(a, i, b, j);
      assert a == a[..i] + [a[i]] && b == b[..j] + [b[j]];
      if i > 0 {
        ChainShrinks(a, hash);
        ChainShrinks(b, hash);
        var k, l := HeadDeterminesHistory(a[..i], b[..j], hash);
        if a[..i] != b[..j] {
          TextOfPrefix(a, i, k);
          TextOfPrefix(b, j, l);
          i, j := k, l;
        }
      }
    }
  }

  lemma LastOfChain(a: seq<Entry>, hash: Hash)
    requires IsChained(a, hash) && a != []
    ensures a[|a| - 1].sequence == |a| && a[|a| - 1].entrySha256 == Head(a) == hash(BodyText(a, |a| - 1))
  {
  }

  lemma BodyOfText(a: seq<Entry>, i: nat, b: seq<Entry>, j: nat)
    requires i < |a| && j < |b| && BodyText(a, i) == BodyText(b, j)
    ensures i == j && Head(a[..i]) == Head(b[..j])
    ensures a[i].operation == b[j].operation && a[i].relativePath == b[j].relativePath
    ensures a[i].contentSha256 == b[j].contentSha256
  {
    BodyTextIsInjective(
      Body(i + 1, a[i].operation, a[i].relativePath, a[i].contentSha256, Head(a[..i])),
      Body(j + 1, b[j].operation, b[j].relativePath, b[j].contentSha256, Head(b[..j])));
  }

  lemma TextOfPrefix(a: seq<Entry>, n: nat, k: nat)
    requires k < n <= |a|
    ensures BodyText(a[..n], k) == BodyText(a, k)
  {
    assert a[..n][..k] == a[..k];
  }

  lemma ChainShrinks(a: seq<Entry>, hash: Hash)
    requires IsChained(a, hash) && a != []
    ensures IsChained(a[..|a| - 1], hash)
  {
    var n := |a| - 1;
    forall k | 0 <= k < n ensures BodyText(a[..n], k) == BodyText(a, k) {
      TextOfPrefix(a, n, k);
    }
  }

  /** The same for two journals as they lie on disk. */
  lemma JournalHeadDeterminesHistory(x: Bytes, y: Bytes, parse: LineParser, hash: Hash) returns (i: nat, j: nat)
    requires Recovered(x, parse, hash).Ok? && Recovered(y, parse, hash).Ok?
    requires Recovered(x, parse, hash).value.entries != [] && Recovered(y, parse, hash).value.entries != []
    requires Head(Recovered(x, parse, hash).value.entries) == Head(Recovered(y, parse, hash).value.entries)
    ensures var a, b := Recovered(x, parse, hash).value.entries, Recovered(y, parse, hash).value.entries;
            a == b || Collides(a, b, i, j, hash)
  {
    RecoveredIsChained(x, parse, hash);
    RecoveredIsChained(y, parse, hash);
    hide IsChained, Recovered;
    i, j := HeadDeterminesHistory(Recovered(x, parse, hash).value.entries, Recovered(y, parse, hash).value.entries,
                                  hash);
  }
}
