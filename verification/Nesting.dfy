/** The scan that bounds JSON nesting before any recursive parser runs. */
module Nesting {
  import opened Bytes

  const MAX_JSON_NESTING_DEPTH := 32

  datatype Scanner = Rejected | Scanning(depth: nat, inString: bool, escaped: bool)

  const OUTSIDE := Scanning(0, false, false)

  predicate Opens(b: byte) {
    b == 123 || b == 91
  }

  predicate Closes(b: byte) {
    b == 125 || b == 93
  }

  function Next(s: Scanner, b: byte): Scanner {
    if s.Rejected? then s
    else if s.inString then
      if s.escaped then s.(escaped := false)
      else if b == 92 then s.(escaped := true)
      else if b == 34 then s.(inString := false)
      else s
    else if b == 34 then s.(inString := true)
    else if Opens(b) then if s.depth + 1 > MAX_JSON_NESTING_DEPTH then Rejected else s.(depth := s.depth + 1)
    else if Closes(b) then s.(depth := if s.depth > 0 then s.depth - 1 else 0)
    else s
  }

  function Run(s: Scanner, input: Bytes): Scanner
    decreases input
  {
    if input == [] then s else Run(Next(s, input[0]), input[1..])
  }

  predicate NestingWithinLimit(input: Bytes) {
    Run(OUTSIDE, input) != Rejected
  }

  lemma {:induction false} RunRejected(input: Bytes)
    ensures Run(Rejected, input) == Rejected
  {
    if input != [] {
      RunRejected(input[1..]);
    }
  }

  method JsonNestingWithinLimit(input: Bytes) returns (r: bool)
    ensures r == NestingWithinLimit(input)
  {
    var depth: nat, inString, escaped := 0, false, false;
    assert input[0..] == input;
    for i := 0 to |input|
      invariant Run(Scanning(depth, inString, escaped), input[i..]) == Run(OUTSIDE, input)
    {
      var b := input[i];
      ghost var s := Scanning(depth, inString, escaped);
      assert input[i..][0] == b && input[i..][1..] == input[i + 1..];
      assert Run(s, input[i..]) == Run(Next(s, b), input[i + 1..]);
      if inString {
        if escaped {
          escaped := false;
        } else if b == 92 {
          escaped := true;
        } else if b == 34 {
          inString := false;
        }
        continue;
      }
      if b == 34 {
        inString := true;
      } else if Opens(b) {
        depth := depth + 1;
        if depth > MAX_JSON_NESTING_DEPTH {
          RunRejected(input[i + 1..]);
          return false;
        }
      } else if Closes(b) {
        depth := if depth > 0 then depth - 1 else 0;
      }
    }
    r := true;
  }

  lemma {:induction false} RunConcat(s: Scanner, a: Bytes, b: Bytes)
    ensures Run(s, a + b) == Run(Run(s, a), b)
    decreases a
  {
    if a == [] {
      assert a + b == b;
    } else {
      assert (a + b)[0] == a[0] && (a + b)[1..] == a[1..] + b;
      RunConcat(Next(s, a[0]), a[1..], b);
    }
  }

  // ----- JSON texts (RFC 8259) -----

  /** One character of a string: itself, or a backslash and what it escapes.
      `\u0041` is the escape of `u` followed by four plain digits. */
  datatype Piece = Plain(b: byte) | Escape(b: byte)

  /** A JSON value together with every choice its printer had. */
  datatype Json =
    | Token(text: Bytes)
    | Text(pieces: seq<Piece>)
    | Array(inner: Bytes, items: seq<Item>)
    | Object(inner: Bytes, members: seq<Member>)

  datatype Item = Item(before: Bytes, value: Json, after: Bytes)

  datatype Member = Member(before: Bytes, name: seq<Piece>, gap: Bytes, item: Item)

  predicate IsSpace(s: Bytes) {
    forall i | 0 <= i < |s| :: s[i] in {32, 9, 10, 13}
  }

  /** Numbers and the three literal names. */
  predicate IsToken(s: Bytes) {
    forall i | 0 <= i < |s| :: IsAlphanumeric(s[i]) || s[i] in {43, 45, 46}
  }

  predicate LegalPieces(pieces: seq<Piece>) {
    forall i | 0 <= i < |pieces| :: pieces[i].Plain? ==> pieces[i].b != 34 && pieces[i].b != 92
  }

  predicate Legal(v: Json)
    decreases v, 0
  {
    match v
    case Token(text) => IsToken(text)
    case Text(pieces) => LegalPieces(pieces)
    case Array(inner, items) => IsSpace(inner) && LegalItems(items)
    case Object(inner, members) => IsSpace(inner) && LegalMembers(members)
  }

  predicate LegalItem(item: Item)
    decreases item, 1
  {
    IsSpace(item.before) && Legal(item.value) && IsSpace(item.after)
  }

  predicate LegalItems(items: seq<Item>)
    decreases items, 2
  {
    items == [] || (LegalItem(items[0]) && LegalItems(items[1..]))
  }

  predicate LegalMembers(members: seq<Member>)
    decreases members, 2
  {
    members == []
    || (IsSpace(members[0].before) && LegalPieces(members[0].name) && IsSpace(members[0].gap)
        && LegalItem(members[0].item) && LegalMembers(members[1..]))
  }

  function Max(a: nat, b: nat): nat {
    if a > b then a else b
  }

  /** Nesting depth: 0 for a scalar. */
  function Depth(v: Json): nat
    decreases v, 0
  {
    match v
    case Token(_) => 0
    case Text(_) => 0
    case Array(_, items) => 1 + ItemsDepth(items)
    case Object(_, members) => 1 + MembersDepth(members)
  }

  function ItemsDepth(items: seq<Item>): nat
    decreases items, 1
  {
    if items == [] then 0 else Max(Depth(items[0].value), ItemsDepth(items[1..]))
  }

  function MembersDepth(members: seq<Member>): nat
    decreases members, 1
  {
    if members == [] then 0 else Max(Depth(members[0].item.value), MembersDepth(members[1..]))
  }

  function PrintPieces(pieces: seq<Piece>): Bytes {
    if pieces == [] then []
    else (if pieces[0].Plain? then [pieces[0].b] else [92, pieces[0].b]) + PrintPieces(pieces[1..])
  }

  function PrintText(pieces: seq<Piece>): Bytes {
    [34] + PrintPieces(pieces) + [34]
  }

  function Print(v: Json): Bytes
    decreases v, 0
  {
    match v
    case Token(text) => text
    case Text(pieces) => PrintText(pieces)
    case Array(inner, items) => [91] + inner + PrintItems(items) + [93]
    case Object(inner, members) => [123] + inner + PrintMembers(members) + [125]
  }

  function PrintItem(item: Item): Bytes
    decreases item, 1
  {
    item.before + Print(item.value) + item.after
  }

  function Comma(more: bool): Bytes {
    if more then [44] else []
  }

  function PrintItems(items: seq<Item>): Bytes
    decreases items, 2
  {
    if items == [] then [] else PrintItem(items[0]) + Comma(|items| > 1) + PrintItems(items[1..])
  }

  function PrintMember(m: Member): Bytes
    decreases m, 2
  {
    m.before + PrintText(m.name) + m.gap + [58] + PrintItem(m.item)
  }

  function PrintMembers(members: seq<Member>): Bytes
    decreases members, 3
  {
    if members == [] then [] else PrintMember(members[0]) + Comma(|members| > 1) + PrintMembers(members[1..])
  }

  // ----- Exactness on JSON texts -----

  /** The scanner outside strings at nesting `depth`. */
  function At(depth: nat): Scanner {
    Scanning(depth, false, false)
  }

  /** Where a value of nesting `deep` leaves a scanner that met it at `depth`. */
  function After(depth: nat, deep: nat): Scanner {
    if depth + deep <= MAX_JSON_NESTING_DEPTH then At(depth) else Rejected
  }

  predicate Neutral(s: Bytes) {
    forall i | 0 <= i < |s| :: s[i] != 34 && !Opens(s[i]) && !Closes(s[i])
  }

  lemma {:induction false} NeutralRun(depth: nat, s: Bytes)
    requires Neutral(s)
    ensures Run(At(depth), s) == At(depth)
    decreases s
  {
    if s != [] {
      NeutralRun(depth, s[1..]);
    }
  }

  lemma {:induction false} PiecesRun(depth: nat, pieces: seq<Piece>)
    requires LegalPieces(pieces)
    ensures Run(Scanning(depth, true, false), PrintPieces(pieces)) == Scanning(depth, true, false)
    decreases pieces
  {
    if pieces != [] {
      var s := Scanning(depth, true, false);
      var first := if pieces[0].Plain? then [pieces[0].b] else [92, pieces[0].b];
      RunConcat(s, first, PrintPieces(pieces[1..]));
      assert Run(s, first) == s by {
        if pieces[0].Escape? {
          assert first[1..] == [pieces[0].b];
          assert Run(Next(s, 92), first[1..]) == s;
        }
      }
      PiecesRun(depth, pieces[1..]);
    }
  }

  lemma TextRun(depth: nat, pieces: seq<Piece>)
    requires LegalPieces(pieces)
    ensures Run(At(depth), PrintText(pieces)) == At(depth)
  {
    var body := PrintPieces(pieces);
    RunConcat(At(depth), [34] + body, [34]);
    RunConcat(At(depth), [34], body);
    PiecesRun(depth, pieces);
    assert Run(At(depth), [34]) == Scanning(depth, true, false);
    assert Run(Scanning(depth, true, false), [34]) == At(depth);
  }

  lemma RunThree(s: Scanner, a: Bytes, b: Bytes, c: Bytes)
    ensures Run(s, a + b + c) == Run(Run(Run(s, a), b), c)
  {
    RunConcat(s, a + b, c);
    RunConcat(s, a, b);
  }

  /** An opening bracket, a body and a closing bracket. */
  lemma BracketRun(depth: nat, open: byte, body: Bytes, close: byte, deep: nat)
    requires depth <= MAX_JSON_NESTING_DEPTH && Opens(open) && Closes(close)
    requires depth < MAX_JSON_NESTING_DEPTH ==> Run(At(depth + 1), body) == After(depth + 1, deep)
    ensures Run(At(depth), [open] + body + [close]) == After(depth, 1 + deep)
  {
    RunThree(At(depth), [open], body, [close]);
    assert Run(At(depth), [open]) == Next(At(depth), open);
    assert Run(At(depth + 1), [close]) == Next(At(depth + 1), close);
    RunRejected(body);
    RunRejected([close]);
  }

  /** For every legal text the scan goes on exactly when the nesting fits. */
  lemma {:induction false} ValueRun(depth: nat, v: Json)
    requires depth <= MAX_JSON_NESTING_DEPTH && Legal(v)
    ensures Run(At(depth), Print(v)) == After(depth, Depth(v))
    decreases v, 0
  {
    match v
    case Token(text) => NeutralRun(depth, text);
    case Text(pieces) => TextRun(depth, pieces);
    case Array(inner, items) =>
      assert Print(v) == [91] + (inner + PrintItems(items)) + [93];
      ArrayRun(depth, inner, items);
    case Object(inner, members) =>
      assert Print(v) == [123] + (inner + PrintMembers(members)) + [125];
      ObjectRun(depth, inner, members);
  }

  lemma {:induction false} ArrayRun(depth: nat, inner: Bytes, items: seq<Item>)
    requires depth <= MAX_JSON_NESTING_DEPTH && IsSpace(inner) && LegalItems(items)
    ensures Run(At(depth), [91] + (inner + PrintItems(items)) + [93]) == After(depth, 1 + ItemsDepth(items))
    decreases items, 3
  {
    if depth < MAX_JSON_NESTING_DEPTH {
      RunConcat(At(depth + 1), inner, PrintItems(items));
      NeutralRun(depth + 1, inner);
      ItemsRun(depth + 1, items);
    }
    BracketRun(depth, 91, inner + PrintItems(items), 93, ItemsDepth(items));
  }

  lemma {:induction false} ObjectRun(depth: nat, inner: Bytes, members: seq<Member>)
    requires depth <= MAX_JSON_NESTING_DEPTH && IsSpace(inner) && LegalMembers(members)
    ensures Run(At(depth), [123] + (inner + PrintMembers(members)) + [125]) == After(depth, 1 + MembersDepth(members))
    decreases members, 4
  {
    if depth < MAX_JSON_NESTING_DEPTH {
      RunConcat(At(depth + 1), inner, PrintMembers(members));
      NeutralRun(depth + 1, inner);
      MembersRun(depth + 1, members);
    }
    BracketRun(depth, 123, inner + PrintMembers(members), 125, MembersDepth(members));
  }

  lemma {:induction false} ItemRun(depth: nat, item: Item)
    requires depth <= MAX_JSON_NESTING_DEPTH && LegalItem(item)
    ensures Run(At(depth), PrintItem(item)) == After(depth, Depth(item.value))
    decreases item, 1
  {
    RunThree(At(depth), item.before, Print(item.value), item.after);
    NeutralRun(depth, item.before);
    ValueRun(depth, item.value);
    NeutralRun(depth, item.after);
    RunRejected(item.after);
  }

  lemma {:induction false} ItemsRun(depth: nat, items: seq<Item>)
    requires depth <= MAX_JSON_NESTING_DEPTH && LegalItems(items)
    ensures Run(At(depth), PrintItems(items)) == After(depth, ItemsDepth(items))
    decreases items, 2
  {
    if items != [] {
      RunThree(At(depth), PrintItem(items[0]), Comma(|items| > 1), PrintItems(items[1..]));
      ItemRun(depth, items[0]);
      NeutralRun(depth, Comma(|items| > 1));
      ItemsRun(depth, items[1..]);
      RunRejected(Comma(|items| > 1));
      RunRejected(PrintItems(items[1..]));
    }
  }

  lemma {:induction false} MemberRun(depth: nat, m: Member)
    requires depth <= MAX_JSON_NESTING_DEPTH
    requires IsSpace(m.before) && LegalPieces(m.name) && IsSpace(m.gap) && LegalItem(m.item)
    ensures Run(At(depth), PrintMember(m)) == After(depth, Depth(m.item.value))
    decreases m, 2
  {
    assert PrintMember(m) == m.before + PrintText(m.name) + (m.gap + [58]) + PrintItem(m.item);
    RunConcat(At(depth), m.before + PrintText(m.name) + (m.gap + [58]), PrintItem(m.item));
    RunThree(At(depth), m.before, PrintText(m.name), m.gap + [58]);
    NeutralRun(depth, m.before);
    TextRun(depth, m.name);
    NeutralRun(depth, m.gap + [58]);
    ItemRun(depth, m.item);
  }

  lemma {:induction false} MembersRun(depth: nat, members: seq<Member>)
    requires depth <= MAX_JSON_NESTING_DEPTH && LegalMembers(members)
    ensures Run(At(depth), PrintMembers(members)) == After(depth, MembersDepth(members))
    decreases members, 3
  {
    if members != [] {
      RunThree(At(depth), PrintMember(members[0]), Comma(|members| > 1), PrintMembers(members[1..]));
      MemberRun(depth, members[0]);
      NeutralRun(depth, Comma(|members| > 1));
      MembersRun(depth, members[1..]);
      RunRejected(Comma(|members| > 1));
      RunRejected(PrintMembers(members[1..]));
    }
  }

  /** A JSON text passes the scan exactly when it nests at most 32 deep,
      whatever white space and escapes its printer chose. */
  lemma ScanIsExact(text: Item)
    requires LegalItem(text)
    ensures NestingWithinLimit(PrintItem(text)) <==> Depth(text.value) <= 32
  {
    ItemRun(0, text);
  }

  // ----- Arbitrary bytes -----

  /** A bracket-matching parser: its stack of open brackets, and where it is in
      a string. It fails on a closing bracket that does not match. */
  datatype Matcher = Failed | Matching(stack: Bytes, inString: bool, escaped: bool)

  function Match(m: Matcher, b: byte): Matcher {
    if m.Failed? then m
    else if m.inString then
      if m.escaped then m.(escaped := false)
      else if b == 92 then m.(escaped := true)
      else if b == 34 then m.(inString := false)
      else m
    else if b == 34 then m.(inString := true)
    else if Opens(b) then m.(stack := [b] + m.stack)
    else if Closes(b) then
      var top: int := if m.stack == [] then 0 else m.stack[0];
      if top + 2 == b then m.(stack := m.stack[1..]) else Failed
    else m
  }

  function MatchAll(input: Bytes): Matcher {
    if input == [] then Matching([], false, false)
    else Match(MatchAll(input[..|input| - 1]), input[|input| - 1])
  }

  lemma ScanPrefix(input: Bytes, k: nat)
    requires k <= |input| && NestingWithinLimit(input)
    ensures NestingWithinLimit(input[..k])
  {
    assert input == input[..k] + input[k..];
    RunConcat(OUTSIDE, input[..k], input[k..]);
    RunRejected(input[k..]);
  }

  lemma RunLast(input: Bytes)
    requires input != []
    ensures Run(OUTSIDE, input) == Next(Run(OUTSIDE, input[..|input| - 1]), input[|input| - 1])
  {
    var n := |input| - 1;
    assert input == input[..n] + [input[n]];
    RunConcat(OUTSIDE, input[..n], [input[n]]);
  }

  /** On accepted bytes, a parser that has not failed holds exactly as many
      open brackets as the scanner's depth, so never more than 32. */
  lemma {:induction false} StackIsDepth(input: Bytes)
    requires MatchAll(input).Matching? && NestingWithinLimit(input)
    ensures var m := MatchAll(input);
            && Run(OUTSIDE, input) == Scanning(|m.stack|, m.inString, m.escaped)
            && |m.stack| <= MAX_JSON_NESTING_DEPTH
    decreases |input|
  {
    if input != [] {
      ScanPrefix(input, |input| - 1);
      RunLast(input);
      StackIsDepth(input[..|input| - 1]);
    }
  }

  /** And the scan rejects only when some prefix does hold a 33rd. */
  lemma {:induction false} RejectedStackIsTooHigh(input: Bytes) returns (k: nat)
    requires MatchAll(input).Matching? && !NestingWithinLimit(input)
    ensures k <= |input| && MatchAll(input[..k]).Matching?
    ensures |MatchAll(input[..k]).stack| == MAX_JSON_NESTING_DEPTH + 1
    decreases |input|
  {
    var before := input[..|input| - 1];
    RunLast(input);
    if NestingWithinLimit(before) {
      StackIsDepth(before);
      k := |input|;
      assert input[..k] == input;
    } else {
      k := RejectedStackIsTooHigh(before);
      assert input[..k] == before[..k];
    }
  }
}
