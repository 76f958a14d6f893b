/** An ordered map from paths to octets: the entries sorted by path, which is
    the order in which a `BTreeMap<String, Vec<u8>>` is walked. */
module Tree {
  import opened Bytes

  datatype Item = Item(path: Bytes, data: Bytes)

  type Tree = seq<Item>

  /** The bytewise order of Rust strings. */
  predicate Less(a: Bytes, b: Bytes)
    decreases a
  {
    b != [] && (a == [] || a[0] < b[0] || (a[0] == b[0] && Less(a[1..], b[1..])))
  }

  lemma {:induction false} LessIsTotal(a: Bytes, b: Bytes)
    ensures a != b ==> Less(a, b) || Less(b, a)
    decreases a
  {
    if a != [] && b != [] && a[0] == b[0] {
      LessIsTotal(a[1..], b[1..]);
      if a[1..] == b[1..] {
        assert a == [a[0]] + a[1..] && b == [b[0]] + b[1..];
      }
    }
  }

  lemma {:induction false} LessIsStrict(a: Bytes, b: Bytes)
    requires Less(a, b)
    ensures a != b && !Less(b, a)
    decreases a
  {
    if a != [] && a[0] == b[0] {
      LessIsStrict(a[1..], b[1..]);
    }
  }

  lemma {:induction false} LessIsTransitive(a: Bytes, b: Bytes, c: Bytes)
    requires Less(a, b) && Less(b, c)
    ensures Less(a, c)
    decreases a
  {
    if a != [] && a[0] == b[0] && b[0] == c[0] {
      LessIsTransitive(a[1..], b[1..], c[1..]);
    }
  }

  predicate Sorted(t: Tree) {
    forall i, j | 0 <= i < j < |t| :: Less(t[i].path, t[j].path)
  }

  /** Every key of `t` comes before `path`. */
  predicate AllBefore(t: Tree, path: Bytes) {
    forall i | 0 <= i < |t| :: Less(t[i].path, path)
  }

  predicate AllAfter(t: Tree, path: Bytes) {
    forall i | 0 <= i < |t| :: Less(path, t[i].path)
  }

  function Get(t: Tree, path: Bytes): Option<Bytes> {
    if t == [] then None else if t[0].path == path then Some(t[0].data) else Get(t[1..], path)
  }

  predicate Contains(t: Tree, path: Bytes) {
    Get(t, path).Some?
  }

  function Insert(t: Tree, path: Bytes, data: Bytes): Tree {
    if t == [] then [Item(path, data)]
    else if t[0].path == path then [Item(path, data)] + t[1..]
    else if Less(path, t[0].path) then [Item(path, data)] + t
    else [t[0]] + Insert(t[1..], path, data)
  }

  function Keys(t: Tree): set<Bytes> {
    set i | 0 <= i < |t| :: t[i].path
  }

  lemma {:induction false} ContainsIsKey(t: Tree, path: Bytes)
    ensures Contains(t, path) <==> path in Keys(t)
    ensures Contains(t, path) ==> exists i :: 0 <= i < |t| && t[i] == Item(path, Get(t, path).value)
    decreases t
  {
    if t != [] && t[0].path != path {
      ContainsIsKey(t[1..], path);
      assert Keys(t) == {t[0].path} + Keys(t[1..]) by { KeysStep(t); }
      if Contains(t[1..], path) {
        var i :| 0 <= i < |t| - 1 && t[1..][i] == Item(path, Get(t, path).value);
        assert t[i + 1] == Item(path, Get(t, path).value);
      }
    } else if t != [] {
      assert t[0].path in Keys(t);
    }
  }

  lemma KeysStep(t: Tree)
    requires t != []
    ensures Keys(t) == {t[0].path} + Keys(t[1..])
  {
    forall p | p in Keys(t) ensures p in {t[0].path} + Keys(t[1..]) {
      var i :| 0 <= i < |t| && t[i].path == p;
      if i > 0 {
        assert t[1..][i - 1].path == p;
      }
    }
    forall p | p in Keys(t[1..]) ensures p in Keys(t) {
      var i :| 0 <= i < |t| - 1 && t[1..][i].path == p;
      assert t[i + 1].path == p;
    }
  }

  lemma HeadBeforeRest(t: Tree)
    requires Sorted(t) && t != []
    ensures Sorted(t[1..]) && AllAfter(t[1..], t[0].path)
  {
  }

  lemma Prepended(item: Item, t: Tree)
    requires Sorted(t) && AllAfter(t, item.path)
    ensures Sorted([item] + t)
  {
  }

  lemma AfterHead(t: Tree, path: Bytes)
    requires Sorted(t) && t != [] && Less(path, t[0].path)
    ensures AllAfter(t, path)
  {
    forall i | 0 <= i < |t| ensures Less(path, t[i].path) {
      if i > 0 {
        LessIsTransitive(path, t[0].path, t[i].path);
      }
    }
  }

  /** Insertion keeps the order and changes exactly one key. */
  lemma {:induction false} InsertIsSorted(t: Tree, path: Bytes, data: Bytes)
    requires Sorted(t)
    ensures Sorted(Insert(t, path, data)) && Keys(Insert(t, path, data)) == Keys(t) + {path}
    decreases t
  {
    hide Less;
    var r := Insert(t, path, data);
    if t == [] {
      assert r[0].path == path;
    } else if t[0].path == path {
      HeadBeforeRest(t);
      Prepended(Item(path, data), t[1..]);
      KeysStep(t);
      KeysStep(r);
    } else if Less(path, t[0].path) {
      AfterHead(t, path);
      Prepended(Item(path, data), t);
      KeysStep(r);
    } else {
      LessIsTotal(t[0].path, path);
      HeadBeforeRest(t);
      InsertIsSorted(t[1..], path, data);
      InsertAfter(t[1..], path, data, t[0].path);
      Prepended(t[0], Insert(t[1..], path, data));
      KeysStep(t);
      KeysStep(r);
    }
  }

  lemma {:induction false} InsertAfter(t: Tree, path: Bytes, data: Bytes, first: Bytes)
    requires AllAfter(t, first) && Less(first, path)
    ensures AllAfter(Insert(t, path, data), first)
    decreases t
  {
    hide Less;
    if t != [] && t[0].path != path && !Less(path, t[0].path) {
      InsertAfter(t[1..], path, data, first);
    }
  }

  lemma {:induction false} GetInsert(t: Tree, path: Bytes, data: Bytes, other: Bytes)
    ensures Get(Insert(t, path, data), other) == if other == path then Some(data) else Get(t, other)
    decreases t
  {
    hide Less;
    if t != [] {
      GetInsert(t[1..], path, data, other);
    }
  }

  lemma GetAt(t: Tree, i: nat)
    requires Sorted(t) && i < |t|
    ensures Get(t, t[i].path) == Some(t[i].data)
    decreases i
  {
    if i > 0 {
      LessIsStrict(t[0].path, t[i].path);
      hide Less;
      HeadBeforeRest(t);
      GetAt(t[1..], i - 1);
      assert t[1..][i - 1] == t[i];
    }
  }

  /** A key past all others goes to the end. */
  lemma {:induction false} InsertLast(t: Tree, path: Bytes, data: Bytes)
    requires AllBefore(t, path)
    ensures Insert(t, path, data) == t + [Item(path, data)] && !Contains(t, path)
    decreases t
  {
    if t != [] {
      LessIsStrict(t[0].path, path);
      hide Less;
      InsertLast(t[1..], path, data);
      assert t == [t[0]] + t[1..];
    }
  }

  /** Keys are distinct, so they are counted by the entries. */
  lemma {:induction false} KeyCount(t: Tree)
    requires Sorted(t)
    ensures |Keys(t)| == |t|
    decreases t
  {
    if t == [] {
      assert Keys(t) == {};
    } else {
      HeadBeforeRest(t);
      KeyCount(t[1..]);
      KeysStep(t);
      assert t[0].path !in Keys(t[1..]) by {
        if t[0].path in Keys(t[1..]) {
          var i :| 0 <= i < |t| - 1 && t[1..][i].path == t[0].path;
          LessIsStrict(t[0].path, t[1..][i].path);
        }
      }
    }
  }
}
