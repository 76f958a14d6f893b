/** One session directory as a map from path to octets, the file-system calls
    the store makes, and what a run of calls leaves behind when the machine
    stops part-way. */
module Files {
  import opened Bytes

  datatype Disk = Disk(session: bool, captures: bool, files: map<Bytes, Bytes>)

  datatype FsOp =
    | MakeSession
    | MakeCaptures
    | Create(path: Bytes)
    | Append(path: Bytes, data: Bytes)
    | Rename(from: Bytes, to: Bytes)
    | Remove(path: Bytes)
    | SetLength(path: Bytes, length: nat)

  function Put(d: Disk, path: Bytes, content: Bytes): Disk {
    d.(files := d.files[path := content])
  }

  /** The call's whole effect; a call on a missing file has none. */
  function Apply(op: FsOp, d: Disk): Disk {
    match op
    case MakeSession => d.(session := true)
    case MakeCaptures => d.(captures := true)
    case Create(path) => Put(d, path, [])
    case Append(path, data) => if path in d.files then Put(d, path, d.files[path] + data) else d
    case Rename(from, to) => if from in d.files then d.(files := (d.files - {from})[to := d.files[from]]) else d
    case Remove(path) => d.(files := d.files - {path})
    case SetLength(path, length) =>
      if path in d.files && length <= |d.files[path]| then Put(d, path, d.files[path][..length]) else d
  }

  /** Elementary effects in a call: one per octet written, else one. */
  function Cost(op: FsOp): nat {
    if op.Append? then |op.data| else 1
  }

  function CostAll(ops: seq<FsOp>): nat {
    if ops == [] then 0 else Cost(ops[0]) + CostAll(ops[1..])
  }

  function RunAll(d: Disk, ops: seq<FsOp>): Disk
    decreases ops
  {
    if ops == [] then d else RunAll(Apply(ops[0], d), ops[1..])
  }

  /** The part of a call that `n` elementary effects make up. */
  function Part(op: FsOp, d: Disk, n: nat): Disk
    requires n < Cost(op)
  {
    if op.Append? then Apply(Append(op.path, op.data[..n]), d) else d
  }

  /** The disk after the first `n` elementary effects of `ops`: what a crash or
      an I/O error at that point leaves. A write may stop at any octet. */
  function Effects(d: Disk, ops: seq<FsOp>, n: nat): Disk
    decreases ops
  {
    if ops == [] then d
    else if n < Cost(ops[0]) then Part(ops[0], d, n)
    else Effects(Apply(ops[0], d), ops[1..], n - Cost(ops[0]))
  }

  lemma {:induction false} EffectsAll(d: Disk, ops: seq<FsOp>, n: nat)
    requires n >= CostAll(ops)
    ensures Effects(d, ops, n) == RunAll(d, ops)
    decreases ops
  {
    if ops != [] {
      EffectsAll(Apply(ops[0], d), ops[1..], n - Cost(ops[0]));
    }
  }

  lemma {:induction false} CostConcat(a: seq<FsOp>, b: seq<FsOp>)
    ensures CostAll(a + b) == CostAll(a) + CostAll(b)
    decreases a
  {
    if a == [] {
      assert a + b == b;
    } else {
      assert (a + b)[1..] == a[1..] + b;
      CostConcat(a[1..], b);
    }
  }

  lemma {:induction false} RunConcat(d: Disk, a: seq<FsOp>, b: seq<FsOp>)
    ensures RunAll(d, a + b) == RunAll(RunAll(d, a), b)
    decreases a
  {
    if a == [] {
      assert a + b == b;
    } else {
      assert (a + b)[1..] == a[1..] + b;
      RunConcat(Apply(a[0], d), a[1..], b);
    }
  }

  lemma {:induction false} EffectsConcat(d: Disk, a: seq<FsOp>, b: seq<FsOp>, n: nat)
    ensures Effects(d, a + b, n)
         == if n < CostAll(a) then Effects(d, a, n) else Effects(RunAll(d, a), b, n - CostAll(a))
    decreases a
  {
    if a == [] {
      assert a + b == b;
    } else {
      assert (a + b)[0] == a[0] && (a + b)[1..] == a[1..] + b;
      hide Apply, Part;
      if n >= Cost(a[0]) {
        EffectsConcat(Apply(a[0], d), a[1..], b, n - Cost(a[0]));
      }
    }
  }

  // ----- One elementary effect at a time -----

  /** What remains of a run after its first elementary effect. */
  function Rest(ops: seq<FsOp>): seq<FsOp>
    requires ops != []
  {
    if ops[0].Append? && |ops[0].data| > 1 then [Append(ops[0].path, ops[0].data[1..])] + ops[1..] else ops[1..]
  }

  function First(d: Disk, ops: seq<FsOp>): Disk
    requires ops != []
  {
    if ops[0].Append? && |ops[0].data| > 1 then Apply(Append(ops[0].path, ops[0].data[..1]), d) else Apply(ops[0], d)
  }

  lemma AppendTwice(d: Disk, path: Bytes, a: Bytes, b: Bytes)
    ensures Apply(Append(path, b), Apply(Append(path, a), d)) == Apply(Append(path, a + b), d)
  {
    if path in d.files {
      assert d.files[path] + a + b == d.files[path] + (a + b);
    }
  }

  /** Performing a run effect by effect passes through exactly its states. */
  lemma FirstThenRest(d: Disk, ops: seq<FsOp>, n: nat)
    requires ops != [] && Cost(ops[0]) > 0
    ensures Effects(First(d, ops), Rest(ops), n) == Effects(d, ops, n + 1)
  {
    var op := ops[0];
    if op.Append? && |op.data| > 1 {
      var rest := Append(op.path, op.data[1..]);
      assert ([rest] + ops[1..])[1..] == ops[1..];
      if n < |op.data| - 1 {
        AppendTwice(d, op.path, op.data[..1], op.data[1..][..n]);
        assert op.data[..1] + op.data[1..][..n] == op.data[..n + 1];
      } else {
        AppendTwice(d, op.path, op.data[..1], op.data[1..]);
        assert op.data[..1] + op.data[1..] == op.data;
      }
    }
  }

  lemma NoEffects(d: Disk, ops: seq<FsOp>)
    requires ops != [] && Cost(ops[0]) > 0
    ensures Effects(d, ops, 0) == d
  {
    if ops[0].Append? && ops[0].path in d.files {
      assert d.files[ops[0].path] + ops[0].data[..0] == d.files[ops[0].path];
    }
  }

  lemma {:induction false} ZeroEffects(d: Disk, ops: seq<FsOp>)
    ensures Effects(d, ops, 0) == d
    decreases ops
  {
    if ops != [] {
      if Cost(ops[0]) > 0 {
        NoEffects(d, ops);
      } else {
        EmptyAppend(d, ops[0]);
        ZeroEffects(d, ops[1..]);
      }
    }
  }

  lemma EmptyAppend(d: Disk, op: FsOp)
    requires Cost(op) == 0
    ensures Apply(op, d) == d
  {
    if op.path in d.files {
      assert d.files[op.path] + [] == d.files[op.path];
      assert d.files[op.path := d.files[op.path]] == d.files;
    }
  }

  // ----- Sizes -----

  /** `session_size`: the octets in all files. */
  ghost function Total(files: map<Bytes, Bytes>): nat
    decreases |files|
  {
    if files == map[] then 0
    else
      var k: Bytes :| k in files;
      |files[k]| + Total(files - {k})
  }

  lemma {:induction false} TotalWithout(files: map<Bytes, Bytes>, k: Bytes)
    requires k in files
    ensures Total(files) == |files[k]| + Total(files - {k})
    decreases |files|
  {
    var p: Bytes :| p in files && Total(files) == |files[p]| + Total(files - {p});
    if p != k {
      TotalWithout(files - {p}, k);
      TotalWithout(files - {k}, p);
      assert files - {p} - {k} == files - {k} - {p};
    }
  }

  lemma TotalPut(files: map<Bytes, Bytes>, k: Bytes, content: Bytes)
    ensures Total(files[k := content]) == Total(files - {k}) + |content|
    ensures Total(files) == Total(files - {k}) + (if k in files then |files[k]| else 0)
  {
    var after := files[k := content];
    TotalWithout(after, k);
    assert after - {k} == files - {k};
    if k in files {
      TotalWithout(files, k);
    } else {
      assert files - {k} == files;
    }
  }

  lemma TotalRename(files: map<Bytes, Bytes>, from: Bytes, to: Bytes)
    requires from in files && from != to
    ensures Total((files - {from})[to := files[from]])
         == Total(files) - (if to in files then |files[to]| else 0)
  {
    TotalWithout(files, from);
    TotalPut(files - {from}, to, files[from]);
  }

  method SessionSize(files: map<Bytes, Bytes>) returns (total: nat)
    ensures total == Total(files)
  {
    total := 0;
    var rest := files;
    while rest != map[]
      invariant total + Total(rest) == Total(files)
      decreases |rest|
    {
      assert exists k :: k in rest;
      var k: Bytes :| k in rest;
      TotalWithout(rest, k);
      total := total + |rest[k]|;
      rest := rest - {k};
    }
  }

  /** Octets a run writes. */
  function Written(ops: seq<FsOp>): nat {
    if ops == [] then 0 else (if ops[0].Append? then |ops[0].data| else 0) + Written(ops[1..])
  }

  lemma {:induction false} WrittenConcat(a: seq<FsOp>, b: seq<FsOp>)
    ensures Written(a + b) == Written(a) + Written(b)
    decreases a
  {
    if a == [] {
      assert a + b == b;
    } else {
      assert (a + b)[1..] == a[1..] + b;
      WrittenConcat(a[1..], b);
    }
  }

  lemma ApplyGrows(d: Disk, op: FsOp)
    ensures Total(Apply(op, d).files) <= Total(d.files) + (if op.Append? then |op.data| else 0)
  {
    hide Total;
    match op
    case Create(path) => TotalPut(d.files, path, []);
    case Append(path, data) =>
      if path in d.files {
        TotalPut(d.files, path, d.files[path] + data);
      }
    case Rename(from, to) =>
      if from in d.files {
        if from == to {
          assert (d.files - {from})[to := d.files[from]] == d.files;
        } else {
          TotalRename(d.files, from, to);
        }
      }
    case Remove(path) => TotalPut(d.files, path, []);
    case SetLength(path, length) =>
      if path in d.files && length <= |d.files[path]| {
        TotalPut(d.files, path, d.files[path][..length]);
      }
    case _ =>
  }

  /** At no point has a run grown the session by more than it writes. */
  lemma {:induction false} EffectsGrow(d: Disk, ops: seq<FsOp>, n: nat)
    ensures Total(Effects(d, ops, n).files) <= Total(d.files) + Written(ops)
    decreases ops
  {
    hide Apply, Total;
    if ops != [] {
      if n < Cost(ops[0]) {
        if ops[0].Append? {
          ApplyGrows(d, Append(ops[0].path, ops[0].data[..n]));
        }
      } else {
        ApplyGrows(d, ops[0]);
        EffectsGrow(Apply(ops[0], d), ops[1..], n - Cost(ops[0]));
      }
    }
  }
}
