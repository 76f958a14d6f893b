/** The single-flight gate: leases, their generations and cancellation flags. */
module Flight {
  import opened Bytes

  datatype FlightError = InvalidOperation | ActiveOperation

  /** What identifies a lease to its holder and to a canceller. */
  datatype Ticket = Ticket(operationId: Bytes, generation: nat)

  datatype Gate = Gate(active: Option<Ticket>, nextGeneration: nat)

  const OPEN := Gate(None, 0)

  /** `wrapping_add(1).max(1)` on a `u64`. */
  function Advance(generation: nat): (r: nat)
    ensures r > 0
  {
    var wrapped := (generation + 1) % (U64_MAX + 1);
    if wrapped < 1 then 1 else wrapped
  }

  function BeginOn(g: Gate, operationId: Bytes): (Gate, Result<Ticket, FlightError>) {
    if !IsId(operationId) then (g, Err(InvalidOperation))
    else if g.active.Some? then (g, Err(ActiveOperation))
    else
      var t := Ticket(operationId, Advance(g.nextGeneration));
      (Gate(Some(t), t.generation), Ok(t))
  }

  function FinishOn(g: Gate, t: Ticket): (Gate, bool) {
    if g.active == Some(t) then (g.(active := None), true) else (g, false)
  }

  /** Whether a cancellation reaches the active lease. */
  predicate Cancels(g: Gate, operationId: Bytes, generation: nat) {
    g.active == Some(Ticket(operationId, generation))
  }

  // ----- The gate as it runs -----

  class Flag {
    var raised: bool
    constructor ()
      ensures !raised
    {
      raised := false;
    }
  }

  class Lease {
    const ticket: Ticket
    const cancellation: Flag
    constructor (ticket: Ticket, cancellation: Flag)
      ensures this.ticket == ticket && this.cancellation == cancellation
    {
      this.ticket, this.cancellation := ticket, cancellation;
    }

    method IsCancelled() returns (r: bool)
      ensures r == cancellation.raised
    {
      r := cancellation.raised;
    }
  }

  class SingleFlight {
    var active: Lease?
    var nextGeneration: nat

    constructor ()
      ensures Model() == OPEN
    {
      active, nextGeneration := null, 0;
    }

    function Model(): Gate
      reads this
    {
      Gate(if active == null then None else Some(active.ticket), nextGeneration)
    }

    method Begin(operationId: Bytes) returns (r: Result<Lease, FlightError>)
      modifies this
      ensures Model() == BeginOn(old(Model()), operationId).0
      ensures r.Ok? <==> BeginOn(old(Model()), operationId).1.Ok?
      ensures r.Ok? ==> active == r.value && fresh(r.value) && fresh(r.value.cancellation)
                        && Ok(r.value.ticket) == BeginOn(old(Model()), operationId).1 && !r.value.cancellation.raised
      ensures r.Err? ==> Err(r.error) == BeginOn(old(Model()), operationId).1 && active == old(active)
    {
      if !IsId(operationId) {
        return Err(InvalidOperation);
      }
      if active != null {
        return Err(ActiveOperation);
      }
      nextGeneration := Advance(nextGeneration);
      var flag := new Flag();
      var lease := new Lease(Ticket(operationId, nextGeneration), flag);
      active := lease;
      r := Ok(lease);
    }

    method Finish(lease: Lease) returns (r: bool)
      modifies this
      ensures (Model(), r) == FinishOn(old(Model()), lease.ticket)
      ensures active == if r then null else old(active)
    {
      if active != null && active.ticket == lease.ticket {
        active := null;
        return true;
      }
      r := false;
    }

    /** Raises the flag of the active lease and of no other. */
    method Cancel(operationId: Bytes, generation: nat) returns (r: bool)
      modifies if active == null then {} else {active.cancellation}
      ensures r == Cancels(Model(), operationId, generation)
      ensures active != null ==> active.cancellation.raised == (r || old(active.cancellation.raised))
    {
      if active != null {
        if active.ticket.operationId == operationId && active.ticket.generation == generation {
          active.cancellation.raised := true;
          return true;
        }
      }
      r := false;
    }
  }

  // ----- Whole runs -----

  datatype Event = Begin(operationId: Bytes) | Finish(ticket: Ticket) | Cancel(operationId: Bytes, generation: nat)

  /** The gate, every ticket it has issued, and which of them were cancelled. */
  datatype History = History(gate: Gate, issued: seq<Ticket>, raised: set<nat>)

  function Step(h: History, e: Event): History {
    match e
    case Begin(operationId) =>
      var next := BeginOn(h.gate, operationId);
      if next.1.Ok? then h.(gate := next.0, issued := h.issued + [next.1.value]) else h
    case Finish(ticket) => h.(gate := FinishOn(h.gate, ticket).0)
    case Cancel(operationId, generation) =>
      if Cancels(h.gate, operationId, generation) && h.issued != [] then
        var latest: nat := |h.issued| - 1;
        h.(raised := h.raised + {latest})
      else h
  }

  function After(events: seq<Event>): History {
    if events == [] then History(OPEN, [], {}) else Step(After(events[..|events| - 1]), events[|events| - 1])
  }

  /** The generation of the `k`-th lease, counting from 0. */
  function GenerationOf(k: nat): nat {
    k % U64_MAX + 1
  }

  predicate Sane(h: History) {
    && (forall k | 0 <= k < |h.issued| :: h.issued[k].generation == GenerationOf(k))
    && h.gate.nextGeneration == (if h.issued == [] then 0 else h.issued[|h.issued| - 1].generation)
    && (h.gate.active.Some? ==> h.issued != [] && h.gate.active.value == h.issued[|h.issued| - 1])
    && (forall k | k in h.raised :: k < |h.issued|)
  }

  lemma GenerationAdvances(k: nat)
    ensures Advance(GenerationOf(k)) == GenerationOf(k + 1)
    ensures GenerationOf(k) <= U64_MAX
  {
  }

  lemma StepIsSane(h: History, e: Event)
    requires Sane(h)
    ensures Sane(Step(h, e))
  {
    if h.issued != [] {
      GenerationAdvances(|h.issued| - 1);
    }
    assert Advance(0) == GenerationOf(0) == 1;
    hide GenerationOf, Advance, IsId;
  }

  /** In every run: at most one lease is active, and it is the latest issued;
      the leases carry the generations 1, 2, 3, ... wrapping past `u64::MAX`. */
  lemma {:induction false} RunIsSane(events: seq<Event>)
    ensures Sane(After(events))
    decreases |events|
  {
    if events != [] {
      RunIsSane(events[..|events| - 1]);
      hide Sane;
      StepIsSane(After(events[..|events| - 1]), events[|events| - 1]);
    }
  }

  /** Two leases share a generation exactly when a multiple of 2^64 - 1 begins
      lies between them; so the first 2^64 - 1 are all different. */
  lemma GenerationsRepeat(events: seq<Event>, i: nat, j: nat)
    requires i < j < |After(events).issued|
    ensures After(events).issued[i].generation == After(events).issued[j].generation
       <==> (j - i) % 0xFFFF_FFFF_FFFF_FFFF == 0
    ensures j < U64_MAX ==> After(events).issued[i].generation != After(events).issued[j].generation
    ensures After(events).issued[i].generation > 0
  {
    RunIsSane(events);
    hide After;
    SameRemainder(i, j);
  }

  lemma SameRemainder(i: nat, j: nat)
    requires i < j
    ensures i % U64_MAX == j % U64_MAX <==> (j - i) % U64_MAX == 0
    ensures j < U64_MAX ==> i % U64_MAX != j % U64_MAX
  {
    var a, b := i / U64_MAX, j / U64_MAX;
    assert i == a * U64_MAX + i % U64_MAX && j == b * U64_MAX + j % U64_MAX;
    var c := (j - i) / U64_MAX;
    assert j - i == c * U64_MAX + (j - i) % U64_MAX;
  }

  /** A lease that is not the active one releases nothing when it is finished,
      within the first 2^64 - 1 begins. */
  lemma StaleFinishIsHarmless(events: seq<Event>, k: nat)
    requires k < |After(events).issued| <= U64_MAX
    requires After(events).gate.active.None? || k < |After(events).issued| - 1
    ensures After(events + [Finish(After(events).issued[k])]) == After(events)
  {
    RunIsSane(events);
    var h := After(events);
    if h.gate.active.Some? {
      GenerationsRepeat(events, k, |h.issued| - 1);
    }
    assert (events + [Finish(h.issued[k])])[..|events|] == events;
  }

  /** And past that bound one can: a lease forgotten 2^64 - 1 begins ago has the
      active lease's generation, and its holder's finish releases the other when
      the operation IDs agree. */
  lemma StaleFinishAfterWrap(events: seq<Event>, k: nat)
    requires After(events).gate.active.Some? && k < |After(events).issued| - 1
    ensures var h := After(events);
            var last := h.issued[|h.issued| - 1];
            After(events + [Finish(h.issued[k])]).gate.active.None?
            <==> h.issued[k].operationId == last.operationId && (|h.issued| - 1 - k) % U64_MAX == 0
  {
    RunIsSane(events);
    var h := After(events);
    GenerationsRepeat(events, k, |h.issued| - 1);
    assert (events + [Finish(h.issued[k])])[..|events|] == events;
  }

  /** A flag is raised only by a cancellation that names that lease's operation
      and generation while the lease is the active one. */
  lemma {:induction false} RaisedByItsCancel(events: seq<Event>, k: nat) returns (i: nat)
    requires k in After(events).raised
    ensures i < |events| && k < |After(events).issued| && |After(events[..i]).issued| == k + 1
    ensures events[i] == Cancel(After(events).issued[k].operationId, After(events).issued[k].generation)
    ensures After(events[..i]).gate.active == Some(After(events).issued[k])
    decreases |events|
  {
    RunIsSane(events);
    var n := |events| - 1;
    var before := After(events[..n]);
    RunIsSane(events[..n]);
    if k in before.raised {
      i := RaisedByItsCancel(events[..n], k);
      assert events[..n][..i] == events[..i];
      assert before.issued[k] == After(events).issued[k];
    } else {
      i := n;
    }
  }
}
