/**
 Checking peers is a conservative extension: whatever the peer check adopts, the plain
 scan adopts too, with the same counters and masks and the same trace less the peer gets.
 */
module Extension {
  import opened Octets
  import opened Catalog
  import opened SessionMachine
  import opened TraceLaws
  import opened Isolation

  function Erase(trace: seq<Event>): seq<Event> {
    if trace == [] then []
    else
      var rest := Erase(trace[..|trace| - 1]);
      var e := trace[|trace| - 1];
      if e == Get(PeerGet) then rest else rest + [e]
  }

  lemma EraseStep(trace: seq<Event>, e: Event)
    ensures Erase(trace + [e]) == if e == Get(PeerGet) then Erase(trace) else Erase(trace) + [e]
  {
    assert (trace + [e])[..|trace|] == trace;
  }

  /** Machine a checks peers, machine b does not; otherwise they are the same. */
  predicate Erased(a: Machine, b: Machine) {
    && a.rows == b.rows && a.p == b.p && a.y == b.y
    && a.h.(d3Bound := false) == b.h
    && Erase(a.t.trace) == b.t.trace
    && a.t.closes == b.t.closes && a.t.reopen == b.t.reopen && a.t.iterOpens == b.t.iterOpens
    && b.t.peerGets == 0
  }

  predicate ErasedOutcome(x: Outcome, y: Outcome) {
    x.Next? && x.m.h.sticky.None? ==> y.Next? && Erased(x.m, y.m) && x.status == y.status
  }

  predicate ErasedTick(x: Tick, y: Tick) {
    && (x.Go? ==> y.Go? && Erased(x.m, y.m))
    && (x.Stop? && x.m.h.sticky.None? ==> y.Stop? && Erased(x.m, y.m) && x.status == y.status)
  }

  // ----- the walk

  lemma TypedErased(env: Env, a: Machine, b: Machine, row: Row)
    requires env.faults == [] && Erased(a, b)
    ensures ErasedTick(TickTyped(env, a, row), TickTyped(env, b, row))
  {
    hide PeerVerdict, ApplyPeer, Erase;
    PeerWithoutFaults(env, a, row);
    EraseStep(a.t.trace, Get(PeerGet));
  }

  lemma DomainErased(env: Env, a: Machine, b: Machine, row: Row)
    requires env.faults == [] && Erased(a, b)
    ensures ErasedTick(TickDomain(env, a, row), TickDomain(env, b, row))
  {
    hide TickTyped, Erase;
    TypedErased(env,
      a.(y := a.y.(currentDomain := a.y.currentDomain + 1)),
      b.(y := b.y.(currentDomain := b.y.currentDomain + 1)), row);
  }

  lemma SimpleErased(a: Machine, b: Machine, row: Row)
    requires Erased(a, b)
    ensures ErasedTick(Accept(a, row), Accept(b, row))
    ensures ErasedTick(
      Accept(a.(y := a.y.(futureSeen := true)), row), Accept(b.(y := b.y.(futureSeen := true)), row))
    ensures ErasedTick(Refuse(a, StorageCorrupt), Refuse(b, StorageCorrupt))
  {
    hide Erase;
  }

  lemma CatalogErased(a: Machine, b: Machine, row: Row, id: nat)
    requires Erased(a, b)
    ensures ErasedTick(TickCatalog(a, row, id), TickCatalog(b, row, id))
  {
    hide Erase;
  }

  lemma RowErased(env: Env, a: Machine, b: Machine, row: Row)
    requires env.faults == [] && Erased(a, b)
    ensures ErasedTick(TickRow(env, a, row), TickRow(env, b, row))
  {
    hide TickDomain, TickCatalog, Less, CatalogId, Erase, Accept, Refuse;
    DomainErased(env, a, b, row);
    SimpleErased(a, b, row);
    if CatalogId(row.key).Some? {
      CatalogErased(a, b, row, CatalogId(row.key).value);
    }
  }

  lemma TickErased(env: Env, a: Machine, b: Machine)
    requires env.faults == [] && Erased(a, b)
    ensures ErasedTick(TickOnce(env, a), TickOnce(env, b))
  {
    hide TickRow, Erase;
    EraseStep(a.t.trace, IterNext);
    var a1, b1 := Emit(a, IterNext), Emit(b, IterNext);
    if a.y.rowIndex < |a.rows| {
      RowErased(env,
        a1.(y := a1.y.(rowIndex := a1.y.rowIndex + 1)),
        b1.(y := b1.y.(rowIndex := b1.y.rowIndex + 1)), a.rows[a.y.rowIndex]);
    }
  }

  lemma {:induction false} WalkErased(env: Env, a: Machine, b: Machine, left: int)
    requires env.faults == [] && Erased(a, b)
    ensures ErasedOutcome(Walk(env, a, left), Walk(env, b, left))
    decreases left
  {
    hide TickOnce, Erase;
    if left > 0 {
      TickErased(env, a, b);
      var x, y := TickOnce(env, a), TickOnce(env, b);
      if x.Go? && y.Go? {
        WalkErased(env, x.m, y.m, left - 1);
      }
    }
  }

  // ----- opening and closing

  lemma GetErased(env: Env, a: Machine, b: Machine, id: nat)
    requires env.faults == [] && Erased(a, b) && IsId(id)
    ensures var x, y := ProfileGetOne(env, a, id), ProfileGetOne(env, b, id);
      Erased(x.m, y.m) && x.refusal == y.refusal
  {
    hide Lookup, CatalogKey, Capacity, MapStorage, FindFault, Retained, Erase;
    var a1, b1 := GetStart(a, ProfileGet), GetStart(b, ProfileGet);
    NoFault(env, a1, OnGet, a1.t.getCall);
    NoFault(env, b1, OnGet, b1.t.getCall);
    EraseStep(a.t.trace, Get(ProfileGet));
  }

  lemma {:induction false} ProfileErased(env: Env, a: Machine, b: Machine, id: nat)
    requires env.faults == [] && Erased(a, b) && 1 <= id <= 18
    ensures var x, y := ProfileGets(env, a, id), ProfileGets(env, b, id);
      Erased(x.m, y.m) && x.gate == y.gate
    decreases 18 - id
  {
    hide ProfileGetOne, Erase;
    if id < 18 {
      GetErased(env, a, b, id);
      var x, y := ProfileGetOne(env, a, id), ProfileGetOne(env, b, id);
      if x.refusal.None? {
        ProfileErased(env, x.m, y.m, id + 1);
      }
    }
  }

  lemma RollBackErased(env: Env, a: Machine, b: Machine)
    requires env.faults == [] && Erased(a, b)
    ensures Erased(RollBack(env, a), RollBack(env, b))
  {
    hide CountRollbacks, FindFault, Erase;
    NoFault(env, a, OnRollback, 1 + CountRollbacks(a.t.trace));
    NoFault(env, b, OnRollback, 1 + CountRollbacks(b.t.trace));
    EraseStep(a.t.trace, Rollback);
  }

  lemma CleanupErased(env: Env, a: Machine, b: Machine)
    requires env.faults == [] && Erased(a, b)
    ensures Erased(Cleanup(env, a), Cleanup(env, b))
  {
    hide RollBack, Erase;
    EraseStep(a.t.trace, IterClose);
    var a1 := RollBack(env, CloseIterator(a));
    RollBackErased(env, CloseIterator(a), CloseIterator(b));
    EraseStep(a1.t.trace, Close);
  }

  /** Opening leaves the same session but for the peer binding. */
  lemma BeginErased(env: Env, a: Machine, b: Machine)
    requires env.faults == [] && Erased(a, b)
    ensures ErasedOutcome(Begin(env, a, true), Begin(env, b, false))
  {
    hide ProfileGets, Cleanup, FindFault, Erase;
    EraseStep(a.t.trace, BeginReadOnly);
    ProfileErased(env, Prepared(a, true), Prepared(b, false), 1);
    var x, y := ProfileGets(env, Prepared(a, true), 1), ProfileGets(env, Prepared(b, false), 1);
    if x.gate.Refused? {
      CleanupErased(env, x.m.(h := Stick(x.m.h, x.gate.status)), y.m.(h := Stick(y.m.h, y.gate.status)));
    } else {
      NoFault(env, x.m.(p := Judged(x.m.p, x.gate)), OnIterOpen, 1);
      NoFault(env, y.m.(p := Judged(y.m.p, y.gate)), OnIterOpen, 1);
      EraseStep(x.m.t.trace, IterOpen);
    }
  }

  // ----- calls and runs

  lemma EndErased(env: Env, a: Machine, b: Machine, call: Call)
    requires env.faults == [] && Erased(a, b) && Ends(call)
    ensures ErasedOutcome(Step(env, a, call), Step(env, b, call))
  {
    hide Cleanup, Erase;
    CleanupErased(env, a, b);
  }

  /** The session has begun and goes on. */
  predicate Begun(m: Machine) {
    !m.h.phase.Idle?
  }

  lemma AdvanceErased(env: Env, a: Machine, b: Machine, budget: int)
    requires env.faults == [] && Erased(a, b)
    ensures ErasedOutcome(Step(env, a, Advance(budget)), Step(env, b, Advance(budget)))
  {
    hide Walk, Erase;
    WalkErased(env, a, b, budget);
  }

  lemma ExactGetErased(env: Env, a: Machine, b: Machine, key: Octets)
    requires env.faults == [] && Erased(a, b)
    ensures ErasedOutcome(Step(env, a, GetExactly(key)), Step(env, b, GetExactly(key)))
  {
    hide Lookup, Erase;
    EraseStep(a.t.trace, Get(ExactGet));
  }

  lemma OtherErased(env: Env, a: Machine, b: Machine, call: Call)
    requires Erased(a, b) && Begun(a) && !call.SessionInit? && !call.Advance? && !call.GetExactly? && !Ends(call)
    ensures ErasedOutcome(Step(env, a, call), Step(env, b, call))
  {
    hide Erase, Begin;
  }

  lemma StepErased(env: Env, a: Machine, b: Machine, call: Call)
    requires env.faults == [] && Erased(a, b) && Begun(a) && !call.SessionInit?
    ensures ErasedOutcome(Step(env, a, call), Step(env, b, call))
  {
    hide Step, Erase, Erased, ErasedOutcome;
    match call {
      case Advance(budget) => AdvanceErased(env, a, b, budget);
      case GetExactly(key) => ExactGetErased(env, a, b, key);
      case Finalize => EndErased(env, a, b, call);
      case Abort => EndErased(env, a, b, call);
      case _ => OtherErased(env, a, b, call);
    }
  }

  lemma StepStaysBegun(env: Env, m: Machine, call: Call)
    requires Coherent(m) && Begun(m) && !call.SessionInit? && Step(env, m, call).Next?
    ensures Begun(Step(env, m, call).m)
  {
    hide ShapeOf, CountPeerGets, CountCloses, Walk, Begin, RollBack, CloseFence, Lookup;
    match call {
      case Advance(budget) =>
        if m.h.phase.Open? && Walk(env, m, budget).Next? { WalkCoherent(env, m, budget); }
      case _ =>
    }
  }

  predicate OneSession(calls: seq<Call>) {
    forall c :: c in calls ==> !c.SessionInit?
  }

  /** A failure is never forgotten inside a session. */
  lemma {:induction false} FailureStays(env: Env, m: Machine, calls: seq<Call>)
    requires Coherent(m) && OneSession(calls) && m.h.sticky.Some?
    requires Run(env, m, calls).Ran?
    ensures Run(env, m, calls).m.h.sticky == m.h.sticky
    decreases |calls|
  {
    hide Step, Coherent;
    if calls != [] {
      StepCoherent(env, m, calls[0]);
      FailureStays(env, Step(env, m, calls[0]).m, calls[1..]);
    }
  }

  lemma {:induction false} RunErased(env: Env, a: Machine, b: Machine, calls: seq<Call>)
    requires env.faults == [] && Erased(a, b) && Coherent(a) && Begun(a) && OneSession(calls)
    requires Run(env, a, calls).Ran? && Run(env, a, calls).m.h.sticky.None?
    ensures var x, y := Run(env, a, calls), Run(env, b, calls);
      y.Ran? && x.statuses == y.statuses && Erased(x.m, y.m)
    decreases |calls|
  {
    hide Step, Coherent, Erase;
    if calls != [] {
      var r := Step(env, a, calls[0]);
      StepCoherent(env, a, calls[0]);
      StepStaysBegun(env, a, calls[0]);
      StepErased(env, a, b, calls[0]);
      if r.m.h.sticky.Some? {
        FailureStays(env, r.m, calls[1..]);
      } else {
        RunErased(env, r.m, Step(env, b, calls[0]).m, calls[1..]);
      }
    }
  }

  /**
   If a fault-free session that checks peers is adopted, the same calls without peer
   checks are adopted, with the same statuses, profile, counters and masks; its trace is
   the peer-checking trace less the peer gets, of which there is one per applicable row.
   */
  lemma PeersAreConservative(env: Env, rows: seq<Row>, mode: int, rest: seq<Call>)
    requires env.faults == [] && OneSession(rest)
    requires 1 <= mode <= 20
    requires Adopted([BeginCrossRow(mode, false)] + rest,
                     Run(env, FreshMachine(rows), [BeginCrossRow(mode, false)] + rest))
    ensures var checked := Run(env, FreshMachine(rows), [BeginCrossRow(mode, false)] + rest);
      var plain := Run(env, FreshMachine(rows), [BeginProfiled(false)] + rest);
      && Adopted([BeginProfiled(false)] + rest, plain)
      && plain.statuses == checked.statuses
      && plain.m.p == checked.m.p && plain.m.y == checked.m.y
      && plain.m.t.trace == Erase(checked.m.t.trace)
      && plain.m.t.peerGets == 0
      && checked.m.t.peerGets == checked.m.t.applicable == CountPeerGets(checked.m.t.trace)
  {
    var m := FreshMachine(rows);
    var a, b := m.(t := m.t.(mode := mode)), m.(t := m.t.(mode := 0));
    assert Coherent(a);
    assert Erased(a, b);
    hide Begin, Step, Run, Erase, ShapeOf, CountPeerGets, CountCloses, CleanFinish;
    StepOfBegin(env, m, mode);
    RunFrom(env, m, BeginCrossRow(mode, false), rest);
    RunFrom(env, m, BeginProfiled(false), rest);
    BeginErased(env, a, b);
    BeginCoherent(env, a, true);
    hide Coherent;
    BegunErased(env, Begin(env, a, true), Begin(env, b, false), rest);
    SameVerdict(Begin(env, a, true).status, rest,
                Run(env, Begin(env, a, true).m, rest), Run(env, Begin(env, b, false).m, rest));
  }

  lemma RunFrom(env: Env, m: Machine, call: Call, rest: seq<Call>)
    ensures Run(env, m, [call] + rest) ==
      if Step(env, m, call).Crash? then Halted
      else Prefixed([Step(env, m, call).status], Run(env, Step(env, m, call).m, rest))
  {
    hide Step;
    assert ([call] + rest)[1..] == rest;
  }

  lemma BegunErased(env: Env, x: Outcome, y: Outcome, rest: seq<Call>)
    requires env.faults == [] && OneSession(rest) && ErasedOutcome(x, y)
    requires x.Next? && Coherent(x.m) && Begun(x.m)
    requires Run(env, x.m, rest).Ran? && Run(env, x.m, rest).m.h.sticky.None?
    ensures y.Next? && x.status == y.status
    ensures var a, b := Run(env, x.m, rest), Run(env, y.m, rest);
      b.Ran? && a.statuses == b.statuses && Erased(a.m, b.m) && Coherent(a.m)
  {
    hide Run, Coherent, Erased;
    if x.m.h.sticky.Some? {
      FailureStays(env, x.m, rest);
    } else {
      RunErased(env, x.m, y.m, rest);
      RunCoherent(env, x.m, rest);
    }
  }

  lemma SameVerdict(first: Status, rest: seq<Call>, a: Trail, b: Trail)
    requires a.Ran? && b.Ran? && a.statuses == b.statuses && Erased(a.m, b.m)
    ensures forall x, y :: Adopted([x] + rest, Prefixed([first], a)) && (rest == [] ==> y == x) ==>
      Adopted([y] + rest, Prefixed([first], b))
  {
    hide Erase;
  }

  lemma StepOfBegin(env: Env, m: Machine, mode: int)
    requires m.h.phase.Idle? && 1 <= mode <= 20
    ensures Step(env, m, BeginCrossRow(mode, false)) == Begin(env, m.(t := m.t.(mode := mode)), true)
    ensures Step(env, m, BeginProfiled(false)) == Begin(env, m.(t := m.t.(mode := 0)), false)
  {
    hide Begin;
  }
}
