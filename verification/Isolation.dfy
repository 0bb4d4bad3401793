/**
 Without port faults a session behaves as on a fresh object over the same rows: it
 sees nothing of the sessions before it, and only adds to what they accumulated.
 */
module Isolation {
  import opened Octets
  import opened Catalog
  import opened SessionMachine
  import opened TraceLaws
  import opened SessionLaws

  /** Machine a is machine b with the totals of earlier sessions in front. */
  predicate Behind(base: Totals, a: Machine, b: Machine) {
    && a.rows == b.rows && a.p == b.p && a.y == b.y && a.h == b.h
    && a.t.trace == base.trace + b.t.trace
    && a.t.closes == base.closes + b.t.closes
    && (a.t.reopen <==> base.reopen || b.t.reopen)
    && a.t.iterOpens == base.iterOpens + b.t.iterOpens
    && a.t.peerGets == base.peerGets + b.t.peerGets
    && a.t.applicable == base.applicable + b.t.applicable
    && (a.h.d3Bound ==> a.t.mode == b.t.mode)
  }

  predicate BehindOutcome(base: Totals, x: Outcome, y: Outcome) {
    match (x, y)
    case (Crash, Crash) => true
    case (Next(a, st), Next(b, su)) => Behind(base, a, b) && st == su
    case _ => false
  }

  predicate BehindTick(base: Totals, x: Tick, y: Tick) {
    match (x, y)
    case (TickCrash, TickCrash) => true
    case (Go(a), Go(b)) => Behind(base, a, b)
    case (Stop(a, st), Stop(b, su)) => Behind(base, a, b) && st == su
    case _ => false
  }

  lemma NoFault(env: Env, m: Machine, op: FaultOp, onCall: int)
    requires env.faults == []
    ensures ArmedFault(env, m, op, onCall) == None
    ensures Consume(env, m, op, onCall) == m
  {
  }

  lemma TraceBehind(base: seq<Event>, trace: seq<Event>, e: Event)
    ensures (base + trace) + [e] == base + (trace + [e])
  {
  }

  // ----- the walk

  /** What evaluating a peer comes to when no port call fails. */
  function PeerVerdict(env: Env, mode: int, rows: seq<Row>, row: Row): PeerCheck {
    match env.plan(mode, row.key, row.val)
    case PlanCrash => CheckCrash
    case PlanInvalid => Unmet
    case NotApplicable => Met
    case Probe(ev) =>
      match Lookup(rows, ev.peerKey)
      case None => if ev.expectPresent then Unmet else Met
      case Some(peer) => if ev.expectPresent then env.check(mode, ev, row.val, peer) else Unmet
  }

  function AfterPeer(env: Env, m: Machine, row: Row): Machine {
    if env.plan(m.t.mode, row.key, row.val).Probe? then
      m.(t := m.t.(trace := m.t.trace + [Get(PeerGet)], getCall := m.t.getCall + 1,
                   applicable := m.t.applicable + 1, peerGets := m.t.peerGets + 1))
    else m
  }

  /** With no faults, a peer evaluation is its verdict. */
  lemma PeerWithoutFaults(env: Env, m: Machine, row: Row)
    requires env.faults == []
    ensures ApplyPeer(env, m, row) ==
      match PeerVerdict(env, m.t.mode, m.rows, row)
      case CheckCrash => PeerCrash
      case Unmet => PeerDone(AfterPeer(env, m, row), Some(StorageCorrupt))
      case Met => PeerDone(AfterPeer(env, m, row), None)
  {
    hide Lookup, FindFault;
    if env.plan(m.t.mode, row.key, row.val).Probe? {
      var m0 := GetStart(m, PeerGet);
      var m1 := m0.(t := m0.t.(applicable := m0.t.applicable + 1, peerGets := m0.t.peerGets + 1));
      NoFault(env, m1, OnGet, m1.t.getCall);
    }
  }

  lemma TypedBehind(env: Env, base: Totals, a: Machine, b: Machine, row: Row)
    requires env.faults == [] && Behind(base, a, b)
    ensures BehindTick(base, TickTyped(env, a, row), TickTyped(env, b, row))
  {
    hide ApplyPeer, PeerVerdict;
    if a.h.d3Bound {
      PeerWithoutFaults(env, a, row);
      PeerWithoutFaults(env, b, row);
      TraceBehind(base.trace, b.t.trace, Get(PeerGet));
    }
  }

  lemma DomainBehind(env: Env, base: Totals, a: Machine, b: Machine, row: Row)
    requires env.faults == [] && Behind(base, a, b)
    ensures BehindTick(base, TickDomain(env, a, row), TickDomain(env, b, row))
  {
    hide TickTyped;
    TypedBehind(env, base,
      a.(y := a.y.(currentDomain := a.y.currentDomain + 1)),
      b.(y := b.y.(currentDomain := b.y.currentDomain + 1)), row);
  }

  lemma CatalogBehind(base: Totals, a: Machine, b: Machine, row: Row, id: nat)
    requires Behind(base, a, b)
    ensures BehindTick(base, TickCatalog(a, row, id), TickCatalog(b, row, id))
  {
  }

  lemma RowBehind(env: Env, base: Totals, a: Machine, b: Machine, row: Row)
    requires env.faults == [] && Behind(base, a, b)
    ensures BehindTick(base, TickRow(env, a, row), TickRow(env, b, row))
  {
    hide TickDomain, TickCatalog, Less, CatalogId;
    DomainBehind(env, base, a, b, row);
    if CatalogId(row.key).Some? {
      CatalogBehind(base, a, b, row, CatalogId(row.key).value);
    }
  }

  lemma TickBehind(env: Env, base: Totals, a: Machine, b: Machine)
    requires env.faults == [] && Behind(base, a, b)
    ensures BehindTick(base, TickOnce(env, a), TickOnce(env, b))
  {
    hide TickRow;
    TraceBehind(base.trace, b.t.trace, IterNext);
    var a1, b1 := Emit(a, IterNext), Emit(b, IterNext);
    if a.y.rowIndex < |a.rows| {
      RowBehind(env, base,
        a1.(y := a1.y.(rowIndex := a1.y.rowIndex + 1)),
        b1.(y := b1.y.(rowIndex := b1.y.rowIndex + 1)), a.rows[a.y.rowIndex]);
    }
  }

  lemma {:induction false} WalkBehind(env: Env, base: Totals, a: Machine, b: Machine, left: int)
    requires env.faults == [] && Behind(base, a, b)
    ensures BehindOutcome(base, Walk(env, a, left), Walk(env, b, left))
    decreases left
  {
    hide TickOnce;
    if left > 0 {
      TickBehind(env, base, a, b);
      var x, y := TickOnce(env, a), TickOnce(env, b);
      if x.Go? && y.Go? {
        WalkBehind(env, base, x.m, y.m, left - 1);
      }
    }
  }

  // ----- opening and closing

  lemma GetBehind(env: Env, base: Totals, a: Machine, b: Machine, id: nat)
    requires env.faults == [] && Behind(base, a, b) && IsId(id)
    ensures var x, y := ProfileGetOne(env, a, id), ProfileGetOne(env, b, id);
      Behind(base, x.m, y.m) && x.refusal == y.refusal
  {
    hide Lookup, CatalogKey, Capacity, MapStorage, FindFault, Retained;
    var a1, b1 := GetStart(a, ProfileGet), GetStart(b, ProfileGet);
    NoFault(env, a1, OnGet, a1.t.getCall);
    NoFault(env, b1, OnGet, b1.t.getCall);
    TraceBehind(base.trace, b.t.trace, Get(ProfileGet));
  }

  lemma {:induction false} ProfileBehind(env: Env, base: Totals, a: Machine, b: Machine, id: nat)
    requires env.faults == [] && Behind(base, a, b) && 1 <= id <= 18
    ensures var x, y := ProfileGets(env, a, id), ProfileGets(env, b, id);
      Behind(base, x.m, y.m) && x.gate == y.gate
    decreases 18 - id
  {
    hide ProfileGetOne;
    if id < 18 {
      GetBehind(env, base, a, b, id);
      var x, y := ProfileGetOne(env, a, id), ProfileGetOne(env, b, id);
      if x.refusal.None? {
        ProfileBehind(env, base, x.m, y.m, id + 1);
      }
    }
  }

  lemma RollBackBehind(env: Env, base: Totals, a: Machine, b: Machine)
    requires env.faults == [] && Behind(base, a, b)
    ensures Behind(base, RollBack(env, a), RollBack(env, b))
  {
    hide CountRollbacks, FindFault;
    NoFault(env, a, OnRollback, 1 + CountRollbacks(a.t.trace));
    NoFault(env, b, OnRollback, 1 + CountRollbacks(b.t.trace));
    TraceBehind(base.trace, b.t.trace, Rollback);
  }

  lemma CleanupBehind(env: Env, base: Totals, a: Machine, b: Machine)
    requires env.faults == [] && Behind(base, a, b)
    ensures Behind(base, Cleanup(env, a), Cleanup(env, b))
  {
    hide RollBack;
    TraceBehind(base.trace, b.t.trace, IterClose);
    var b1 := RollBack(env, CloseIterator(b));
    RollBackBehind(env, base, CloseIterator(a), CloseIterator(b));
    TraceBehind(base.trace, b1.t.trace, Close);
  }

  lemma BeginBehind(env: Env, base: Totals, a: Machine, b: Machine, d3: bool)
    requires env.faults == [] && Behind(base, a, b) && (d3 ==> a.t.mode == b.t.mode)
    ensures BehindOutcome(base, Begin(env, a, d3), Begin(env, b, d3))
  {
    hide ProfileGets, Cleanup, FindFault;
    TraceBehind(base.trace, b.t.trace, BeginReadOnly);
    var a2, b2 := Prepared(a, d3), Prepared(b, d3);
    ProfileBehind(env, base, a2, b2, 1);
    var x, y := ProfileGets(env, a2, 1), ProfileGets(env, b2, 1);
    if x.gate.Refused? {
      CleanupBehind(env, base,
        x.m.(h := Stick(x.m.h, x.gate.status)), y.m.(h := Stick(y.m.h, y.gate.status)));
    } else {
      OpenBehind(env, base, x.m, y.m, x.gate);
    }
  }

  lemma OpenBehind(env: Env, base: Totals, a: Machine, b: Machine, gate: Gate)
    requires env.faults == [] && Behind(base, a, b) && !gate.Refused?
    ensures BehindOutcome(base, OpenIterator(env, a, gate), OpenIterator(env, b, gate))
  {
    hide Cleanup, FindFault;
    var a1, b1 := a.(p := Judged(a.p, gate)), b.(p := Judged(b.p, gate));
    NoFault(env, a1, OnIterOpen, 1);
    NoFault(env, b1, OnIterOpen, 1);
    TraceBehind(base.trace, b.t.trace, IterOpen);
  }

  // ----- calls and runs

  lemma EndBehind(env: Env, base: Totals, a: Machine, b: Machine, call: Call)
    requires env.faults == [] && Behind(base, a, b) && Ends(call)
    ensures BehindOutcome(base, Step(env, a, call), Step(env, b, call))
  {
    hide Cleanup;
    CleanupBehind(env, base, a, b);
  }

  lemma AdvanceBehind(env: Env, base: Totals, a: Machine, b: Machine, budget: int)
    requires env.faults == [] && Behind(base, a, b)
    ensures BehindOutcome(base, Step(env, a, Advance(budget)), Step(env, b, Advance(budget)))
  {
    hide Walk;
    WalkBehind(env, base, a, b, budget);
  }

  lemma ExactGetBehind(env: Env, base: Totals, a: Machine, b: Machine, key: Octets)
    requires env.faults == [] && Behind(base, a, b)
    ensures BehindOutcome(base, Step(env, a, GetExactly(key)), Step(env, b, GetExactly(key)))
  {
    hide Lookup;
    TraceBehind(base.trace, b.t.trace, Get(ExactGet));
  }

  lemma BeginCallBehind(env: Env, base: Totals, a: Machine, b: Machine, call: Call)
    requires env.faults == [] && Behind(base, a, b) && (call.BeginProfiled? || call.BeginCrossRow?)
    ensures BehindOutcome(base, Step(env, a, call), Step(env, b, call))
  {
    hide Begin;
    var mode := if call.BeginCrossRow? then call.mode else 0;
    BeginBehind(env, base, a.(t := a.t.(mode := mode)), b.(t := b.t.(mode := mode)), call.BeginCrossRow?);
  }

  lemma OtherBehind(env: Env, base: Totals, a: Machine, b: Machine, call: Call)
    requires env.faults == [] && Behind(base, a, b)
    requires call.SessionInit? || call.UseRows? || call.HandleDrift? || call.NoteCorrupt?
    ensures BehindOutcome(base, Step(env, a, call), Step(env, b, call))
  {
    hide Lookup;
  }

  lemma StepBehind(env: Env, base: Totals, a: Machine, b: Machine, call: Call)
    requires env.faults == [] && Behind(base, a, b)
    ensures BehindOutcome(base, Step(env, a, call), Step(env, b, call))
  {
    hide Step, Behind, BehindOutcome;
    match call {
      case Advance(budget) => AdvanceBehind(env, base, a, b, budget);
      case GetExactly(key) => ExactGetBehind(env, base, a, b, key);
      case Finalize => EndBehind(env, base, a, b, call);
      case Abort => EndBehind(env, base, a, b, call);
      case BeginProfiled(_) => BeginCallBehind(env, base, a, b, call);
      case BeginCrossRow(_, _) => BeginCallBehind(env, base, a, b, call);
      case _ => OtherBehind(env, base, a, b, call);
    }
  }

  lemma {:induction false} RunBehind(env: Env, base: Totals, a: Machine, b: Machine, calls: seq<Call>)
    requires env.faults == [] && Behind(base, a, b)
    ensures var x, y := Run(env, a, calls), Run(env, b, calls);
      && (x.Ran? <==> y.Ran?)
      && (x.Ran? && y.Ran? ==> x.statuses == y.statuses && Behind(base, x.m, y.m))
    decreases |calls|
  {
    hide Step;
    if calls != [] {
      StepBehind(env, base, a, b, calls[0]);
      var x, y := Step(env, a, calls[0]), Step(env, b, calls[0]);
      if x.Next? && y.Next? {
        RunBehind(env, base, x.m, y.m, calls[1..]);
      }
    }
  }

  /**
   A session begun after any finished run returns the statuses, counters and masks of
   the same calls on a fresh object over the same rows, and appends exactly its trace.
   */
  lemma SessionIsolation(env: Env, rows: seq<Row>, before: seq<Call>, session: seq<Call>)
    requires env.faults == []
    requires Run(env, FreshMachine(rows), before).Ran?
    requires Run(env, FreshMachine(rows), before).m.h.phase.Done?
    ensures var m := Run(env, FreshMachine(rows), before).m;
      var later := Run(env, m, [SessionInit] + session);
      var alone := Run(env, FreshMachine(m.rows), session);
      && (later.Ran? <==> alone.Ran?)
      && (later.Ran? && alone.Ran? ==>
            later.statuses == [Void] + alone.statuses && Behind(m.t, later.m, alone.m))
  {
    var m := Run(env, FreshMachine(rows), before).m;
    var start := DoSessionInit(env, m);
    assert ([SessionInit] + session)[1..] == session;
    assert Step(env, m, SessionInit) == start;
    RunBehind(env, m.t, start.m, FreshMachine(m.rows), session);
  }

  /** Adoption survives earlier sessions unless one of them closed the storage handle. */
  lemma AdoptionAfterSessions(env: Env, rows: seq<Row>, before: seq<Call>, session: seq<Call>)
    requires env.faults == [] && session != []
    requires Run(env, FreshMachine(rows), before).Ran?
    requires Run(env, FreshMachine(rows), before).m.h.phase.Done?
    ensures var m := Run(env, FreshMachine(rows), before).m;
      Adopted([SessionInit] + session, Run(env, m, [SessionInit] + session))
      <==> Adopted(session, Run(env, FreshMachine(m.rows), session)) && m.t.closes == 0
  {
    hide Step, ShapeOf, CountPeerGets, CountCloses;
    SessionIsolation(env, rows, before, session);
    EveryTraceIsInGrammar(env, rows, before);
    var m := Run(env, FreshMachine(rows), before).m;
    if Run(env, FreshMachine(m.rows), session).Ran? {
      RunLength(env, FreshMachine(m.rows), session);
    }
    assert ([SessionInit] + session)[|session|] == session[|session| - 1];
  }
}
