/**
 What it means that a session is adopted: the incremental, budgeted scan decides
 exactly one declarative question about the whole snapshot.
 */
module Adoption {
  import opened Octets
  import opened Catalog
  import opened SessionMachine
  import opened TraceLaws
  import opened SessionLaws
  import opened Isolation
  import opened Reconcile

  // ----- the declarative check

  predicate ProfileComplete(rows: seq<Row>) {
    forall id :: id in AllIds() ==>
      IsId(id)
      && Lookup(rows, CatalogKey(id)).Some?
      && |Lookup(rows, CatalogKey(id)).value| <= Capacity(id)
  }

  function ProfileValues(rows: seq<Row>): map<nat, Octets>
    requires ProfileComplete(rows)
  {
    map id | id in AllIds() :: Lookup(rows, CatalogKey(id)).value
  }

  predicate ProfileExact(env: Env, rows: seq<Row>) {
    ProfileComplete(rows) && env.gate(ProfileValues(rows)) == Exact
  }

  predicate InPlace(rows: seq<Row>, i: nat)
    requires i < |rows|
  {
    WithinCaps(rows[i]) && (i > 0 ==> Less(rows[i - 1].key, rows[i].key))
  }

  /** A row outside the profile is of the current root and, when typed, has the peer it needs. */
  predicate DomainGood(env: Env, d3: bool, mode: int, rows: seq<Row>, row: Row) {
    && env.root(row.key, row.val) == CurrentRoot
    && match env.classify(row.key, row.val)
       case RowTyped => d3 ==> PeerVerdict(env, mode, rows, row) == Met
       case RowUntyped => true
       case _ => false
  }

  predicate RowGood(env: Env, d3: bool, mode: int, rows: seq<Row>, i: nat)
    requires i < |rows|
  {
    InPlace(rows, i) && (CatalogId(rows[i].key).Some? || DomainGood(env, d3, mode, rows, rows[i]))
  }

  /** The snapshot is relationally consistent for a mode (or, without d3, on its own). */
  predicate Consistent(env: Env, d3: bool, mode: int, rows: seq<Row>) {
    && ProfileExact(env, rows)
    && forall i :: 0 <= i < |rows| ==> RowGood(env, d3, mode, rows, i)
  }

  // ----- opening without faults

  lemma {:induction false} GetsDecide(env: Env, m: Machine, id: nat)
    requires env.faults == []
    requires 1 <= id <= 18 && RetainedFrom(m.rows, m.p, IdsBelow(id))
    requires forall k :: 1 <= k < id ==> |Lookup(m.rows, CatalogKey(k)).value| <= Capacity(k)
    ensures ProfileGets(env, m, id).gate ==
      if ProfileComplete(m.rows) then env.gate(ProfileValues(m.rows)) else Refused(StorageCorrupt)
    decreases 18 - id
  {
    hide ProfileGetOne, Lookup, CatalogKey;
    if id < 18 {
      ProfileGetEffect(env, m, id);
      GetWithoutFaults(env, m, id);
      var r := ProfileGetOne(env, m, id);
      assert id in AllIds();
      if r.refusal.None? {
        assert IdsBelow(id + 1) == IdsBelow(id) + {id};
        GetsDecide(env, r.m, id + 1);
      }
    } else {
      assert IdsBelow(18) == AllIds();
      assert m.p.retained == ProfileValues(m.rows);
    }
  }

  lemma GetWithoutFaults(env: Env, m: Machine, id: nat)
    requires env.faults == [] && IsId(id)
    ensures var r := ProfileGetOne(env, m, id);
      var v := Lookup(m.rows, CatalogKey(id));
      r.refusal == if v.Some? && |v.value| <= Capacity(id) then None else Some(StorageCorrupt)
  {
    hide Lookup, CatalogKey, Capacity, Retained;
    var m1 := GetStart(m, ProfileGet);
    NoFault(env, m1, OnGet, m1.t.getCall);
  }

  /** The machine a session starts from. */
  predicate Ready(m: Machine) {
    Coherent(m) && m.h.phase.Idle?
  }

  /** Open, with nothing read yet. */
  predicate JustOpened(m: Machine, rows: seq<Row>, d3: bool, mode: int) {
    && WalkState(m, Open) && Reconciled(m)
    && m.rows == rows && m.y == FreshTally
    && !m.h.drifted && m.h.d3Bound == d3 && m.t.mode == mode
  }

  lemma GateDecides(env: Env, m: Machine, d3: bool)
    requires env.faults == [] && Ready(m)
    ensures var g := ProfileGets(env, Prepared(m, d3), 1);
      && (ProfileExact(env, m.rows) <==> g.gate == Exact)
      && g.m.p == FreshProfile.(present := g.m.p.present, retained := g.m.p.retained)
      && g.m.t.closes == m.t.closes && g.m.t.mode == m.t.mode
      && g.m.h == FreshHold.(txnLive := true, d3Bound := d3, fence := g.m.h.fence)
      && ReopenIsClose(g.m) && Closable(g.m)
  {
    hide ShapeOf, CountPeerGets, CountCloses, ProfileGets, Lookup, ProfileComplete;
    ShapeStep(m.t.trace, BeginReadOnly);
    CountStep(m.t.trace, BeginReadOnly);
    assert IdsBelow(1) == {};
    GetsDecide(env, Prepared(m, d3), 1);
    ProfileCoherent(env, Prepared(m, d3), 1);
  }

  lemma BeginDecides(env: Env, m: Machine, d3: bool)
    requires env.faults == [] && Ready(m)
    ensures Begin(env, m, d3).Next?
    ensures var r := Begin(env, m, d3).m;
      && (r.h.phase.Open? || (r.h.phase.Done? && r.h.sticky.Some?))
      && (r.h.phase.Open? ==> JustOpened(r, m.rows, d3, m.t.mode))
      && (ProfileExact(env, m.rows) <==> r.h.phase.Open? && r.p.exact)
      && (r.h.phase.Open? && r.p.exact ==> !r.p.mismatch && !r.p.future && r.t.reopen == m.t.reopen)
      && (r.h.phase.Open? && !r.p.exact ==> r.p.mismatch || r.p.future)
  {
    GateDecides(env, m, d3);
    BeginCoherent(env, m, d3);
    BeginReconciles(env, m, d3);
    hide ShapeOf, CountPeerGets, CountCloses, ProfileGets, Cleanup, FindFault, ProfileExact, Reconciled;
    var GateResult(m3, gate) := ProfileGets(env, Prepared(m, d3), 1);
    if gate.Refused? {
      CleanupCoherent(env, m3.(h := Stick(m3.h, gate.status)));
    } else {
      NoFault(env, m3.(p := Judged(m3.p, gate)), OnIterOpen, 1);
    }
  }

  // ----- one row

  /** Walking under an exact profile, nothing future seen yet. */
  predicate Walking(m: Machine) {
    && WalkState(m, Open) && Reconciled(m)
    && m.p.exact && !m.p.mismatch && !m.p.future
    && !m.y.futureSeen
  }

  /** A row that is not good ends the walk or is remembered as future. */
  predicate Flagged(r: Tick) {
    match r
    case TickCrash => true
    case Stop(m, _) => m.h.phase.Failed?
    case Go(m) => m.y.futureSeen
  }

  predicate Passed(r: Tick) {
    r.Go? && !r.m.y.futureSeen
  }

  lemma TypedDecides(env: Env, m: Machine, row: Row)
    requires env.faults == [] && m.h.sticky.None? && !m.y.futureSeen
    ensures var good := m.h.d3Bound ==> PeerVerdict(env, m.t.mode, m.rows, row) == Met;
      if good then Passed(TickTyped(env, m, row)) else Flagged(TickTyped(env, m, row))
  {
    hide PeerVerdict, ApplyPeer;
    PeerWithoutFaults(env, m, row);
  }

  lemma DomainDecides(env: Env, m: Machine, row: Row)
    requires env.faults == [] && m.h.sticky.None? && !m.y.futureSeen
    requires m.p.exact && env.root(row.key, row.val) == CurrentRoot
    ensures var r := TickDomain(env, m, row);
      if DomainGood(env, m.h.d3Bound, m.t.mode, m.rows, row) then Passed(r) else Flagged(r)
  {
    hide PeerVerdict, TickTyped;
    TypedDecides(env, m.(y := m.y.(currentDomain := m.y.currentDomain + 1)), row);
  }

  lemma PlainRowDecides(env: Env, m: Machine, row: Row)
    requires env.faults == [] && m.h.sticky.None? && !m.y.futureSeen
    requires m.p.exact && !m.p.mismatch && !m.p.future
    requires WithinCaps(row) && (m.y.previous.Some? ==> Less(m.y.previous.value, row.key))
    requires CatalogId(row.key).None?
    ensures var r := TickRow(env, m, row);
      if DomainGood(env, m.h.d3Bound, m.t.mode, m.rows, row) then Passed(r) else Flagged(r)
  {
    hide TickDomain, PeerVerdict, Less, CatalogId;
    if env.root(row.key, row.val) == CurrentRoot {
      DomainDecides(env, m, row);
    }
  }

  lemma OutOfPlace(env: Env, m: Machine, row: Row)
    requires !(WithinCaps(row) && (m.y.previous.Some? ==> Less(m.y.previous.value, row.key)))
    ensures Flagged(TickRow(env, m, row))
  {
    hide Less;
  }

  lemma TickDecides(env: Env, m: Machine)
    requires env.faults == [] && Walking(m) && m.y.rowIndex < |m.rows|
    ensures var r := TickOnce(env, m);
      if RowGood(env, m.h.d3Bound, m.t.mode, m.rows, m.y.rowIndex) then Passed(r) && Walking(r.m) && SameFrame(m, r.m)
        && r.m.y.rowIndex == m.y.rowIndex + 1
      else Flagged(r)
  {
    hide TickRow, DomainGood, Less, CatalogId, ShapeOf, CountPeerGets, CountCloses, Lookup, Ascending, SeenUpTo, RetainedFrom,
         PeersCounted, ReopenIsClose, InWalk;
    var i := m.y.rowIndex;
    var row := m.rows[i];
    var m0 := Emit(m, IterNext);
    var m1 := m0.(y := m0.y.(rowIndex := i + 1));
    if !InPlace(m.rows, i) {
      OutOfPlace(env, m1, row);
    } else if CatalogId(row.key).None? {
      PlainRowDecides(env, m1, row);
    } else {
      var id := CatalogId(row.key).value;
      CatalogRowAgrees(m, id);
      RowIsCatalog(env, m1, row, id);
    }
    if TickOnce(env, m).Go? {
      TickCoherent(env, m);
      RowReconciles(env, m);
      GoAdvances(env, m);
    }
  }

  lemma GoAdvances(env: Env, m: Machine)
    requires Reconciled(m) && TickOnce(env, m).Go? && m.y.rowIndex < |m.rows|
    ensures TickOnce(env, m).m.y.rowIndex == m.y.rowIndex + 1
  {
    hide TickRow, TickCatalog, TickDomain, CatalogId, Lookup, Less;
    var row := m.rows[m.y.rowIndex];
    var m0 := Emit(m, IterNext);
    var m1 := m0.(y := m0.y.(rowIndex := m.y.rowIndex + 1));
    if CatalogId(row.key).None? {
      RowKeepsCount(env, m1, row);
    } else {
      RowIsCatalog(env, m1, row, CatalogId(row.key).value);
      CatalogCounts(m1, row, CatalogId(row.key).value);
    }
  }

  // ----- the whole walk

  lemma {:induction false} FutureStays(env: Env, m: Machine, left: int)
    requires m.y.futureSeen && Walk(env, m, left).Next?
    ensures Walk(env, m, left).m.y.futureSeen
    decreases left
  {
    hide TickOnce;
    if left > 0 {
      FutureStaysOnce(env, m);
      var r := TickOnce(env, m);
      if r.Go? { FutureStays(env, r.m, left - 1); }
    }
  }

  lemma FutureStaysOnce(env: Env, m: Machine)
    requires m.y.futureSeen
    ensures TickOnce(env, m).Go? ==> TickOnce(env, m).m.y.futureSeen
    ensures TickOnce(env, m).Stop? ==> TickOnce(env, m).m.y.futureSeen
  {
    hide TickDomain, Less, CatalogId;
    if m.y.rowIndex < |m.rows| {
      var m0 := Emit(m, IterNext);
      FutureStaysDomain(env, m0.(y := m0.y.(rowIndex := m0.y.rowIndex + 1)), m.rows[m.y.rowIndex]);
    }
  }

  lemma FutureStaysDomain(env: Env, m: Machine, row: Row)
    requires m.y.futureSeen
    ensures TickDomain(env, m, row).Go? ==> TickDomain(env, m, row).m.y.futureSeen
    ensures TickDomain(env, m, row).Stop? ==> TickDomain(env, m, row).m.y.futureSeen
  {
    hide ApplyPeer;
    var m1 := m.(y := m.y.(currentDomain := m.y.currentDomain + 1));
    if ApplyPeer(env, m1, row).PeerDone? {
      PeerEffect(env, m1, row);
    }
  }

  /** How a walk with budget to spare ends. */
  predicate CleanEnd(o: Outcome) {
    o.Next? && o.m.h.phase.Exhausted? && !o.m.y.futureSeen
  }

  lemma {:induction false} WalkDecides(env: Env, m: Machine, left: int)
    requires env.faults == [] && Walking(m)
    requires left > |m.rows| - m.y.rowIndex
    ensures CleanEnd(Walk(env, m, left)) <==>
      forall i :: m.y.rowIndex <= i < |m.rows| ==> RowGood(env, m.h.d3Bound, m.t.mode, m.rows, i)
    decreases left
  {
    hide TickOnce, RowGood, ShapeOf, CountPeerGets, CountCloses, Lookup, Ascending, SeenUpTo, RetainedFrom, PeersCounted,
         ReopenIsClose, InWalk;
    var i := m.y.rowIndex;
    if i == |m.rows| {
      EndMaskAgrees(m);
      TickEnds(env, m);
    } else {
      TickDecides(env, m);
      var r := TickOnce(env, m);
      if RowGood(env, m.h.d3Bound, m.t.mode, m.rows, i) {
        WalkDecides(env, r.m, left - 1);
      } else if r.Go? && Walk(env, r.m, left - 1).Next? {
        FutureStays(env, r.m, left - 1);
      }
    }
  }

  lemma TickEnds(env: Env, m: Machine)
    requires m.y.rowIndex == |m.rows| && m.y.seen == m.p.present
    ensures TickOnce(env, m) == Stop(Emit(m, IterNext).(h := m.h.(phase := Exhausted)), Ok)
  {
    hide TickRow;
  }

  lemma {:induction false} WalkEnds(env: Env, m: Machine, left: int)
    requires WalkState(m, Open) && Reconciled(m)
    requires left > |m.rows| - m.y.rowIndex
    requires Walk(env, m, left).Next?
    ensures !Walk(env, m, left).m.h.phase.Open?
    decreases left
  {
    hide TickOnce, ShapeOf, CountPeerGets, CountCloses, Lookup;
    TickCoherent(env, m);
    var r := TickOnce(env, m);
    if r.Go? {
      TickAtEnd(env, m);
      RowReconciles(env, m);
      GoAdvances(env, m);
      WalkEnds(env, r.m, left - 1);
    }
  }

  // ----- the whole session

  function TotalBudget(budgets: seq<int>): nat {
    if budgets == [] then 0
    else (if budgets[0] > 0 then budgets[0] else 0) + TotalBudget(budgets[1..])
  }

  function Advances(budgets: seq<int>): (calls: seq<Call>)
    ensures |calls| == |budgets|
  {
    if budgets == [] then [] else [Advance(budgets[0])] + Advances(budgets[1..])
  }

  /** However a budget is split over calls, even with idle ones, it is one walk. */
  lemma {:induction false} AdvancesWalk(env: Env, m: Machine, budgets: seq<int>)
    requires WalkState(m, Open) && !m.h.drifted
    ensures var w := Walk(env, m, TotalBudget(budgets));
      var r := Run(env, m, Advances(budgets));
      (w.Next? <==> r.Ran?) && (r.Ran? && w.Next? ==> r.m == w.m)
    decreases |budgets|
  {
    hide ShapeOf, CountPeerGets, CountCloses, Walk, Step;
    if budgets != [] {
      var b := budgets[0];
      var rest := Advances(budgets[1..]);
      assert ([Advance(b)] + rest)[1..] == rest;
      StepOfAdvance(env, m, b);
      if b > 0 {
        WalkFusion(env, m, b, TotalBudget(budgets[1..]));
        if Walk(env, m, b).Next? {
          WalkCoherent(env, m, b);
          var m1 := Walk(env, m, b).m;
          if m1.h.phase.Open? {
            AdvancesWalk(env, m1, budgets[1..]);
          } else {
            AdvancesIdle(env, m1, budgets[1..]);
          }
        }
      } else {
        AssertNoWalk(env, m, b);
        AdvancesWalk(env, m, budgets[1..]);
      }
    } else {
      AssertNoWalk(env, m, 0);
    }
  }

  lemma AssertNoWalk(env: Env, m: Machine, b: int)
    requires b <= 0
    ensures Walk(env, m, b) == Next(m, Ok)
  {
  }

  lemma {:induction false} AdvancesIdle(env: Env, m: Machine, budgets: seq<int>)
    requires !m.h.phase.Open?
    ensures Run(env, m, Advances(budgets)).Ran? && Run(env, m, Advances(budgets)).m == m
    decreases |budgets|
  {
    hide Walk, Step;
    if budgets != [] {
      assert ([Advance(budgets[0])] + Advances(budgets[1..]))[1..] == Advances(budgets[1..]);
      StepOfAdvance(env, m, budgets[0]);
      AdvancesIdle(env, m, budgets[1..]);
    }
  }

  function Opening(d3: bool, mode: int): Call {
    if d3 then BeginCrossRow(mode, false) else BeginProfiled(false)
  }

  function ScanCalls(d3: bool, mode: int, budgets: seq<int>): seq<Call> {
    [Opening(d3, mode)] + (Advances(budgets) + [Finalize])
  }

  /** The run of a scan, as opening, walking and finalizing. */
  function ScanEnd(env: Env, d3: bool, mode: int, rows: seq<Row>, budgets: seq<int>): Trail {
    var m := FreshMachine(rows);
    var begun := Begin(env, m.(t := m.t.(mode := if d3 then mode else 0)), d3);
    if begun.Crash? then Halted
    else Prefixed([begun.status], Then(env, Run(env, begun.m, Advances(budgets)), [Finalize]))
  }

  lemma ScanIsItsParts(env: Env, d3: bool, mode: int, rows: seq<Row>, budgets: seq<int>)
    requires d3 ==> 1 <= mode <= 20
    ensures Run(env, FreshMachine(rows), ScanCalls(d3, mode, budgets)) == ScanEnd(env, d3, mode, rows, budgets)
  {
    hide Begin;
    var m := FreshMachine(rows);
    var rest := Advances(budgets) + [Finalize];
    assert ScanCalls(d3, mode, budgets)[1..] == rest;
    var begun := Begin(env, m.(t := m.t.(mode := if d3 then mode else 0)), d3);
    assert Step(env, m, Opening(d3, mode)) == begun;
    if begun.Next? {
      RunAppend(env, begun.m, Advances(budgets), [Finalize]);
    }
  }

  lemma FinalizeReturns(env: Env, m: Machine)
    ensures DoFinalize(env, m).Next?
  {
    hide Cleanup;
  }

  lemma FinalizeRuns(env: Env, m: Machine)
    ensures Run(env, m, [Finalize]) == Ran(DoFinalize(env, m).m, [DoFinalize(env, m).status])
  {
    hide DoFinalize;
    var calls := [Finalize];
    assert calls[1..] == [];
    var o := DoFinalize(env, m);
    assert Step(env, m, calls[0]) == o;
    assert o.Next? by { FinalizeReturns(env, m); }
    assert [o.status] + [] == [o.status];
  }

  /** Finalizing without faults adopts exactly a clean, exhausted, matching walk. */
  lemma FinalizeDecides(env: Env, m: Machine)
    requires env.faults == []
    requires Coherent(m) && !m.t.reopen
    ensures var o := DoFinalize(env, m);
      CleanFinish(o.m, o.status)
      <==> (m.h.phase.Exhausted? && !m.p.mismatch && !m.p.future && !m.y.futureSeen)
  {
    hide ShapeOf, CountPeerGets, CountCloses, FindFault, CountRollbacks;
    if m.h.phase.Exhausted? {
      NoFault(env, CloseIterator(m), OnRollback, 1 + CountRollbacks(CloseIterator(m).t.trace));
    } else if m.h.phase.Failed? {
      CleanupCoherent(env, m);
    }
  }

  lemma LastIsFinalize(d3: bool, mode: int, budgets: seq<int>)
    ensures |ScanCalls(d3, mode, budgets)| > 0
    ensures ScanCalls(d3, mode, budgets)[|ScanCalls(d3, mode, budgets)| - 1] == Finalize
  {
  }

  /** The last status and the final machine are those of finalizing the walked machine. */
  lemma ScanAdopts(env: Env, d3: bool, mode: int, rows: seq<Row>, budgets: seq<int>)
    requires env.faults == [] && (d3 ==> 1 <= mode <= 20)
    ensures var calls := ScanCalls(d3, mode, budgets);
      var m := FreshMachine(rows);
      var begun := Begin(env, m.(t := m.t.(mode := if d3 then mode else 0)), d3);
      begun.Next?
      && (Adopted(calls, Run(env, m, calls)) <==>
            var walked := Run(env, begun.m, Advances(budgets));
            walked.Ran? && Adopted([Finalize], Run(env, walked.m, [Finalize])))
  {
    var m := FreshMachine(rows);
    assert Ready(m);
    hide Begin, DoFinalize, Step, Coherent, CleanFinish, Run, ScanCalls, Advances;
    BeginCoherent(env, m.(t := m.t.(mode := if d3 then mode else 0)), d3);
    ScanIsItsParts(env, d3, mode, rows, budgets);
    var calls := ScanCalls(d3, mode, budgets);
    LastIsFinalize(d3, mode, budgets);
    var begun := Begin(env, m.(t := m.t.(mode := if d3 then mode else 0)), d3);
    var walked := Run(env, begun.m, Advances(budgets));
    if walked.Ran? {
      FinalizeRuns(env, walked.m);
    }
  }

  lemma FinalizeAdopts(env: Env, m: Machine)
    requires env.faults == []
    requires Coherent(m) && !m.t.reopen
    ensures Adopted([Finalize], Run(env, m, [Finalize]))
      <==> m.h.phase.Exhausted? && !m.p.mismatch && !m.p.future && !m.y.futureSeen
  {
    hide Coherent, DoFinalize, CleanFinish;
    FinalizeRuns(env, m);
    FinalizeDecides(env, m);
  }

  lemma AdvancesCoherent(env: Env, m: Machine, budgets: seq<int>)
    requires Coherent(m) && Run(env, m, Advances(budgets)).Ran?
    ensures Coherent(Run(env, m, Advances(budgets)).m)
  {
    hide Coherent, Step;
    RunCoherent(env, m, Advances(budgets));
  }

  lemma WalkOfScan(env: Env, m: Machine, d3: bool, mode: int, budgets: seq<int>)
    requires env.faults == []
    requires JustOpened(m, m.rows, d3, mode) && Coherent(m) && !m.t.reopen
    requires if m.p.exact then !m.p.mismatch && !m.p.future else m.p.mismatch || m.p.future
    requires TotalBudget(budgets) > |m.rows|
    ensures var walked := Run(env, m, Advances(budgets));
      (walked.Ran? && Adopted([Finalize], Run(env, walked.m, [Finalize]))) <==>
      (m.p.exact && forall i :: 0 <= i < |m.rows| ==> RowGood(env, d3, mode, m.rows, i))
  {
    hide ShapeOf, CountPeerGets, CountCloses, Walk, RowGood, Step, Lookup, DoFinalize;
    AdvancesWalk(env, m, budgets);
    var walked := Run(env, m, Advances(budgets));
    if m.p.exact {
      WalkDecides(env, m, TotalBudget(budgets));
    }
    if walked.Ran? {
      WalkCoherent(env, m, TotalBudget(budgets));
      AdvancesCoherent(env, m, budgets);
      FinalizeAdopts(env, walked.m);
    }
  }

  /**
   A fault-free scan with budget for every row and the end is adopted if and only if
   the snapshot is consistent for its mode.
   */
  lemma AdoptedIffConsistent(env: Env, d3: bool, mode: int, rows: seq<Row>, budgets: seq<int>)
    requires env.faults == [] && (d3 ==> 1 <= mode <= 20)
    requires TotalBudget(budgets) > |rows|
    ensures var calls := ScanCalls(d3, mode, budgets);
      Adopted(calls, Run(env, FreshMachine(rows), calls))
      <==> Consistent(env, d3, if d3 then mode else 0, rows)
  {
    var m := FreshMachine(rows);
    var m1 := m.(t := m.t.(mode := if d3 then mode else 0));
    assert Ready(m1);
    hide ShapeOf, CountPeerGets, CountCloses, Begin, Step, RowGood, ProfileExact, Lookup, Adopted;
    ScanAdopts(env, d3, mode, rows, budgets);
    BeginDecides(env, m1, d3);
    BeginCoherent(env, m1, d3);
    var r := Begin(env, m1, d3).m;
    if r.h.phase.Open? {
      NotYetReopened(env, m1, d3);
      WalkOfScan(env, r, d3, m1.t.mode, budgets);
    } else {
      AdvancesIdle(env, r, budgets);
      DoneIsNotAdopted(env, r);
    }
  }

  lemma NotYetReopened(env: Env, m: Machine, d3: bool)
    requires env.faults == [] && Ready(m) && !m.t.reopen
    requires Begin(env, m, d3).Next? && Begin(env, m, d3).m.h.phase.Open?
    ensures !Begin(env, m, d3).m.t.reopen
  {
    hide ShapeOf, CountPeerGets, CountCloses, ProfileGets, FindFault, Cleanup, ProfileExact;
    GateDecides(env, m, d3);
    var g := ProfileGets(env, Prepared(m, d3), 1);
    if g.gate.Refused? {
      CleanupCoherent(env, g.m.(h := Stick(g.m.h, g.gate.status)));
    }
  }

  lemma DoneIsNotAdopted(env: Env, m: Machine)
    requires m.h.phase.Done?
    ensures !Adopted([Finalize], Run(env, m, [Finalize]))
  {
    assert [Finalize][1..] == [];
  }

  // ----- scans that stop with an uncaught error

  /**
   A row in order, outside the profile and of the current root, on which the classification
   raises, or the check of the peer it needs.
   */
  predicate RowRaises(env: Env, d3: bool, mode: int, rows: seq<Row>, i: nat)
    requires i < |rows|
  {
    && InPlace(rows, i) && CatalogId(rows[i].key).None?
    && env.root(rows[i].key, rows[i].val) == CurrentRoot
    && match env.classify(rows[i].key, rows[i].val)
       case RowCrash => true
       case RowTyped => d3 && PeerVerdict(env, mode, rows, rows[i]) == CheckCrash
       case _ => false
  }

  function ModeOf(d3: bool, mode: int): int {
    if d3 then mode else 0
  }

  lemma TypedRaises(env: Env, m: Machine, row: Row)
    requires env.faults == [] && m.h.sticky.None? && m.h.d3Bound
    requires PeerVerdict(env, m.t.mode, m.rows, row) == CheckCrash
    ensures TickTyped(env, m, row) == TickCrash
  {
    hide PeerVerdict, ApplyPeer;
    PeerWithoutFaults(env, m, row);
  }

  lemma DomainRaises(env: Env, m: Machine, row: Row)
    requires env.faults == [] && m.h.sticky.None? && m.p.exact
    requires match env.classify(row.key, row.val)
             case RowCrash => true
             case RowTyped => m.h.d3Bound && PeerVerdict(env, m.t.mode, m.rows, row) == CheckCrash
             case _ => false
    ensures TickDomain(env, m, row) == TickCrash
  {
    hide PeerVerdict, TickTyped;
    if env.classify(row.key, row.val) == RowTyped {
      TypedRaises(env, m.(y := m.y.(currentDomain := m.y.currentDomain + 1)), row);
    }
  }

  lemma TickRaises(env: Env, m: Machine)
    requires env.faults == [] && Walking(m) && m.y.rowIndex < |m.rows|
    requires RowRaises(env, m.h.d3Bound, m.t.mode, m.rows, m.y.rowIndex)
    ensures TickOnce(env, m) == TickCrash
  {
    hide Less, CatalogId, ShapeOf, CountPeerGets, CountCloses, Lookup, Ascending, SeenUpTo, RetainedFrom, PeerVerdict,
         TickDomain;
    var m0 := Emit(m, IterNext);
    DomainRaises(env, m0.(y := m0.y.(rowIndex := m.y.rowIndex + 1)), m.rows[m.y.rowIndex]);
  }

  lemma {:induction false} WalkRaises(env: Env, m: Machine, left: int, i: nat)
    requires env.faults == [] && Walking(m) && m.y.rowIndex <= i < |m.rows|
    requires forall j :: m.y.rowIndex <= j < i ==> RowGood(env, m.h.d3Bound, m.t.mode, m.rows, j)
    requires RowRaises(env, m.h.d3Bound, m.t.mode, m.rows, i) && left > i - m.y.rowIndex
    ensures Walk(env, m, left) == Crash
    decreases left
  {
    hide TickOnce, RowGood, RowRaises, Walking, Lookup;
    if m.y.rowIndex == i {
      TickRaises(env, m);
    } else {
      assert RowGood(env, m.h.d3Bound, m.t.mode, m.rows, m.y.rowIndex);
      TickDecides(env, m);
      WalkRaises(env, TickOnce(env, m).m, left - 1, i);
    }
  }

  /**
   When a row raises and everything before the row is good, the scan
   does not return: the error ends the run as soon as the budget reaches the row.
   */
  lemma ScanRaises(env: Env, d3: bool, mode: int, rows: seq<Row>, budgets: seq<int>, i: nat)
    requires env.faults == [] && (d3 ==> 1 <= mode <= 20)
    requires i < |rows| && TotalBudget(budgets) > i
    requires ProfileExact(env, rows) && RowRaises(env, d3, ModeOf(d3, mode), rows, i)
    requires forall j :: 0 <= j < i ==> RowGood(env, d3, ModeOf(d3, mode), rows, j)
    ensures Run(env, FreshMachine(rows), ScanCalls(d3, mode, budgets)) == Halted
  {
    FreshIsReady(rows, ModeOf(d3, mode));
    var m := FreshMachine(rows);
    var m1 := m.(t := m.t.(mode := ModeOf(d3, mode)));
    hide Begin, Step, Run, RowGood, RowRaises, ProfileExact, ScanCalls, Advances, JustOpened, Ready;
    BeginDecides(env, m1, d3);
    ScanIsItsParts(env, d3, mode, rows, budgets);
    OpenedRaises(env, Begin(env, m1, d3).m, rows, d3, ModeOf(d3, mode), budgets, i);
  }

  lemma FreshIsReady(rows: seq<Row>, mode: int)
    ensures var m := FreshMachine(rows); Ready(m.(t := m.t.(mode := mode)))
  {
  }

  lemma OpenedRaises(env: Env, m: Machine, rows: seq<Row>, d3: bool, mode: int, budgets: seq<int>, i: nat)
    requires env.faults == [] && i < |rows| && TotalBudget(budgets) > i
    requires JustOpened(m, rows, d3, mode) && m.p.exact && !m.p.mismatch && !m.p.future
    requires RowRaises(env, d3, mode, rows, i) && forall j :: 0 <= j < i ==> RowGood(env, d3, mode, rows, j)
    ensures Run(env, m, Advances(budgets)) == Halted
  {
    hide Step, Run, Walk, RowGood, RowRaises, Advances, ShapeOf, CountPeerGets, CountCloses, Lookup, Reconciled;
    AdvancesWalk(env, m, budgets);
    WalkRaises(env, m, TotalBudget(budgets), i);
  }
}
