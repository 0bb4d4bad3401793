/** Which status a session ends with, and what a failing port makes of it. */
module StatusLaws {
  import opened Octets
  import opened Catalog
  import opened SessionMachine
  import opened TraceLaws
  import opened SessionLaws
  import opened Isolation
  import opened Reconcile
  import opened Adoption
  import opened Records
  import opened CrossRow
  import opened CrossRowSpec

  // ----- port codes

  /** Four port codes have a status of their own, one is a missing schema, two are no failure; all others are corruption. */
  lemma PortStatusIs(code: PortCode)
    ensures MapStorage(code) == WouldBlock <==> code == Busy
    ensures MapStorage(code) == CapacityExhausted <==> code == NoSpace
    ensures MapStorage(code) == Storage <==> code == IoError
    ensures MapStorage(code) == CommitUnknown <==> code == UnknownCommit
    ensures MapStorage(code) == Unsupported <==> code == UnsupportedSchema
    ensures MapStorage(code) == Ok <==> code in {PortOk, NotFound}
    ensures MapStorage(code) == StorageCorrupt <==> code in {Corrupt, BufferTooSmall, UnknownRaw, OtherCode}
  {
  }

  // ----- rows of a later version

  /** A row in order that is of a later root or a later record version. */
  predicate RowLater(env: Env, rows: seq<Row>, i: nat)
    requires i < |rows|
  {
    && InPlace(rows, i) && CatalogId(rows[i].key).None?
    && (env.root(rows[i].key, rows[i].val) == FutureRoot
        || (env.root(rows[i].key, rows[i].val) == CurrentRoot && env.classify(rows[i].key, rows[i].val) == RowFuture))
  }

  /** Walking under an exact profile. */
  predicate Steady(m: Machine) {
    && WalkState(m, Open) && Reconciled(m)
    && m.p.exact && !m.p.mismatch && !m.p.future
  }

  predicate Refused(r: Tick) {
    r.TickCrash? || (r.Stop? && r.status == StorageCorrupt && r.m.h.phase.Failed? && r.m.h.sticky == Some(StorageCorrupt))
  }

  predicate WentOn(r: Tick, later: bool) {
    r.Go? && r.m.y.futureSeen == later
  }

  lemma TypedStatus(env: Env, m: Machine, row: Row)
    requires env.faults == [] && m.h.sticky.None?
    ensures var good := m.h.d3Bound ==> PeerVerdict(env, m.t.mode, m.rows, row) == Met;
      if good then WentOn(TickTyped(env, m, row), m.y.futureSeen) else Refused(TickTyped(env, m, row))
  {
    hide PeerVerdict, ApplyPeer;
    PeerWithoutFaults(env, m, row);
  }

  lemma DomainStatus(env: Env, m: Machine, row: Row)
    requires env.faults == [] && m.h.sticky.None? && m.p.exact && env.root(row.key, row.val) == CurrentRoot
    ensures var r := TickDomain(env, m, row);
      if DomainGood(env, m.h.d3Bound, m.t.mode, m.rows, row) then WentOn(r, m.y.futureSeen)
      else if env.classify(row.key, row.val) == RowFuture then WentOn(r, true)
      else Refused(r)
  {
    hide PeerVerdict, TickTyped;
    TypedStatus(env, m.(y := m.y.(currentDomain := m.y.currentDomain + 1)), row);
  }

  lemma PlainStatus(env: Env, m: Machine, row: Row)
    requires env.faults == [] && m.h.sticky.None? && m.p.exact && !m.p.mismatch && !m.p.future
    requires WithinCaps(row) && (m.y.previous.Some? ==> Less(m.y.previous.value, row.key)) && CatalogId(row.key).None?
    ensures var r := TickRow(env, m, row);
      if DomainGood(env, m.h.d3Bound, m.t.mode, m.rows, row) then WentOn(r, m.y.futureSeen)
      else if env.root(row.key, row.val) == FutureRoot
              || (env.root(row.key, row.val) == CurrentRoot && env.classify(row.key, row.val) == RowFuture) then WentOn(r, true)
      else Refused(r)
  {
    hide TickDomain, PeerVerdict, Less, CatalogId;
    if env.root(row.key, row.val) == CurrentRoot {
      DomainStatus(env, m, row);
    }
  }

  lemma MisplacedStatus(env: Env, m: Machine, row: Row)
    requires m.h.sticky.None?
    requires !(WithinCaps(row) && (m.y.previous.Some? ==> Less(m.y.previous.value, row.key)))
    ensures Refused(TickRow(env, m, row))
  {
    hide Less;
  }

  /** One row of a walk under an exact profile: passed, remembered as later, or corrupt. */
  lemma TickStatus(env: Env, m: Machine)
    requires env.faults == [] && Steady(m) && m.y.rowIndex < |m.rows|
    ensures var r := TickOnce(env, m);
      if RowGood(env, m.h.d3Bound, m.t.mode, m.rows, m.y.rowIndex) then WentOn(r, m.y.futureSeen)
      else if RowLater(env, m.rows, m.y.rowIndex) then WentOn(r, true)
      else Refused(r)
  {
    hide TickRow, DomainGood, Less, CatalogId, ShapeOf, CountPeerGets, CountCloses, Lookup, Ascending, SeenUpTo, RetainedFrom,
         PeersCounted, ReopenIsClose, InWalk;
    var i := m.y.rowIndex;
    var row := m.rows[i];
    var m0 := Emit(m, IterNext);
    var m1 := m0.(y := m0.y.(rowIndex := i + 1));
    if !InPlace(m.rows, i) {
      MisplacedStatus(env, m1, row);
    } else if CatalogId(row.key).None? {
      PlainStatus(env, m1, row);
    } else {
      var id := CatalogId(row.key).value;
      CatalogRowAgrees(m, id);
      RowIsCatalog(env, m1, row, id);
    }
  }

  lemma TickSteady(env: Env, m: Machine)
    requires env.faults == [] && WalkState(m, Open) && Reconciled(m) && m.y.rowIndex < |m.rows| && TickOnce(env, m).Go?
    ensures var n := TickOnce(env, m).m;
      && WalkState(n, Open) && Reconciled(n) && n.y.rowIndex == m.y.rowIndex + 1
      && SameFrame(m, n)
  {
    hide TickOnce, ShapeOf, CountPeerGets, CountCloses, Lookup;
    TickCoherent(env, m);
    RowReconciles(env, m);
    GoAdvances(env, m);
  }

  // ----- a whole walk

  predicate GoodOrLater(env: Env, d3: bool, mode: int, rows: seq<Row>, i: nat)
    requires i < |rows|
  {
    RowGood(env, d3, mode, rows, i) || RowLater(env, rows, i)
  }

  /** How a walk with budget to spare ends: at the end, knowing whether a later row was seen, or in corruption. */
  predicate EndsAs(o: Outcome, exhausted: bool, later: bool) {
    o.Next? ==>
      if exhausted then o.m.h.phase.Exhausted? && o.m.y.futureSeen == later
      else o.m.h.phase.Failed? && o.m.h.sticky == Some(StorageCorrupt)
  }

  lemma {:induction false} WalkStatus(env: Env, m: Machine, left: int)
    requires env.faults == [] && Steady(m) && left > |m.rows| - m.y.rowIndex
    ensures EndsAs(Walk(env, m, left),
      forall i :: m.y.rowIndex <= i < |m.rows| ==> GoodOrLater(env, m.h.d3Bound, m.t.mode, m.rows, i),
      m.y.futureSeen || exists i :: m.y.rowIndex <= i < |m.rows| && !RowGood(env, m.h.d3Bound, m.t.mode, m.rows, i))
    decreases left
  {
    hide TickOnce, RowGood, RowLater, ShapeOf, CountPeerGets, CountCloses, Lookup, Ascending, SeenUpTo, RetainedFrom,
         PeersCounted, ReopenIsClose, InWalk;
    var i := m.y.rowIndex;
    if i == |m.rows| {
      EndMaskAgrees(m);
      TickEnds(env, m);
    } else {
      TickStatus(env, m);
      var r := TickOnce(env, m);
      if GoodOrLater(env, m.h.d3Bound, m.t.mode, m.rows, i) {
        TickSteady(env, m);
        WalkStatus(env, r.m, left - 1);
      }
    }
  }

  // ----- a walk under another binding or a later profile

  /** Walking only to see that the rows are in order. */
  predicate Passing(m: Machine) {
    && WalkState(m, Open) && Reconciled(m)
    && (m.p.mismatch || m.p.future) && !m.p.exact
  }

  lemma PassingTick(env: Env, m: Machine)
    requires Passing(m) && m.y.rowIndex < |m.rows|
    ensures var r := TickOnce(env, m);
      if InPlace(m.rows, m.y.rowIndex) then WentOn(r, m.y.futureSeen) else Refused(r)
  {
    hide TickDomain, Less, CatalogId, ShapeOf, CountPeerGets, CountCloses, Lookup, Ascending, SeenUpTo, RetainedFrom,
         PeersCounted, ReopenIsClose, InWalk;
    var i := m.y.rowIndex;
    var row := m.rows[i];
    var m0 := Emit(m, IterNext);
    var m1 := m0.(y := m0.y.(rowIndex := i + 1));
    if InPlace(m.rows, i) && CatalogId(row.key).Some? {
      CatalogRowAgrees(m, CatalogId(row.key).value);
      RowIsCatalog(env, m1, row, CatalogId(row.key).value);
    }
  }

  lemma {:induction false} PassingWalk(env: Env, m: Machine, left: int)
    requires env.faults == [] && Passing(m) && left > |m.rows| - m.y.rowIndex
    ensures Walk(env, m, left).Next?
    ensures EndsAs(Walk(env, m, left), forall i :: m.y.rowIndex <= i < |m.rows| ==> InPlace(m.rows, i), m.y.futureSeen)
    decreases left
  {
    hide TickOnce, InPlace, ShapeOf, CountPeerGets, CountCloses, Lookup, Ascending, SeenUpTo, RetainedFrom,
         PeersCounted, ReopenIsClose, InWalk;
    var i := m.y.rowIndex;
    PassingNeverHalts(env, m);
    if i == |m.rows| {
      EndMaskAgrees(m);
      TickEnds(env, m);
    } else {
      PassingTick(env, m);
      var r := TickOnce(env, m);
      if InPlace(m.rows, i) {
        TickSteady(env, m);
        PassingWalk(env, r.m, left - 1);
      }
    }
  }

  lemma PassingNeverHalts(env: Env, m: Machine)
    requires Passing(m)
    ensures !TickOnce(env, m).TickCrash?
  {
    hide TickDomain, Less, CatalogId, ShapeOf, CountPeerGets, CountCloses, Lookup, Ascending, SeenUpTo, RetainedFrom;
  }

  // ----- finalizing

  lemma UndisturbedCleanup(env: Env, m: Machine)
    requires var c := CloseIterator(m); ArmedFault(env, c, OnRollback, 1 + CountRollbacks(c.t.trace)).None?
    ensures var r := Cleanup(env, m); r.h.sticky == m.h.sticky && r.p == m.p && r.y == m.y && r.h.phase == Done
  {
    hide FindFault, CountRollbacks, ArmedFault;
  }

  lemma QuietCleanup(env: Env, m: Machine)
    requires env.faults == []
    ensures var r := Cleanup(env, m); r.h.sticky == m.h.sticky && r.p == m.p && r.y == m.y && r.h.phase == Done
  {
    hide FindFault, CountRollbacks, ArmedFault, Consume, Cleanup;
    NoFault(env, CloseIterator(m), OnRollback, 1 + CountRollbacks(CloseIterator(m).t.trace));
    UndisturbedCleanup(env, m);
  }

  lemma FinalizeStatus(env: Env, m: Machine)
    requires env.faults == [] && (m.h.phase.Exhausted? || m.h.phase.Failed?)
    ensures DoFinalize(env, m).Next?
    ensures DoFinalize(env, m).status ==
      if m.h.sticky.Some? then m.h.sticky.value
      else if m.p.mismatch || m.p.future || m.y.futureSeen then Unsupported
      else Ok
  {
    hide Cleanup;
    QuietCleanup(env, m);
  }

  /** The last status of a run that returned. */
  function Last(t: Trail): Status {
    if t.Ran? && t.statuses != [] then t.statuses[|t.statuses| - 1] else Void
  }

  lemma LastOfParts(a: seq<Status>, t: Trail)
    requires t.Ran? && t.statuses != []
    ensures Last(Prefixed(a, t)) == Last(t)
  {
  }

  lemma FinalizeLast(env: Env, walked: Trail)
    requires walked.Ran?
    ensures var t := Then(env, walked, [Finalize]);
      t.Ran? && t.statuses != [] && Last(t) == DoFinalize(env, walked.m).status
  {
    hide DoFinalize;
    FinalizeRuns(env, walked.m);
  }

  /** The scan ends with the status of finalizing the walked machine. */
  lemma LastOfScan(env: Env, d3: bool, mode: int, rows: seq<Row>, budgets: seq<int>)
    requires d3 ==> 1 <= mode <= 20
    ensures var m := FreshMachine(rows);
      var begun := Begin(env, m.(t := m.t.(mode := if d3 then mode else 0)), d3);
      begun.Next? ==>
        var walked := Run(env, begun.m, Advances(budgets));
        var scan := Run(env, m, ScanCalls(d3, mode, budgets));
        (walked.Halted? ==> scan.Halted?)
        && (walked.Ran? ==> scan.Ran? && Last(scan) == DoFinalize(env, walked.m).status)
  {
    hide Begin, DoFinalize, Step, Run, ScanCalls, Advances, Then, Last;
    ScanIsItsParts(env, d3, mode, rows, budgets);
    var m := FreshMachine(rows);
    var begun := Begin(env, m.(t := m.t.(mode := if d3 then mode else 0)), d3);
    if begun.Next? {
      var walked := Run(env, begun.m, Advances(budgets));
      if walked.Ran? {
        FinalizeLast(env, walked);
        LastOfParts([begun.status], Then(env, walked, [Finalize]));
      } else {
        HaltedStays(env, begun.status);
      }
    }
  }

  lemma HaltedStays(env: Env, s: Status)
    ensures Prefixed([s], Then(env, Halted, [Finalize])) == Halted
  {
  }

  // ----- the whole scan

  /** The verdict on the profile rows. */
  function ProfileGate(env: Env, rows: seq<Row>): Gate {
    if ProfileComplete(rows) then env.gate(ProfileValues(rows)) else SessionMachine.Refused(StorageCorrupt)
  }

  lemma GateIs(env: Env, m: Machine, d3: bool)
    requires env.faults == [] && Ready(m)
    ensures ProfileGets(env, Prepared(m, d3), 1).gate == ProfileGate(env, m.rows)
  {
    hide ProfileGets, Lookup, ProfileComplete;
    assert IdsBelow(1) == {};
    GetsDecide(env, Prepared(m, d3), 1);
  }

  lemma OpenedAs(env: Env, m: Machine, d3: bool)
    requires env.faults == [] && Ready(m)
    ensures Begin(env, m, d3).Next?
    ensures var r := Begin(env, m, d3).m;
      var g := ProfileGate(env, m.rows);
      if g.Refused? then r.h.phase.Done?
      else
        && r.h.phase.Open? && JustOpened(r, m.rows, d3, m.t.mode)
        && r.p.exact == (g == Exact) && r.p.mismatch == (g == Mismatch) && r.p.future == (g == Future)
  {
    GateDecides(env, m, d3);
    GateIs(env, m, d3);
    BeginDecides(env, m, d3);
    hide ShapeOf, CountPeerGets, CountCloses, ProfileGets, Cleanup, FindFault, ProfileExact, Reconciled, ProfileGate, JustOpened;
    var GateResult(m3, gate) := ProfileGets(env, Prepared(m, d3), 1);
    NoFault(env, m3.(p := Judged(m3.p, gate)), OnIterOpen, 1);
    if gate.Refused? {
      CleanupCoherent(env, m3.(h := Stick(m3.h, gate.status)));
    }
  }

  /** The status a fault-free scan that returns ends with. */
  function ScanStatus(env: Env, d3: bool, mode: int, rows: seq<Row>): Status {
    match ProfileGate(env, rows)
    case Refused(_) => InvalidState
    case Exact =>
      if exists i :: 0 <= i < |rows| && !GoodOrLater(env, d3, mode, rows, i) then StorageCorrupt
      else if exists i :: 0 <= i < |rows| && !RowGood(env, d3, mode, rows, i) then Unsupported
      else Ok
    case _ => if exists i :: 0 <= i < |rows| && !InPlace(rows, i) then StorageCorrupt else Unsupported
  }

  lemma WalkedStatus(env: Env, d3: bool, mode: int, m: Machine, budgets: seq<int>)
    requires env.faults == [] && JustOpened(m, m.rows, d3, mode) && TotalBudget(budgets) > |m.rows|
    requires !ProfileGate(env, m.rows).Refused?
    requires var g := ProfileGate(env, m.rows);
      m.p.exact == (g == Exact) && m.p.mismatch == (g == Mismatch) && m.p.future == (g == Future)
    requires Run(env, m, Advances(budgets)).Ran?
    ensures DoFinalize(env, Run(env, m, Advances(budgets)).m).status == ScanStatus(env, d3, mode, m.rows)
  {
    hide ShapeOf, CountPeerGets, CountCloses, Walk, RowGood, RowLater, InPlace, Step, Lookup, DoFinalize, Run, ProfileGate, Reconciled,
         ProfileComplete;
    AdvancesWalk(env, m, budgets);
    var w := Walk(env, m, TotalBudget(budgets));
    WalkCoherent(env, m, TotalBudget(budgets));
    if m.p.exact {
      WalkStatus(env, m, TotalBudget(budgets));
    } else {
      PassingWalk(env, m, TotalBudget(budgets));
    }
    FinalizeStatus(env, w.m);
  }

  /** The last status of a fault-free scan that returns, with a budget to spare. */
  lemma ScanEndsWith(env: Env, d3: bool, mode: int, rows: seq<Row>, budgets: seq<int>)
    requires env.faults == [] && (d3 ==> 1 <= mode <= 20) && TotalBudget(budgets) > |rows|
    ensures var scan := Run(env, FreshMachine(rows), ScanCalls(d3, mode, budgets));
      scan.Ran? ==> Last(scan) == ScanStatus(env, d3, ModeOf(d3, mode), rows)
  {
    hide ShapeOf, CountPeerGets, CountCloses, Begin, Step, RowGood, RowLater, InPlace, ProfileGate, Lookup, DoFinalize, Run, Last,
         ScanCalls, Advances, TotalBudget;
    var m := FreshMachine(rows);
    var m1 := m.(t := m.t.(mode := ModeOf(d3, mode)));
    FreshIsReady(rows, ModeOf(d3, mode));
    LastOfScan(env, d3, mode, rows, budgets);
    OpenedAs(env, m1, d3);
    var r := Begin(env, m1, d3).m;
    if ProfileGate(env, rows).Refused? {
      AdvancesIdle(env, r, budgets);
      DoneRefuses(env, r);
    } else if Run(env, r, Advances(budgets)).Ran? {
      WalkedStatus(env, d3, ModeOf(d3, mode), r, budgets);
    }
  }

  lemma DoneRefuses(env: Env, m: Machine)
    requires m.h.phase.Done?
    ensures DoFinalize(env, m).status == InvalidState
  {
  }

  // ----- another binding

  lemma SoundRetained(retained: map<nat, Octets>)
    requires forall id :: id in AllIds() ==> id in retained && VersionOne(retained[id])
    ensures forall id :: id in AllIds() ==> id in retained && !ProfileCorrupt(retained[id]) && !ProfileUnknown(retained[id])
  {
    hide VersionOne, ProfileCorrupt, ProfileUnknown, AllIds;
    forall id | id in AllIds() ensures id in retained && !ProfileCorrupt(retained[id]) && !ProfileUnknown(retained[id]) {
      ProfileValueIff(retained[id]);
    }
  }

  lemma MismatchIff(binding: Octets, retained: map<nat, Octets>)
    requires forall id :: id in AllIds() ==> id in retained && VersionOne(retained[id])
    ensures 1 in retained
    ensures JudgeProfile(binding, retained) == Mismatch <==> |retained[1]| >= 183 && retained[1] != binding
  {
    assert 1 in AllIds();
    SoundRetained(retained);
    hide VersionOne, ProfileCorrupt, ProfileUnknown, AllIds;
    assert !SomeCorrupt(retained) && !SomeUnknown(retained);
    hide SomeCorrupt, SomeUnknown;
  }

  /** The profile rows are all sound and the binding row is complete, but another binding's. */
  predicate OtherBinding(binding: Octets, rows: seq<Row>) {
    && (forall id :: 1 <= id <= 17 ==> ProfileRow(rows, id))
    && (var b := Lookup(rows, ProfileKey(1)); b.Some? && |b.value| >= 183 && b.value != binding)
  }

  lemma ProfileKeyIs(id: nat)
    requires 1 <= id <= 17
    ensures ProfileKey(id) == CatalogKey(id)
  {
  }

  lemma OtherBindingGate(h: Hash, binding: Octets, rows: seq<Row>)
    requires OtherBinding(binding, rows)
    ensures ProfileGate(CrossRowEnv(h, binding, [], map[]), rows) == Mismatch
  {
    assert forall id: nat :: id in AllIds() <==> 1 <= id <= 17;
    hide Lookup, CatalogKey, ProfileKey, JudgeProfile, AllIds, VersionOne;
    forall id | id in AllIds()
      ensures Lookup(rows, CatalogKey(id)).Some? && |Lookup(rows, CatalogKey(id)).value| <= Capacity(id)
        && VersionOne(Lookup(rows, CatalogKey(id)).value)
    {
      assert ProfileRow(rows, id);
      ProfileRowIff(rows, id);
      ProfileKeyIs(id);
    }
    ProfileKeyIs(1);
    MismatchIff(binding, ProfileValues(rows));
  }

  /** Under another binding a scan never fails on what the rows say: it ends unsupported, or corrupt on rows out of place. */
  lemma OtherBindingIsUnsupported(h: Hash, binding: Octets, mode: int, rows: seq<Row>, budgets: seq<int>)
    requires 1 <= mode <= 20 && TotalBudget(budgets) > |rows| && OtherBinding(binding, rows)
    ensures var scan := Run(CrossRowEnv(h, binding, [], map[]), FreshMachine(rows), ScanCalls(true, mode, budgets));
      && scan.Ran?
      && Last(scan) == if forall i :: 0 <= i < |rows| ==> InPlace(rows, i) then Unsupported else StorageCorrupt
  {
    var env := CrossRowEnv(h, binding, [], map[]);
    assert env.faults == [];
    OtherBindingGate(h, binding, rows);
    hide CrossRowEnv, OtherBinding, ProfileGate, InPlace, RowGood, RowLater, Begin, Step, Run, ScanCalls, Advances, TotalBudget,
         Last, DoFinalize, Lookup, Reconciled, ShapeOf, CountPeerGets, CountCloses, Walk;
    ScanEndsWith(env, true, mode, rows, budgets);
    var m := FreshMachine(rows);
    var m1 := m.(t := m.t.(mode := mode));
    FreshIsReady(rows, mode);
    OpenedAs(env, m1, true);
    var r := Begin(env, m1, true).m;
    PassingWalk(env, r, TotalBudget(budgets));
    AdvancesWalk(env, r, budgets);
    LastOfScan(env, true, mode, rows, budgets);
  }

  // ----- a failing port

  /** What a session that could not be opened leaves behind. */
  predicate ClosedWith(o: Outcome, status: Status) {
    o.Next? && o.m.h.phase.Done? && o.status == status && o.m.h.sticky == Some(status)
  }

  lemma FirstFault(env: Env, m: Machine, f: Fault)
    requires env.faults == [f] && f.op == OnGet && f.onCall == 1 && m.t.usedFaults == {} && m.t.getCall == 0
    ensures var m1 := GetStart(m, ProfileGet);
      && ArmedFault(env, m1, OnGet, m1.t.getCall) == Some(f)
      && Consume(env, m1, OnGet, m1.t.getCall) == m1.(t := m1.t.(usedFaults := {0}))
  {
    assert FindFault(env.faults, {}, OnGet, 1, 0) == Some(0);
    assert {} + {0} == {0};
  }

  lemma NoRollbackFault(env: Env, m: Machine, f: Fault, onCall: int)
    requires env.faults == [f] && f.op == OnGet
    ensures ArmedFault(env, m, OnRollback, onCall).None? && Consume(env, m, OnRollback, onCall) == m
  {
    assert FindFault(env.faults, m.t.usedFaults, OnRollback, onCall, 0) == FindFault(env.faults, m.t.usedFaults, OnRollback, onCall, 1);
  }

  lemma RollsBackQuietly(env: Env, m: Machine, f: Fault, status: Status)
    requires env.faults == [f] && f.op == OnGet && m.h.sticky.None?
    ensures var r := Cleanup(env, m.(h := Stick(m.h, status)));
      r.h.phase.Done? && r.h.sticky == Some(status) && OutcomeOf(r.h) == status
  {
    hide CountRollbacks, ArmedFault, Consume, FindFault, Cleanup;
    var n := m.(h := Stick(m.h, status));
    var c := CloseIterator(n);
    NoRollbackFault(env, c, f, 1 + CountRollbacks(c.t.trace));
    UndisturbedCleanup(env, n);
  }

  /** When the first get of a session fails, opening it returns the status of the port's code and closes it. */
  lemma OpeningReportsPort(env: Env, rows: seq<Row>, d3: bool, mode: int, code: PortCode)
    requires env.faults == [Fault(OnGet, 1, Some(code), false)] && code != PortOk
    ensures var m := FreshMachine(rows);
      ClosedWith(Begin(env, m.(t := m.t.(mode := mode)), d3), MapStorage(code))
  {
    var f := env.faults[0];
    var m := FreshMachine(rows);
    var m0 := Prepared(m.(t := m.t.(mode := mode)), d3);
    FirstFault(env, m0, f);
    hide ArmedFault, Consume, FindFault, Lookup, Cleanup;
    var g := ProfileGetOne(env, m0, 1);
    assert g.refusal == Some(MapStorage(code));
    assert ProfileGets(env, m0, 1) == GateResult(g.m, SessionMachine.Refused(MapStorage(code)));
    RollsBackQuietly(env, g.m, f, MapStorage(code));
  }

  /** The peer get of a row fails: the walk stops with the code's status, or as corrupt and fenced when the code is unknown. */
  lemma PeerReportsPort(env: Env, m: Machine, row: Row, ev: PeerEval, f: Fault)
    requires env.plan(m.t.mode, row.key, row.val) == Probe(ev)
    requires ArmedFault(env, GetStart(m, PeerGet).(t := GetStart(m, PeerGet).t.(
      applicable := m.t.applicable + 1, peerGets := m.t.peerGets + 1)), OnGet, m.t.getCall + 1) == Some(f)
    ensures var r := ApplyPeer(env, m, row);
      && r.PeerDone?
      && (f.unknownShape || f.code == Some(UnknownRaw) ==> r.refusal == Some(StorageCorrupt) && r.m.h.fence)
      && (!f.unknownShape && f.code.None? ==> r.refusal == Some(Storage))
      && (!f.unknownShape && f.code.Some? && f.code.value != UnknownRaw ==> r.refusal == Some(MapStorage(f.code.value)))
      && (!f.unknownShape && f.code != Some(UnknownRaw) ==> r.m.h.fence == m.h.fence)
  {
    hide FindFault;
  }

  /** A failing rollback is reported when nothing failed before, and always costs the storage handle. */
  lemma RollbackReportsPort(env: Env, m: Machine, f: Fault)
    requires m.h.txnLive
    requires var c := CloseIterator(m); ArmedFault(env, c, OnRollback, 1 + CountRollbacks(c.t.trace)) == Some(f)
    ensures var r := Cleanup(env, m);
      && r.h.phase.Done? && r.t.reopen && r.t.closes == m.t.closes + 1
      && (m.h.sticky.Some? ==> r.h.sticky == m.h.sticky)
      && (m.h.sticky.None? ==> r.h.sticky == Some(
            if f.unknownShape then StorageCorrupt else if f.code.None? then Storage else MapStorage(f.code.value)))
  {
    hide FindFault, CountRollbacks;
  }

  /** When the iterator cannot be opened the session is corrupt and closed. */
  lemma IteratorFaultIsCorrupt(env: Env, m: Machine, gate: Gate, f: Fault)
    requires m.h.sticky.None? && m.h.txnLive
    requires ArmedFault(env, m.(p := Judged(m.p, gate)), OnIterOpen, 1) == Some(f)
    requires forall n: Machine, k: int :: ArmedFault(env, n, OnRollback, k).None?
    ensures ClosedWith(OpenIterator(env, m, gate), StorageCorrupt)
  {
    hide FindFault, CountRollbacks;
  }

  // ----- calls that are refused

  /** A call in the wrong phase changes nothing and says so. */
  lemma WrongPhase(env: Env, m: Machine, call: Call)
    requires match call
             case BeginProfiled(_) => m.h.phase != Idle
             case BeginCrossRow(_, _) => m.h.phase != Idle
             case Advance(_) => m.h.phase != Open
             case GetExactly(_) => m.h.phase !in {Open, Exhausted}
             case NoteCorrupt => m.h.phase !in {Open, Exhausted}
             case Finalize => m.h.phase !in {Exhausted, Failed}
             case Abort => m.h.phase !in {Open, Exhausted, Failed}
             case _ => false
    ensures Step(env, m, call) == Next(m, InvalidState)
  {
  }

  /** In the right phase, a call with an argument out of range is refused and leaves the session as it is. */
  lemma WrongArgument(env: Env, m: Machine, call: Call)
    requires match call
             case BeginProfiled(d3) => m.h.phase == Idle && d3
             case BeginCrossRow(mode, bad) => m.h.phase == Idle && (!(1 <= mode <= 20) || bad)
             case Advance(budget) => m.h.phase == Open && budget == 0
             case GetExactly(key) => m.h.phase in {Open, Exhausted} && !(1 <= |key| <= 255)
             case _ => false
    ensures var r := Step(env, m, call);
      r.Next? && r.status == InvalidArgument && r.m.(t := m.t) == m && (!call.BeginCrossRow? ==> r.m == m)
  {
  }

  /** A note, or a call on a handle that drifted, fails the session as corrupt. */
  lemma CorruptCalls(env: Env, m: Machine, call: Call)
    requires call.NoteCorrupt? || (m.h.drifted && (call.Advance? || call.GetExactly?))
    requires m.h.phase == Open && (call.Advance? ==> call.budget != 0) && (call.GetExactly? ==> 1 <= |call.key| <= 255)
    ensures var r := Step(env, m, call);
      && r.Next? && r.status == StorageCorrupt && r.m.h.phase == Failed
      && r.m.h.sticky == (if m.h.sticky.Some? then m.h.sticky else Some(StorageCorrupt))
      && (!call.NoteCorrupt? ==> r.m.h.fence)
  {
  }

  /** Abort returns the first failure, or ok. */
  lemma AbortStatus(env: Env, m: Machine)
    requires env.faults == [] && m.h.phase in {Open, Exhausted, Failed}
    ensures var r := DoAbort(env, m);
      r.Next? && r.m.h.phase == Done && r.status == if m.h.sticky.Some? then m.h.sticky.value else Ok
  {
    hide Cleanup;
    QuietCleanup(env, m);
  }

  /** Starting a session anew is for idle and closed machines only, and forgets all but the totals. */
  lemma SessionStartsAnew(env: Env, m: Machine)
    ensures DoSessionInit(env, m).Crash? <==> m.h.phase !in {Done, Idle}
    ensures m.h.phase in {Done, Idle} ==>
      var r := DoSessionInit(env, m).m;
      && r.rows == m.rows && r.h.phase == Idle && r.h.sticky == None && !r.h.fence && !r.h.drifted && !r.h.txnLive
      && r.y.seen == {} && r.y.previous == None && !r.y.futureSeen && r.p.retained == map[] && !r.p.exact
      && r.t.trace == m.t.trace && r.t.reopen == m.t.reopen && r.t.getCall == (if env.resetGetCall then 0 else m.t.getCall)
  {
  }
}
