/**
 What every run of the scanner keeps, whatever the faults and the order of calls:
 the shape of the port trace, the meaning of the phases, and the first failure.
 */
module TraceLaws {
  import opened Octets
  import opened Catalog
  import opened SessionMachine

  /**
   The grammar of port traces as a small automaton. A session reads
     begin profile-get{0..17} (iter_open ((iter_next peer-get?) | exact-get)* iter_close)? rollback close?
   with iter_open only after all seventeen gets.
   */
  datatype Shape = Between | Profiling(gets: nat) | Walking | Stepped | Unwinding | RolledBack | Broken

  function NextShape(q: Shape, e: Event): Shape {
    match e
    case BeginReadOnly => if q.Between? || q.RolledBack? then Profiling(0) else Broken
    case Get(ProfileGet) => if q.Profiling? && q.gets < 17 then Profiling(q.gets + 1) else Broken
    case Get(ExactGet) => if q.Walking? || q.Stepped? then Walking else Broken
    case Get(PeerGet) => if q.Stepped? then Walking else Broken
    case IterOpen => if q == Profiling(17) then Walking else Broken
    case IterNext => if q.Walking? || q.Stepped? then Stepped else Broken
    case IterClose => if q.Walking? || q.Stepped? then Unwinding else Broken
    case Rollback => if q.Profiling? || q.Unwinding? then RolledBack else Broken
    case Close => if q.RolledBack? then Between else Broken
  }

  function ShapeOf(trace: seq<Event>): Shape {
    if trace == [] then Between
    else NextShape(ShapeOf(trace[..|trace| - 1]), trace[|trace| - 1])
  }

  lemma ShapeStep(trace: seq<Event>, e: Event)
    ensures ShapeOf(trace + [e]) == NextShape(ShapeOf(trace), e)
  {
    assert (trace + [e])[..|trace|] == trace;
  }

  predicate Live(p: Phase) {
    p.Open? || p.Exhausted? || p.Failed?
  }

  function CountPeerGets(trace: seq<Event>): nat {
    if trace == [] then 0
    else CountPeerGets(trace[..|trace| - 1]) + (if trace[|trace| - 1] == Get(PeerGet) then 1 else 0)
  }

  function CountCloses(trace: seq<Event>): nat {
    if trace == [] then 0
    else CountCloses(trace[..|trace| - 1]) + (if trace[|trace| - 1] == Close then 1 else 0)
  }

  lemma CountStep(trace: seq<Event>, e: Event)
    ensures CountPeerGets(trace + [e]) == CountPeerGets(trace) + (if e == Get(PeerGet) then 1 else 0)
    ensures CountCloses(trace + [e]) == CountCloses(trace) + (if e == Close then 1 else 0)
  {
    assert (trace + [e])[..|trace|] == trace;
  }

  /** Peer gets, applicable rows and the trace tell the same number. */
  predicate PeersCounted(m: Machine) {
    m.t.peerGets == m.t.applicable == CountPeerGets(m.t.trace)
  }

  /** The handle must be reopened when the trace has a close, and the counter counts them. */
  predicate ReopenIsClose(m: Machine) {
    (m.t.reopen <==> m.t.closes > 0) && m.t.closes == CountCloses(m.t.trace)
  }

  predicate InWalk(q: Shape) {
    q.Walking? || q.Stepped?
  }

  /** Between two calls. */
  predicate Coherent(m: Machine) {
    && (Live(m.h.phase) <==> m.h.txnLive)
    && (Live(m.h.phase) <==> m.h.iterLive)
    && (Live(m.h.phase) <==> InWalk(ShapeOf(m.t.trace)))
    && (!Live(m.h.phase) ==> ShapeOf(m.t.trace).Between? || ShapeOf(m.t.trace).RolledBack?)
    && (m.h.phase.Failed? ==> m.h.sticky.Some?)
    && (m.h.phase.Open? || m.h.phase.Exhausted? ==> m.h.sticky.None?)
    && (m.h.fence ==> m.h.phase.Failed?)
    && (m.h.phase.Idle? ==> m.p == FreshProfile && m.y == FreshTally && m.h == FreshHold)
    && (Live(m.h.phase) ==> m.p.recon)
    && PeersCounted(m)
    && ReopenIsClose(m)
  }

  /** What a row step promises: either the walk is still open or it has ended for good. */
  predicate WalkState(m: Machine, p: Phase) {
    && m.h.phase == p
    && m.h.txnLive && m.h.iterLive && m.p.recon
    && InWalk(ShapeOf(m.t.trace))
    && (p.Failed? <==> m.h.sticky.Some?)
    && (m.h.fence ==> p.Failed?)
    && PeersCounted(m) && ReopenIsClose(m)
  }

  // ----- one row

  /** Evaluating a peer costs at most one counted get and leaves the session as it was. */
  lemma PeerEffect(env: Env, m: Machine, row: Row)
    requires ApplyPeer(env, m, row).PeerDone?
    ensures var r := ApplyPeer(env, m, row);
      && r.m.rows == m.rows && r.m.t.mode == m.t.mode
      && r.m.p == m.p && r.m.y == m.y && r.m.h == m.h.(fence := r.m.h.fence)
      && (r.m.h.fence != m.h.fence ==> r.refusal.Some?)
      && r.m.t.closes == m.t.closes && r.m.t.reopen == m.t.reopen
      && (if env.plan(m.t.mode, row.key, row.val).Probe? then
            r.m.t.trace == m.t.trace + [Get(PeerGet)]
            && r.m.t.peerGets == m.t.peerGets + 1 && r.m.t.applicable == m.t.applicable + 1
          else
            r.m.t == m.t)
  {
  }

  /** A row step either leaves the walk open or ends it with the first failure. */
  predicate TickKeeps(before: Machine, r: Tick) {
    match r
    case TickCrash => true
    case Go(m) => WalkState(m, Open) && SameFrame(before, m)
    case Stop(m, status) => WalkState(m, Failed) && m.h.sticky == Some(status) && SameFrame(before, m)
  }

  /** What no walk touches. */
  predicate SameFrame(a: Machine, b: Machine) {
    a.t.closes == b.t.closes && a.h.drifted == b.h.drifted && a.h.d3Bound == b.h.d3Bound
    && a.rows == b.rows && a.p == b.p && a.t.mode == b.t.mode
  }

  lemma TypedCoherent(env: Env, m: Machine, row: Row)
    requires WalkState(m, Open) && ShapeOf(m.t.trace).Stepped?
    ensures TickKeeps(m, TickTyped(env, m, row))
  {
    if ApplyPeer(env, m, row).PeerDone? {
      PeerEffect(env, m, row);
      ShapeStep(m.t.trace, Get(PeerGet));
      CountStep(m.t.trace, Get(PeerGet));
    }
  }

  lemma CatalogCoherent(m: Machine, row: Row, id: nat)
    requires WalkState(m, Open)
    ensures TickKeeps(m, TickCatalog(m, row, id))
  {
  }

  lemma DomainCoherent(env: Env, m: Machine, row: Row)
    requires WalkState(m, Open) && ShapeOf(m.t.trace).Stepped?
    ensures TickKeeps(m, TickDomain(env, m, row))
  {
    hide TickTyped, ShapeOf, CountPeerGets, CountCloses;
    TypedCoherent(env, m.(y := m.y.(currentDomain := m.y.currentDomain + 1)), row);
  }

  lemma RowCoherent(env: Env, m: Machine, row: Row)
    requires WalkState(m, Open) && ShapeOf(m.t.trace).Stepped?
    ensures TickKeeps(m, TickRow(env, m, row))
  {
    hide TickDomain, TickCatalog, ShapeOf, CountPeerGets, CountCloses;
    DomainCoherent(env, m, row);
    if CatalogId(row.key).Some? {
      CatalogCoherent(m, row, CatalogId(row.key).value);
    }
  }

  lemma TickCoherent(env: Env, m: Machine)
    requires WalkState(m, Open)
    ensures var r := TickOnce(env, m);
      if r.Stop? && r.m.h.phase.Exhausted? then
        WalkState(r.m, Exhausted) && r.status == Ok && SameFrame(m, r.m)
      else
        TickKeeps(m, r)
  {
    hide TickRow, ShapeOf, CountPeerGets, CountCloses;
    ShapeStep(m.t.trace, IterNext);
    CountStep(m.t.trace, IterNext);
    var m1 := Emit(m, IterNext);
    if m1.y.rowIndex < |m1.rows| {
      RowCoherent(env, m1.(y := m1.y.(rowIndex := m1.y.rowIndex + 1)), m1.rows[m1.y.rowIndex]);
    }
  }

  lemma {:induction false} WalkCoherent(env: Env, m: Machine, left: int)
    requires WalkState(m, Open)
    requires Walk(env, m, left).Next?
    ensures var r := Walk(env, m, left);
      && (r.m.h.phase.Open? || r.m.h.phase.Exhausted? || r.m.h.phase.Failed?)
      && WalkState(r.m, r.m.h.phase)
      && (r.m.h.phase.Failed? ==> r.m.h.sticky == Some(r.status))
      && (!r.m.h.phase.Failed? ==> r.status == Ok)
      && SameFrame(m, r.m)
    decreases left
  {
    hide TickOnce, ShapeOf, CountPeerGets, CountCloses;
    if left > 0 {
      TickCoherent(env, m);
      var r := TickOnce(env, m);
      if r.Go? {
        WalkCoherent(env, r.m, left - 1);
      }
    }
  }

  // ----- opening and closing

  /** One profile get costs one event and touches only what it retains. */
  lemma ProfileGetEffect(env: Env, m: Machine, id: nat)
    requires IsId(id)
    ensures var r := ProfileGetOne(env, m, id);
      && r.m.rows == m.rows && r.m.y == m.y
      && r.m.h == m.h.(fence := r.m.h.fence)
      && (r.m.h.fence != m.h.fence ==> r.refusal == Some(StorageCorrupt))
      && r.m.t == m.t.(trace := m.t.trace + [Get(ProfileGet)], getCall := m.t.getCall + 1, usedFaults := r.m.t.usedFaults)
      && var v := Lookup(m.rows, CatalogKey(id));
        (if r.refusal.Some? then r.m.p == m.p
         else v.Some? && |v.value| <= Capacity(id) && r.m.p == Retained(m.p, id, v.value))
  {
    hide Lookup, CatalogKey, FindFault, Capacity, MapStorage, Retained;
  }

  lemma {:induction false} ProfileCoherent(env: Env, m: Machine, id: nat)
    requires 1 <= id <= 18
    requires ShapeOf(m.t.trace) == Profiling(id - 1)
    requires PeersCounted(m) && ReopenIsClose(m)
    ensures var r := ProfileGets(env, m, id);
      && r.m.y == m.y && r.m.rows == m.rows
      && r.m.h == m.h.(fence := r.m.h.fence)
      && (r.m.h.fence != m.h.fence ==> r.gate == Refused(StorageCorrupt))
      && (if r.gate.Refused? then ShapeOf(r.m.t.trace).Profiling? else ShapeOf(r.m.t.trace) == Profiling(17))
      && PeersCounted(r.m) && ReopenIsClose(r.m)
      && r.m.t.mode == m.t.mode && r.m.t.closes == m.t.closes
      && r.m.p == m.p.(present := r.m.p.present, retained := r.m.p.retained)
    decreases 18 - id
  {
    hide ShapeOf, CountPeerGets, CountCloses, ProfileGetOne, Lookup, CatalogKey;
    if id < 18 {
      ShapeStep(m.t.trace, Get(ProfileGet));
      CountStep(m.t.trace, Get(ProfileGet));
      ProfileGetEffect(env, m, id);
      var r := ProfileGetOne(env, m, id);
      if r.refusal.None? {
        ProfileCoherent(env, r.m, id + 1);
      }
    }
  }

  /** A transaction that cleanup can close. */
  predicate Closable(m: Machine) {
    && m.h.txnLive
    && (if m.h.iterLive then InWalk(ShapeOf(m.t.trace)) else ShapeOf(m.t.trace).Profiling?)
    && PeersCounted(m) && ReopenIsClose(m)
  }

  predicate Closed(m: Machine) {
    && m.h.phase == Done && !m.h.txnLive && !m.h.iterLive && !m.h.fence
    && (ShapeOf(m.t.trace).Between? || ShapeOf(m.t.trace).RolledBack?)
    && PeersCounted(m) && ReopenIsClose(m)
  }

  lemma RollBackEffect(env: Env, m: Machine)
    requires m.h.txnLive
    ensures var r := RollBack(env, m);
      && r.rows == m.rows && r.p == m.p && r.y == m.y
      && r.t == m.t.(trace := m.t.trace + [Rollback], usedFaults := r.t.usedFaults)
      && r.h == m.h.(txnLive := false, iterLive := false, fence := r.h.fence, sticky := r.h.sticky)
      && (m.h.sticky.Some? ==> r.h.sticky == m.h.sticky)
      && (m.h.fence ==> r.h.fence)
      && (env.faults == [] ==> r.h.sticky == m.h.sticky && r.h.fence == m.h.fence && r.t.usedFaults == m.t.usedFaults)
  {
    hide CountRollbacks, MapStorage;
  }

  /** Cleanup closes everything once and keeps the first failure. */
  lemma CleanupCoherent(env: Env, m: Machine)
    requires Closable(m)
    ensures var r := Cleanup(env, m);
      && Closed(r)
      && r.rows == m.rows && r.p == m.p && r.y == m.y
      && (m.h.sticky.Some? ==> r.h.sticky == m.h.sticky)
      && r.t.closes >= m.t.closes
  {
    hide ShapeOf, CountPeerGets, CountCloses, RollBack;
    var m1 := CloseIterator(m);
    ShapeStep(m.t.trace, IterClose);
    CountStep(m.t.trace, IterClose);
    var m2 := RollBack(env, m1);
    RollBackEffect(env, m1);
    ShapeStep(m1.t.trace, Rollback);
    CountStep(m1.t.trace, Rollback);
    ShapeStep(m2.t.trace, Close);
    CountStep(m2.t.trace, Close);
  }

  lemma BeginCoherent(env: Env, m: Machine, d3: bool)
    requires Coherent(m) && m.h.phase.Idle?
    ensures Begin(env, m, d3).Next?
    ensures Coherent(Begin(env, m, d3).m)
    ensures Begin(env, m, d3).m.h.phase.Open? || Begin(env, m, d3).m.h.phase.Done?
    ensures Begin(env, m, d3).m.rows == m.rows && Begin(env, m, d3).m.y == m.y
    ensures Begin(env, m, d3).m.t.closes >= m.t.closes
  {
    hide ShapeOf, CountPeerGets, CountCloses, ProfileGets, Cleanup, ArmedFault, FindFault;
    ShapeStep(m.t.trace, BeginReadOnly);
    CountStep(m.t.trace, BeginReadOnly);
    var m2 := Prepared(m, d3);
    ProfileCoherent(env, m2, 1);
    var GateResult(m3, gate) := ProfileGets(env, m2, 1);
    if gate.Refused? {
      CleanupCoherent(env, m3.(h := Stick(m3.h, gate.status)));
    } else {
      var m4 := m3.(p := Judged(m3.p, gate));
      var m5 := Consume(env, m4, OnIterOpen, 1);
      CleanupCoherent(env, m5.(h := Stick(m5.h, StorageCorrupt)));
      ShapeStep(m5.t.trace, IterOpen);
      CountStep(m5.t.trace, IterOpen);
    }
  }

  // ----- every call, every run

  predicate Ends(call: Call) {
    call.Finalize? || call.Abort?
  }

  /** What one call keeps, and what it does with the first failure. */
  predicate CallKeeps(m: Machine, call: Call, after: Machine, status: Status) {
    && Coherent(after)
    && (m.h.sticky.Some? && !call.SessionInit? ==> after.h.sticky == m.h.sticky)
    && (m.h.phase.Failed? && Ends(call) ==> Some(status) == m.h.sticky && after.h.phase.Done?)
    && (Live(after.h.phase) && after.h.sticky.Some? && m.h.sticky.None? ==> Some(status) == after.h.sticky)
    && after.t.closes >= m.t.closes
  }

  lemma EndCoherent(env: Env, m: Machine, call: Call)
    requires Coherent(m) && Ends(call)
    ensures Step(env, m, call).Next?
    ensures CallKeeps(m, call, Step(env, m, call).m, Step(env, m, call).status)
  {
    hide ShapeOf, CountPeerGets, CountCloses;
    if Live(m.h.phase) {
      CleanupCoherent(env, m);
    }
    hide Cleanup;
  }

  lemma AdvanceCoherent(env: Env, m: Machine, budget: int)
    requires Coherent(m)
    requires DoAdvance(env, m, budget).Next?
    ensures CallKeeps(m, Advance(budget), DoAdvance(env, m, budget).m, DoAdvance(env, m, budget).status)
  {
    hide ShapeOf, CountPeerGets, CountCloses, Walk;
    if m.h.phase.Open? && Walk(env, m, budget).Next? {
      WalkCoherent(env, m, budget);
    }
  }

  lemma GetCoherent(m: Machine, key: Octets)
    requires Coherent(m)
    ensures DoExactGet(m, key).Next?
    ensures CallKeeps(m, GetExactly(key), DoExactGet(m, key).m, DoExactGet(m, key).status)
  {
    hide ShapeOf, CountPeerGets, CountCloses, Lookup;
    ShapeStep(m.t.trace, Get(ExactGet));
    CountStep(m.t.trace, Get(ExactGet));
  }

  lemma StepCoherent(env: Env, m: Machine, call: Call)
    requires Coherent(m)
    requires Step(env, m, call).Next?
    ensures CallKeeps(m, call, Step(env, m, call).m, Step(env, m, call).status)
  {
    hide ShapeOf, CountPeerGets, CountCloses, Begin, Cleanup, DoAdvance, DoExactGet, DoFinalize, DoAbort, Walk;
    match call {
      case Advance(budget) => AdvanceCoherent(env, m, budget);
      case GetExactly(key) => GetCoherent(m, key);
      case Finalize => EndCoherent(env, m, call);
      case Abort => EndCoherent(env, m, call);
      case BeginProfiled(d3Material) =>
        if m.h.phase.Idle? { BeginCoherent(env, m.(t := m.t.(mode := 0)), false); }
      case BeginCrossRow(mode, _) =>
        if m.h.phase.Idle? { BeginCoherent(env, m.(t := m.t.(mode := mode)), true); }
      case _ =>
    }
  }

  /** Safety over whole runs: every reachable state is coherent. */
  lemma {:induction false} RunCoherent(env: Env, m: Machine, calls: seq<Call>)
    requires Coherent(m)
    requires Run(env, m, calls).Ran?
    ensures Coherent(Run(env, m, calls).m)
    decreases |calls|
  {
    if calls != [] {
      StepCoherent(env, m, calls[0]);
      RunCoherent(env, Step(env, m, calls[0]).m, calls[1..]);
    }
  }

  /** No run from a fresh object ever leaves the trace grammar. */
  lemma EveryTraceIsInGrammar(env: Env, rows: seq<Row>, calls: seq<Call>)
    requires Run(env, FreshMachine(rows), calls).Ran?
    ensures var m := Run(env, FreshMachine(rows), calls).m;
      && Coherent(m)
      && !ShapeOf(m.t.trace).Broken?
      && (Live(m.h.phase) <==> InWalk(ShapeOf(m.t.trace)))
  {
    assert Coherent(FreshMachine(rows));
    RunCoherent(env, FreshMachine(rows), calls);
  }

  /** The handle is never found dead: the second handle check of every call is unreachable. */
  lemma LiveHandle(env: Env, rows: seq<Row>, calls: seq<Call>)
    requires Run(env, FreshMachine(rows), calls).Ran?
    ensures var m := Run(env, FreshMachine(rows), calls).m;
      Live(m.h.phase) && !m.h.drifted ==> HandleCheck(m).None?
  {
    EveryTraceIsInGrammar(env, rows, calls);
  }
}
