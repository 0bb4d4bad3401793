/**
 The scanner object. Its state is updated in place, get by get and row by row; every
 method is proved to do to it what the session machine does to its value.
 */
module ScannerObject {
  import opened Octets
  import opened Catalog
  import opened SessionMachine

  /** How one iteration of the walk ended. */
  datatype Signal = Crashed | Stopped(status: Status) | Continue

  predicate Matches(signal: Signal, after: Machine, tick: Tick) {
    match signal
    case Crashed => tick == TickCrash
    case Stopped(status) => tick == Stop(after, status)
    case Continue => tick == Go(after)
  }

  /** A call's status, or none when an uncaught error ends the run. */
  predicate Replies(reply: Option<Status>, after: Machine, outcome: Outcome) {
    match reply
    case None => outcome == Crash
    case Some(status) => outcome == Next(after, status)
  }

  class Scanner {
    const env: Env
    var rows: seq<Row>
    var profile: Profile
    var tally: Tally
    var hold: Hold
    var totals: Totals

    function View(): Machine
      reads this
    {
      Machine(rows, profile, tally, hold, totals)
    }

    constructor (e: Env, snapshot: seq<Row>)
      ensures env == e && View() == FreshMachine(snapshot)
    {
      env, rows := e, snapshot;
      profile, tally, hold, totals := FreshProfile, FreshTally, FreshHold, FreshTotals;
    }

    method Record(e: Event)
      modifies this`totals
      ensures View() == Emit(old(View()), e)
    {
      totals := totals.(trace := totals.trace + [e]);
    }

    method SetSticky(status: Status)
      modifies this`hold
      ensures View() == old(View()).(h := Stick(old(View().h), status))
    {
      if hold.sticky.None? {
        hold := hold.(sticky := Some(status));
      }
    }

    method SetFailed(status: Status)
      modifies this`hold
      ensures View() == Fail(old(View()), status)
    {
      SetSticky(status);
      hold := hold.(phase := Failed);
    }

    /** Consumes the first unused fault armed for this call, if there is one. */
    method TakeFault(op: FaultOp, onCall: int) returns (fault: Option<Fault>)
      modifies this`totals
      ensures fault == ArmedFault(env, old(View()), op, onCall)
      ensures View() == Consume(env, old(View()), op, onCall)
    {
      var i := 0;
      while i < |env.faults|
        invariant 0 <= i <= |env.faults|
        invariant totals == old(totals)
        invariant FindFault(env.faults, totals.usedFaults, op, onCall, 0)
               == FindFault(env.faults, totals.usedFaults, op, onCall, i)
      {
        if i !in totals.usedFaults && FaultMatches(env.faults[i], op, onCall) {
          totals := totals.(usedFaults := totals.usedFaults + {i});
          return Some(env.faults[i]);
        }
        i := i + 1;
      }
      return None;
    }

    method LookUp(key: Octets) returns (val: Option<Octets>)
      ensures val == Lookup(rows, key)
    {
      var i := 0;
      while i < |rows|
        invariant 0 <= i <= |rows|
        invariant Lookup(rows, key) == Lookup(rows[i..], key)
      {
        if rows[i].key == key {
          return Some(rows[i].val);
        }
        i := i + 1;
      }
      return None;
    }

    method StartGet(purpose: Purpose)
      modifies this`totals
      ensures View() == GetStart(old(View()), purpose)
    {
      totals := totals.(getCall := totals.getCall + 1, trace := totals.trace + [Get(purpose)]);
    }

    // ----- opening a session

    method GetProfileKey(id: nat) returns (refusal: Option<Status>)
      requires IsId(id)
      modifies this
      ensures rows == old(rows)
      ensures var r := ProfileGetOne(env, old(View()), id); View() == r.m && refusal == r.refusal
    {
      hide Lookup, FindFault, CatalogKey, Capacity, MapStorage;
      StartGet(ProfileGet);
      var fault := TakeFault(OnGet, totals.getCall);
      if fault.Some? {
        var code := if fault.value.code.Some? then fault.value.code.value else PortOk;
        if fault.value.unknownShape || code == UnknownRaw {
          hold := hold.(fence := true);
          return Some(StorageCorrupt);
        }
        if code != PortOk {
          return Some(MapStorage(code));
        }
      }
      var raw := LookUp(CatalogKey(id));
      if raw.None? || |raw.value| > Capacity(id) {
        return Some(StorageCorrupt);
      }
      profile := Retained(profile, id, raw.value);
      return None;
    }

    method DoProfileGets() returns (gate: Gate)
      modifies this
      ensures rows == old(rows)
      ensures var r := ProfileGets(env, old(View()), 1); View() == r.m && gate == r.gate
    {
      hide ProfileGetOne;
      var id := 1;
      while id < 18
        invariant 1 <= id <= 18
        invariant rows == old(rows)
        invariant ProfileGets(env, old(View()), 1) == ProfileGets(env, View(), id)
      {
        var refusal := GetProfileKey(id);
        if refusal.Some? {
          return Refused(refusal.value);
        }
        id := id + 1;
      }
      return if profile.present != AllIds() then Refused(StorageCorrupt) else env.gate(profile.retained);
    }

    method CountRolledBack() returns (n: nat)
      ensures n == CountRollbacks(totals.trace)
    {
      n := 0;
      var i := 0;
      while i < |totals.trace|
        invariant 0 <= i <= |totals.trace|
        invariant n == CountRollbacks(totals.trace[..i])
      {
        assert totals.trace[..i + 1][..i] == totals.trace[..i];
        if totals.trace[i] == Rollback {
          n := n + 1;
        }
        i := i + 1;
      }
      assert totals.trace[..i] == totals.trace;
    }

    method DoRollBack()
      modifies this
      ensures rows == old(rows)
      ensures View() == RollBack(env, old(View()))
    {
      hide CountRollbacks, FindFault, MapStorage;
      if hold.txnLive {
        var earlier := CountRolledBack();
        var fault := TakeFault(OnRollback, 1 + earlier);
        Record(Rollback);
        hold := hold.(txnLive := false, iterLive := false);
        if fault.Some? {
          var code := if fault.value.code.Some? then fault.value.code.value else IoError;
          SetSticky(if fault.value.unknownShape || code == UnknownRaw then StorageCorrupt else MapStorage(code));
          hold := hold.(fence := true);
        }
      }
    }

    method DoCleanup() returns (outcome: Status)
      modifies this
      ensures rows == old(rows)
      ensures View() == Cleanup(env, old(View())) && outcome == OutcomeOf(hold)
    {
      hide RollBack;
      if hold.iterLive && hold.txnLive {
        Record(IterClose);
        hold := hold.(iterLive := false);
      }
      DoRollBack();
      if hold.fence {
        totals := totals.(trace := totals.trace + [Close], closes := totals.closes + 1, reopen := true);
        hold := hold.(fence := false);
      }
      hold := hold.(phase := Done);
      return OutcomeOf(hold);
    }

    method DoBegin(d3: bool) returns (status: Status)
      modifies this
      ensures rows == old(rows)
      ensures Begin(env, old(View()), d3) == Next(View(), status)
    {
      hide ProfileGets, Cleanup, ArmedFault, Consume;
      totals := totals.(trace := totals.trace + [BeginReadOnly]);
      hold := hold.(txnLive := true, d3Bound := d3);
      profile := profile.(retained := map[], present := {});
      assert View() == Prepared(old(View()), d3);
      var gate := DoProfileGets();
      if gate.Refused? {
        SetSticky(gate.status);
        status := DoCleanup();
      } else {
        status := DoOpenIterator(gate);
      }
    }

    method DoOpenIterator(gate: Gate) returns (status: Status)
      modifies this
      ensures rows == old(rows)
      ensures OpenIterator(env, old(View()), gate) == Next(View(), status)
    {
      hide Cleanup, ArmedFault, Consume;
      profile := Judged(profile, gate);
      var fault := TakeFault(OnIterOpen, 1);
      if fault.Some? {
        SetSticky(StorageCorrupt);
        status := DoCleanup();
      } else {
        totals := totals.(iterOpens := totals.iterOpens + 1, trace := totals.trace + [IterOpen]);
        hold := hold.(iterLive := true, phase := Open);
        tally := tally.(rowIndex := 0);
        status := Ok;
      }
    }

    // ----- walking the rows

    method EvaluatePeer(row: Row) returns (crashed: bool, refusal: Option<Status>)
      modifies this
      ensures var r := ApplyPeer(env, old(View()), row);
        if crashed then r == PeerCrash else r == PeerDone(View(), refusal)
    {
      hide Lookup, FindFault, MapStorage;
      crashed, refusal := false, None;
      match env.plan(totals.mode, row.key, row.val)
      case PlanCrash => crashed := true;
      case PlanInvalid => refusal := Some(StorageCorrupt);
      case NotApplicable =>
      case Probe(ev) =>
        StartGet(PeerGet);
        totals := totals.(applicable := totals.applicable + 1, peerGets := totals.peerGets + 1);
        var fault := TakeFault(OnGet, totals.getCall);
        if fault.Some? {
          var code := if fault.value.code.Some? then fault.value.code.value else IoError;
          if fault.value.unknownShape || code == UnknownRaw {
            hold := hold.(fence := true);
            refusal := Some(StorageCorrupt);
          } else {
            refusal := Some(MapStorage(code));
          }
        } else {
          var peer := LookUp(ev.peerKey);
          if peer.Some? != ev.expectPresent {
            refusal := Some(StorageCorrupt);
          } else if peer.Some? {
            var verdict := env.check(totals.mode, ev, row.val, peer.value);
            crashed := verdict.CheckCrash?;
            refusal := if verdict.Unmet? then Some(StorageCorrupt) else None;
          }
        }
    }

    method AcceptRow(row: Row)
      modifies this`tally
      ensures Go(View()) == Accept(old(View()), row)
    {
      tally := tally.(previous := Some(row.key), okRows := tally.okRows + 1);
    }

    method RefuseRow(status: Status) returns (signal: Signal)
      modifies this`hold
      ensures Matches(signal, View(), Refuse(old(View()), status))
    {
      SetFailed(status);
      return Stopped(status);
    }

    method VisitCatalog(row: Row, id: nat) returns (signal: Signal)
      modifies this
      ensures Matches(signal, View(), TickCatalog(old(View()), row, id))
    {
      if profile.recon {
        if id in tally.seen {
          signal := RefuseRow(StorageCorrupt);
          return;
        }
        if !(id in profile.retained && profile.retained[id] == row.val) {
          signal := RefuseRow(StorageCorrupt);
          return;
        }
        tally := tally.(seen := tally.seen + {id});
      }
      tally := tally.(family14 := tally.family14 + 1);
      AcceptRow(row);
      return Continue;
    }

    method VisitTyped(row: Row) returns (signal: Signal)
      modifies this
      ensures Matches(signal, View(), TickTyped(env, old(View()), row))
    {
      hide ApplyPeer;
      if hold.d3Bound && hold.sticky.None? {
        var crashed, refusal := EvaluatePeer(row);
        if crashed {
          return Crashed;
        }
        if refusal.Some? {
          tally := tally.(previous := Some(row.key));
          signal := RefuseRow(refusal.value);
          return;
        }
      }
      AcceptRow(row);
      return Continue;
    }

    method VisitDomain(row: Row) returns (signal: Signal)
      modifies this
      ensures Matches(signal, View(), TickDomain(env, old(View()), row))
    {
      hide TickTyped;
      tally := tally.(currentDomain := tally.currentDomain + 1);
      signal := Continue;
      if !profile.exact {
        AcceptRow(row);
      } else {
        match env.classify(row.key, row.val)
        case RowCrash => signal := Crashed;
        case RowCorrupt =>
          tally := tally.(previous := Some(row.key));
          signal := RefuseRow(StorageCorrupt);
        case RowFuture =>
          tally := tally.(futureSeen := true);
          AcceptRow(row);
        case RowUntyped => AcceptRow(row);
        case RowTyped => signal := VisitTyped(row);
      }
    }

    method VisitRow(row: Row) returns (signal: Signal)
      modifies this
      ensures Matches(signal, View(), TickRow(env, old(View()), row))
    {
      hide TickCatalog, TickDomain, Less, CatalogId;
      if !WithinCaps(row) {
        signal := RefuseRow(StorageCorrupt);
        return;
      }
      if tally.previous.Some? && !Less(tally.previous.value, row.key) {
        signal := RefuseRow(StorageCorrupt);
        return;
      }
      var id := CatalogId(row.key);
      if id.Some? {
        signal := VisitCatalog(row, id.value);
      } else if profile.mismatch || profile.future {
        AcceptRow(row);
        signal := Continue;
      } else {
        match env.root(row.key, row.val)
        case FutureRoot =>
          tally := tally.(futureSeen := true);
          AcceptRow(row);
          signal := Continue;
        case BadFutureRoot => signal := RefuseRow(StorageCorrupt);
        case CurrentRoot => signal := VisitDomain(row);
      }
    }

    method VisitNext() returns (signal: Signal)
      modifies this
      ensures Matches(signal, View(), TickOnce(env, old(View())))
    {
      hide TickRow;
      Record(IterNext);
      if tally.rowIndex >= |rows| {
        if profile.recon && tally.seen != profile.present {
          signal := RefuseRow(StorageCorrupt);
          return;
        }
        hold := hold.(phase := Exhausted);
        return Stopped(Ok);
      }
      var row := rows[tally.rowIndex];
      tally := tally.(rowIndex := tally.rowIndex + 1);
      signal := VisitRow(row);
    }

    // ----- the calls

    /** Whether the handle can no longer be used; then the session has failed. */
    method HandleLost() returns (lost: bool)
      modifies this`hold
      ensures match HandleCheck(old(View()))
        case Some(m) => lost && View() == m
        case None => !lost && View() == old(View())
    {
      lost := hold.drifted || !hold.txnLive || !hold.iterLive;
      if lost {
        SetFailed(StorageCorrupt);
        if hold.drifted {
          hold := hold.(fence := true);
        }
      }
    }

    method AdvanceRows(budget: int) returns (reply: Option<Status>)
      modifies this
      ensures Replies(reply, View(), DoAdvance(env, old(View()), budget))
    {
      hide TickOnce;
      if hold.phase != Open {
        return Some(InvalidState);
      }
      if budget == 0 {
        return Some(InvalidArgument);
      }
      var lost := HandleLost();
      if lost {
        return Some(StorageCorrupt);
      }
      var consumed := 0;
      while consumed < budget
        invariant consumed <= budget || consumed == 0
        invariant Walk(env, View(), budget - consumed) == Walk(env, old(View()), budget)
      {
        var signal := VisitNext();
        match signal {
          case Crashed => return None;
          case Stopped(status) => return Some(status);
          case Continue =>
        }
        consumed := consumed + 1;
      }
      return Some(Ok);
    }

    method GetKey(key: Octets) returns (reply: Option<Status>)
      modifies this
      ensures Replies(reply, View(), DoExactGet(old(View()), key))
    {
      hide Lookup;
      if hold.phase != Open && hold.phase != Exhausted {
        return Some(InvalidState);
      }
      if |key| < 1 || |key| > KEY_CAP {
        return Some(InvalidArgument);
      }
      var lost := HandleLost();
      if lost {
        return Some(StorageCorrupt);
      }
      StartGet(ExactGet);
      var raw := LookUp(key);
      if raw.Some? && |raw.value| > VALUE_CAP {
        SetFailed(StorageCorrupt);
        return Some(StorageCorrupt);
      }
      return Some(Ok);
    }

    method FinalizeSession() returns (reply: Option<Status>)
      modifies this
      ensures Replies(reply, View(), DoFinalize(env, old(View())))
    {
      hide Cleanup;
      if hold.phase != Exhausted && hold.phase != Failed {
        return Some(InvalidState);
      }
      var outcome := DoCleanup();
      if hold.sticky.Some? {
        return Some(outcome);
      }
      return Some(if profile.mismatch || profile.future || tally.futureSeen then Unsupported else Ok);
    }

    method AbortSession() returns (reply: Option<Status>)
      modifies this
      ensures Replies(reply, View(), DoAbort(env, old(View())))
    {
      hide Cleanup;
      if hold.phase != Open && hold.phase != Exhausted && hold.phase != Failed {
        return Some(InvalidState);
      }
      var outcome := DoCleanup();
      return Some(outcome);
    }

    /** Every call does to the fields what the machine's step does to its state. */
    method Perform(call: Call) returns (reply: Option<Status>)
      modifies this
      ensures Replies(reply, View(), Step(env, old(View()), call))
    {
      hide Begin, DoAdvance, DoExactGet, DoFinalize, DoAbort;
      match call
      case Advance(budget) => reply := AdvanceRows(budget);
      case GetExactly(key) => reply := GetKey(key);
      case Finalize => reply := FinalizeSession();
      case Abort => reply := AbortSession();
      case SessionInit =>
        if hold.phase != Done && hold.phase != Idle {
          return None;
        }
        profile, tally, hold := FreshProfile, FreshTally, FreshHold;
        if env.resetGetCall {
          totals := totals.(getCall := 0);
        }
        reply := Some(Void);
      case UseRows(name) =>
        if name !in env.alternatives || hold.phase != Idle {
          return None;
        }
        rows := env.alternatives[name];
        reply := Some(Void);
      case HandleDrift =>
        if hold.phase != Open && hold.phase != Exhausted && hold.phase != Failed {
          return None;
        }
        hold := hold.(drifted := true);
        reply := Some(Void);
      case BeginProfiled(d3Material) =>
        if hold.phase != Idle {
          return Some(InvalidState);
        }
        if d3Material {
          return Some(InvalidArgument);
        }
        totals := totals.(mode := 0);
        var status := DoBegin(false);
        reply := Some(status);
      case BeginCrossRow(mode, badContext) =>
        if hold.phase != Idle {
          return Some(InvalidState);
        }
        totals := totals.(mode := mode);
        if mode < 1 || mode > 20 || badContext {
          return Some(InvalidArgument);
        }
        var status := DoBegin(true);
        reply := Some(status);
      case NoteCorrupt =>
        if hold.phase != Open && hold.phase != Exhausted {
          return Some(InvalidState);
        }
        SetFailed(StorageCorrupt);
        reply := Some(StorageCorrupt);
    }

    /** A whole run: the object ends in the machine's state with the machine's statuses. */
    method RunCalls(calls: seq<Call>) returns (halted: bool, statuses: seq<Status>)
      modifies this
      ensures Run(env, old(View()), calls) == if halted then Halted else Ran(View(), statuses)
    {
      hide Step;
      halted, statuses := false, [];
      var i := 0;
      while i < |calls|
        invariant 0 <= i <= |calls|
        invariant Run(env, old(View()), calls) == Prefixed(statuses, Run(env, View(), calls[i..]))
      {
        var reply := Perform(calls[i]);
        if reply.None? {
          return true, statuses;
        }
        ghost var rest := Run(env, View(), calls[i + 1..]);
        assert calls[i..][1..] == calls[i + 1..];
        if rest.Ran? {
          assert statuses + ([reply.value] + rest.statuses) == (statuses + [reply.value]) + rest.statuses;
        }
        statuses := statuses + [reply.value];
        i := i + 1;
      }
      assert statuses + [] == statuses;
    }
  }
}
