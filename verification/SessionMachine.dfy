/**
 The scanner session machine as a function of its state.

 One machine serves both generators: a session begun with `BeginProfiled` checks a
 snapshot row by row, one begun with `BeginCrossRow` also looks up a peer for every
 applicable row. What depends on record contents is a field of `Env`.
 */
module SessionMachine {
  import opened Octets
  import opened Catalog

  datatype Status =
    | Ok | InvalidState | InvalidArgument | Unsupported | StorageCorrupt
    | Storage | WouldBlock | CapacityExhausted | CommitUnknown | Void

  /** Return codes a storage port can report. */
  datatype PortCode =
    | PortOk | Busy | NoSpace | IoError | UnsupportedSchema | UnknownCommit
    | Corrupt | BufferTooSmall | NotFound | UnknownRaw | OtherCode

  function MapStorage(code: PortCode): Status {
    match code
    case Busy => WouldBlock
    case NoSpace => CapacityExhausted
    case IoError => Storage
    case UnsupportedSchema => Unsupported
    case UnknownCommit => CommitUnknown
    case NotFound => Ok
    case PortOk => Ok
    case _ => StorageCorrupt
  }

  datatype FaultOp = OnGet | OnIterOpen | OnRollback | OnOther
  datatype Fault = Fault(op: FaultOp, onCall: int, code: Option<PortCode>, unknownShape: bool)

  datatype Row = Row(key: Octets, val: Octets)

  /** What one applicable source row demands of its peer. */
  datatype PeerEval = PeerEval(
    peerKey: Octets, expectPresent: bool, checkPvd: bool, skipPvd: bool,
    dualRaw: Option<Octets>, dualRaw2: Option<Octets>, ownerKind: Option<nat>,
    subjectRaw: Option<Octets>, rawBijection: bool, mode18Pair: bool)

  datatype PeerPlan = PlanCrash | PlanInvalid | NotApplicable | Probe(eval: PeerEval)
  datatype PeerCheck = CheckCrash | Unmet | Met

  datatype Gate = Exact | Mismatch | Future | Refused(status: Status)
  datatype RootClass = CurrentRoot | FutureRoot | BadFutureRoot
  datatype RowClass = RowCrash | RowCorrupt | RowFuture | RowUntyped | RowTyped

  datatype Env = Env(
    faults: seq<Fault>,
    alternatives: map<string, seq<Row>>,
    resetGetCall: bool,
    gate: map<nat, Octets> -> Gate,
    root: (Octets, Octets) -> RootClass,
    classify: (Octets, Octets) -> RowClass,
    plan: (int, Octets, Octets) -> PeerPlan,
    check: (int, PeerEval, Octets, Octets) -> PeerCheck)

  datatype Purpose = ProfileGet | ExactGet | PeerGet
  datatype Event = BeginReadOnly | Get(purpose: Purpose) | IterOpen | IterNext | IterClose | Rollback | Close

  datatype Phase = Idle | Open | Exhausted | Failed | Done

  /** The outcome of the profile gets. */
  datatype Profile = Profile(
    exact: bool, mismatch: bool, future: bool, recon: bool,
    present: set<nat>, retained: map<nat, Octets>)

  /** What the walk has counted. */
  datatype Tally = Tally(
    seen: set<nat>, family14: nat, currentDomain: nat, okRows: nat,
    futureSeen: bool, previous: Option<Octets>, rowIndex: nat)

  /** The session's hold on the storage port. */
  datatype Hold = Hold(
    phase: Phase, sticky: Option<Status>, fence: bool,
    txnLive: bool, iterLive: bool, drifted: bool, d3Bound: bool)

  /** What `session_init` does not clear. */
  datatype Totals = Totals(
    trace: seq<Event>, closes: nat, reopen: bool, iterOpens: nat,
    peerGets: nat, applicable: nat, usedFaults: set<nat>, getCall: nat, mode: int)

  datatype Machine = Machine(rows: seq<Row>, p: Profile, y: Tally, h: Hold, t: Totals)

  const FreshProfile: Profile := Profile(false, false, false, false, {}, map[])
  const FreshTally: Tally := Tally({}, 0, 0, 0, false, None, 0)
  const FreshHold: Hold := Hold(Idle, None, false, false, false, false, false)
  const FreshTotals: Totals := Totals([], 0, false, 0, 0, 0, {}, 0, 0)

  function FreshMachine(rows: seq<Row>): Machine {
    Machine(rows, FreshProfile, FreshTally, FreshHold, FreshTotals)
  }

  datatype Call =
    | SessionInit | UseRows(name: string) | HandleDrift
    | BeginProfiled(d3Material: bool) | BeginCrossRow(mode: int, badContext: bool)
    | Advance(budget: int) | GetExactly(key: Octets) | NoteCorrupt | Finalize | Abort

  /** A call either returns a status or stops the whole run with an uncaught error. */
  datatype Outcome = Crash | Next(m: Machine, status: Status)

  // ----- small steps shared by the calls

  function Emit(m: Machine, e: Event): Machine {
    m.(t := m.t.(trace := m.t.trace + [e]))
  }

  function Stick(h: Hold, status: Status): Hold {
    if h.sticky.None? then h.(sticky := Some(status)) else h
  }

  /** First failure wins; the session can only be closed from here. */
  function Fail(m: Machine, status: Status): Machine {
    m.(h := Stick(m.h, status).(phase := Failed))
  }

  predicate FaultMatches(f: Fault, op: FaultOp, onCall: int) {
    f.op == op && f.onCall == onCall
  }

  /** The first unconsumed fault armed for this call, from index i on. */
  function FindFault(faults: seq<Fault>, used: set<nat>, op: FaultOp, onCall: int, i: nat): Option<nat>
    decreases |faults| - i
  {
    if i >= |faults| then None
    else if i !in used && FaultMatches(faults[i], op, onCall) then Some(i)
    else FindFault(faults, used, op, onCall, i + 1)
  }

  function ArmedFault(env: Env, m: Machine, op: FaultOp, onCall: int): Option<Fault> {
    var i := FindFault(env.faults, m.t.usedFaults, op, onCall, 0);
    if i.Some? && i.value < |env.faults| then Some(env.faults[i.value]) else None
  }

  function Consume(env: Env, m: Machine, op: FaultOp, onCall: int): Machine {
    var i := FindFault(env.faults, m.t.usedFaults, op, onCall, 0);
    if i.Some? then m.(t := m.t.(usedFaults := m.t.usedFaults + {i.value})) else m
  }

  /** The value of the first row with this key. */
  function Lookup(rows: seq<Row>, key: Octets): Option<Octets> {
    if rows == [] then None
    else if rows[0].key == key then Some(rows[0].val)
    else Lookup(rows[1..], key)
  }

  function GetStart(m: Machine, purpose: Purpose): Machine {
    m.(t := m.t.(getCall := m.t.getCall + 1, trace := m.t.trace + [Get(purpose)]))
  }

  // ----- profile gets

  datatype GateResult = GateResult(m: Machine, gate: Gate)
  datatype GetResult = GetResult(m: Machine, refusal: Option<Status>)

  function Retained(p: Profile, id: nat, raw: Octets): Profile {
    p.(retained := p.retained[id := raw], present := p.present + {id})
  }

  /** The get of one catalog key; a value is retained unless the get is refused. */
  function ProfileGetOne(env: Env, m: Machine, id: nat): GetResult
    requires IsId(id)
  {
    var m1 := GetStart(m, ProfileGet);
    var fault := ArmedFault(env, m1, OnGet, m1.t.getCall);
    var m2 := Consume(env, m1, OnGet, m1.t.getCall);
    var code := if fault.Some? && fault.value.code.Some? then fault.value.code.value else PortOk;
    if fault.Some? && (fault.value.unknownShape || code == UnknownRaw) then
      GetResult(m2.(h := m2.h.(fence := true)), Some(StorageCorrupt))
    else if fault.Some? && code != PortOk then
      GetResult(m2, Some(MapStorage(code)))
    else
      match Lookup(m2.rows, CatalogKey(id))
      case None => GetResult(m2, Some(StorageCorrupt))
      case Some(raw) =>
        if |raw| > Capacity(id) then GetResult(m2, Some(StorageCorrupt))
        else GetResult(m2.(p := Retained(m2.p, id, raw)), None)
  }

  /** The gets from one catalog key on, then the comparison of what they retained. */
  function ProfileGets(env: Env, m: Machine, id: nat): GateResult
    requires 1 <= id <= 18
    decreases 18 - id
  {
    if id == 18 then
      GateResult(m, if m.p.present != AllIds() then Refused(StorageCorrupt) else env.gate(m.p.retained))
    else
      var r := ProfileGetOne(env, m, id);
      if r.refusal.Some? then GateResult(r.m, Refused(r.refusal.value))
      else ProfileGets(env, r.m, id + 1)
  }

  // ----- closing a session

  function CountRollbacks(trace: seq<Event>): nat {
    if trace == [] then 0
    else CountRollbacks(trace[..|trace| - 1]) + (if trace[|trace| - 1] == Rollback then 1 else 0)
  }

  function CloseIterator(m: Machine): Machine {
    if m.h.iterLive && m.h.txnLive then Emit(m, IterClose).(h := m.h.(iterLive := false)) else m
  }

  function RollBack(env: Env, m: Machine): Machine {
    if !m.h.txnLive then m
    else
      var onCall := 1 + CountRollbacks(m.t.trace);
      var fault := ArmedFault(env, m, OnRollback, onCall);
      var m1 := Emit(Consume(env, m, OnRollback, onCall), Rollback);
      var m2 := m1.(h := m1.h.(txnLive := false, iterLive := false));
      if fault.None? then m2
      else
        var code := if fault.value.code.Some? then fault.value.code.value else IoError;
        var mapped := if fault.value.unknownShape || code == UnknownRaw then StorageCorrupt else MapStorage(code);
        m2.(h := Stick(m2.h, mapped).(fence := true))
  }

  function CloseFence(m: Machine): Machine {
    if m.h.fence then
      m.(
        h := m.h.(fence := false),
        t := m.t.(trace := m.t.trace + [Close], closes := m.t.closes + 1, reopen := true))
    else m
  }

  function Cleanup(env: Env, m: Machine): Machine {
    var m1 := CloseFence(RollBack(env, CloseIterator(m)));
    m1.(h := m1.h.(phase := Done))
  }

  function OutcomeOf(h: Hold): Status {
    if h.sticky.Some? then h.sticky.value else Ok
  }

  // ----- opening a session

  /** The profile verdict is recorded, and the walk will be reconciled against it. */
  function Judged(p: Profile, gate: Gate): Profile {
    p.(exact := p.exact || gate == Exact, mismatch := p.mismatch || gate == Mismatch,
       future := p.future || gate == Future, recon := true)
  }

  function OpenIterator(env: Env, m: Machine, gate: Gate): Outcome {
    var m1 := m.(p := Judged(m.p, gate));
    var fault := ArmedFault(env, m1, OnIterOpen, 1);
    var m2 := Consume(env, m1, OnIterOpen, 1);
    if fault.Some? then
      var m3 := Cleanup(env, m2.(h := Stick(m2.h, StorageCorrupt)));
      Next(m3, OutcomeOf(m3.h))
    else
      Next(m2.(
        h := m2.h.(iterLive := true, phase := Open),
        y := m2.y.(rowIndex := 0),
        t := m2.t.(iterOpens := m2.t.iterOpens + 1, trace := m2.t.trace + [IterOpen])), Ok)
  }

  /** The transaction has begun and nothing is retained. */
  function Prepared(m: Machine, d3: bool): Machine {
    m.(
      h := m.h.(txnLive := true, d3Bound := d3),
      p := m.p.(retained := map[], present := {}),
      t := m.t.(trace := m.t.trace + [BeginReadOnly]))
  }

  function Begin(env: Env, m: Machine, d3: bool): Outcome {
    var GateResult(m1, gate) := ProfileGets(env, Prepared(m, d3), 1);
    if gate.Refused? then
      var m2 := Cleanup(env, m1.(h := Stick(m1.h, gate.status)));
      Next(m2, OutcomeOf(m2.h))
    else OpenIterator(env, m1, gate)
  }

  // ----- walking the rows

  /** One iteration of the walk: go on, stop with a status, or crash. */
  datatype Tick = TickCrash | Stop(m: Machine, status: Status) | Go(m: Machine)

  function Refuse(m: Machine, status: Status): Tick {
    Stop(Fail(m, status), status)
  }

  /** The row is accepted: it becomes the predecessor of the next one. */
  function Accept(m: Machine, row: Row): Tick {
    Go(m.(y := m.y.(previous := Some(row.key), okRows := m.y.okRows + 1)))
  }

  function TickCatalog(m: Machine, row: Row, id: nat): Tick {
    if !m.p.recon then
      Accept(m.(y := m.y.(family14 := m.y.family14 + 1)), row)
    else if id in m.y.seen then Refuse(m, StorageCorrupt)
    else if !(id in m.p.retained && m.p.retained[id] == row.val) then Refuse(m, StorageCorrupt)
    else Accept(m.(y := m.y.(seen := m.y.seen + {id}, family14 := m.y.family14 + 1)), row)
  }

  /** The result of evaluating the peer of one row. */
  datatype PeerResult = PeerCrash | PeerDone(m: Machine, refusal: Option<Status>)

  function ApplyPeer(env: Env, m: Machine, row: Row): PeerResult {
    match env.plan(m.t.mode, row.key, row.val)
    case PlanCrash => PeerCrash
    case PlanInvalid => PeerDone(m, Some(StorageCorrupt))
    case NotApplicable => PeerDone(m, None)
    case Probe(ev) =>
      var m0 := GetStart(m, PeerGet);
      var m1 := m0.(t := m0.t.(applicable := m0.t.applicable + 1, peerGets := m0.t.peerGets + 1));
      var fault := ArmedFault(env, m1, OnGet, m1.t.getCall);
      var m2 := Consume(env, m1, OnGet, m1.t.getCall);
      if fault.Some? then
        var code := if fault.value.code.Some? then fault.value.code.value else IoError;
        if fault.value.unknownShape || code == UnknownRaw then
          PeerDone(m2.(h := m2.h.(fence := true)), Some(StorageCorrupt))
        else
          PeerDone(m2, Some(MapStorage(code)))
      else
        match Lookup(m2.rows, ev.peerKey)
        case None => PeerDone(m2, if ev.expectPresent then Some(StorageCorrupt) else None)
        case Some(peer) =>
          if !ev.expectPresent then PeerDone(m2, Some(StorageCorrupt))
          else
            match env.check(m2.t.mode, ev, row.val, peer)
            case CheckCrash => PeerCrash
            case Unmet => PeerDone(m2, Some(StorageCorrupt))
            case Met => PeerDone(m2, None)
  }

  function TickTyped(env: Env, m: Machine, row: Row): Tick {
    if m.h.d3Bound && m.h.sticky.None? then
      match ApplyPeer(env, m, row)
      case PeerCrash => TickCrash
      case PeerDone(m1, refusal) =>
        if refusal.Some? then Refuse(m1.(y := m1.y.(previous := Some(row.key))), refusal.value)
        else Accept(m1, row)
    else Accept(m, row)
  }

  function TickDomain(env: Env, m0: Machine, row: Row): Tick {
    var m := m0.(y := m0.y.(currentDomain := m0.y.currentDomain + 1));
    if !m.p.exact then Accept(m, row)
    else
      match env.classify(row.key, row.val)
      case RowCrash => TickCrash
      case RowCorrupt => Refuse(m.(y := m.y.(previous := Some(row.key))), StorageCorrupt)
      case RowFuture => Accept(m.(y := m.y.(futureSeen := true)), row)
      case RowUntyped => Accept(m, row)
      case RowTyped => TickTyped(env, m, row)
  }

  predicate WithinCaps(row: Row) {
    1 <= |row.key| <= KEY_CAP && |row.val| <= VALUE_CAP
  }

  function TickRow(env: Env, m: Machine, row: Row): Tick {
    if !WithinCaps(row) then Refuse(m, StorageCorrupt)
    else if m.y.previous.Some? && !Less(m.y.previous.value, row.key) then Refuse(m, StorageCorrupt)
    else
      match CatalogId(row.key)
      case Some(id) => TickCatalog(m, row, id)
      case None =>
        if m.p.mismatch || m.p.future then Accept(m, row)
        else
          match env.root(row.key, row.val)
          case FutureRoot => Accept(m.(y := m.y.(futureSeen := true)), row)
          case BadFutureRoot => Refuse(m, StorageCorrupt)
          case CurrentRoot => TickDomain(env, m, row)
  }

  function TickOnce(env: Env, m: Machine): Tick {
    var m1 := Emit(m, IterNext);
    if m1.y.rowIndex >= |m1.rows| then
      if m1.p.recon && m1.y.seen != m1.p.present then Refuse(m1, StorageCorrupt)
      else Stop(m1.(h := m1.h.(phase := Exhausted)), Ok)
    else
      TickRow(env, m1.(y := m1.y.(rowIndex := m1.y.rowIndex + 1)), m1.rows[m1.y.rowIndex])
  }

  function Walk(env: Env, m: Machine, left: int): Outcome
    decreases left
  {
    if left <= 0 then Next(m, Ok)
    else
      match TickOnce(env, m)
      case TickCrash => Crash
      case Stop(m1, status) => Next(m1, status)
      case Go(m1) => Walk(env, m1, left - 1)
  }

  // ----- the calls

  /** The checks every port-using call makes on the handle; none means go ahead. */
  function HandleCheck(m: Machine): Option<Machine> {
    if m.h.drifted then
      var m1 := Fail(m, StorageCorrupt);
      Some(m1.(h := m1.h.(fence := true)))
    else if !m.h.txnLive || !m.h.iterLive then Some(Fail(m, StorageCorrupt))
    else None
  }

  function DoAdvance(env: Env, m: Machine, budget: int): Outcome {
    if m.h.phase != Open then Next(m, InvalidState)
    else if budget == 0 then Next(m, InvalidArgument)
    else
      match HandleCheck(m)
      case Some(m1) => Next(m1, StorageCorrupt)
      case None => Walk(env, m, budget)
  }

  function DoExactGet(m: Machine, key: Octets): Outcome {
    if m.h.phase != Open && m.h.phase != Exhausted then Next(m, InvalidState)
    else if |key| < 1 || |key| > KEY_CAP then Next(m, InvalidArgument)
    else
      match HandleCheck(m)
      case Some(m1) => Next(m1, StorageCorrupt)
      case None =>
        var m1 := GetStart(m, ExactGet);
        match Lookup(m1.rows, key)
        case None => Next(m1, Ok)
        case Some(raw) =>
          if |raw| > VALUE_CAP then Next(Fail(m1, StorageCorrupt), StorageCorrupt) else Next(m1, Ok)
  }

  function DoNote(m: Machine): Outcome {
    if m.h.phase != Open && m.h.phase != Exhausted then Next(m, InvalidState)
    else Next(Fail(m, StorageCorrupt), StorageCorrupt)
  }

  function DoFinalize(env: Env, m: Machine): Outcome {
    if m.h.phase != Exhausted && m.h.phase != Failed then Next(m, InvalidState)
    else
      var m1 := Cleanup(env, m);
      Next(m1,
        if m1.h.sticky.Some? then m1.h.sticky.value
        else if m1.p.mismatch || m1.p.future || m1.y.futureSeen then Unsupported
        else Ok)
  }

  function DoAbort(env: Env, m: Machine): Outcome {
    if m.h.phase != Open && m.h.phase != Exhausted && m.h.phase != Failed then Next(m, InvalidState)
    else
      var m1 := Cleanup(env, m);
      Next(m1, OutcomeOf(m1.h))
  }

  function DoSessionInit(env: Env, m: Machine): Outcome {
    if m.h.phase != Done && m.h.phase != Idle then Crash
    else
      Next(m.(p := FreshProfile, y := FreshTally, h := FreshHold, t := if env.resetGetCall then m.t.(getCall := 0) else m.t), Void)
  }

  function DoBeginCrossRow(env: Env, m: Machine, mode: int, badContext: bool): Outcome {
    if m.h.phase != Idle then Next(m, InvalidState)
    else
      var m1 := m.(t := m.t.(mode := mode));
      if mode < 1 || mode > 20 || badContext then Next(m1, InvalidArgument)
      else Begin(env, m1, true)
  }

  function DoBeginProfiled(env: Env, m: Machine, d3Material: bool): Outcome {
    if m.h.phase != Idle then Next(m, InvalidState)
    else if d3Material then Next(m, InvalidArgument)
    else Begin(env, m.(t := m.t.(mode := 0)), false)
  }

  function Step(env: Env, m: Machine, call: Call): Outcome {
    match call
    case SessionInit => DoSessionInit(env, m)
    case UseRows(name) =>
      if name !in env.alternatives || m.h.phase != Idle then Crash
      else Next(m.(rows := env.alternatives[name]), Void)
    case HandleDrift =>
      if m.h.phase != Open && m.h.phase != Exhausted && m.h.phase != Failed then Crash
      else Next(m.(h := m.h.(drifted := true)), Void)
    case BeginProfiled(d3Material) => DoBeginProfiled(env, m, d3Material)
    case BeginCrossRow(mode, badContext) => DoBeginCrossRow(env, m, mode, badContext)
    case Advance(budget) => DoAdvance(env, m, budget)
    case GetExactly(key) => DoExactGet(m, key)
    case NoteCorrupt => DoNote(m)
    case Finalize => DoFinalize(env, m)
    case Abort => DoAbort(env, m)
  }

  /** A run stops at the first uncaught error; otherwise every call has a status. */
  datatype Trail = Halted | Ran(m: Machine, statuses: seq<Status>)

  function Prefixed(statuses: seq<Status>, trail: Trail): Trail {
    if trail.Halted? then Halted else Ran(trail.m, statuses + trail.statuses)
  }

  function Run(env: Env, m: Machine, calls: seq<Call>): Trail
    decreases |calls|
  {
    if calls == [] then Ran(m, [])
    else
      match Step(env, m, calls[0])
      case Crash => Halted
      case Next(m1, status) => Prefixed([status], Run(env, m1, calls[1..]))
  }

  predicate CleanFinish(m: Machine, status: Status) {
    && status == Ok
    && !m.t.reopen
    && m.h.sticky.None?
    && !m.p.mismatch && !m.p.future && !m.y.futureSeen
    && m.h.phase == Done
  }

  /** The verdict on a snapshot at the end of a run. */
  predicate Adopted(calls: seq<Call>, trail: Trail) {
    && trail.Ran?
    && |calls| > 0 && |trail.statuses| > 0
    && calls[|calls| - 1] == Finalize
    && CleanFinish(trail.m, trail.statuses[|trail.statuses| - 1])
  }
}
