/**
 The profile gets and the walk read one snapshot, so they always agree: the duplicate
 check, the retained-value check and the end-of-walk mask check never fire.
 */
module Reconcile {
  import opened Octets
  import opened Catalog
  import opened SessionMachine
  import opened TraceLaws

  predicate Ascending(rows: seq<Row>) {
    forall i, j :: 0 <= i < j < |rows| ==> Less(rows[i].key, rows[j].key)
  }

  // ----- looking up a snapshot

  lemma {:induction false} LookupAt(rows: seq<Row>, i: nat)
    requires i < |rows|
    requires forall j :: 0 <= j < i ==> rows[j].key != rows[i].key
    ensures Lookup(rows, rows[i].key) == Some(rows[i].val)
  {
    if i > 0 {
      LookupAt(rows[1..], i - 1);
    }
  }

  lemma {:induction false} LookupNone(rows: seq<Row>, key: Octets)
    ensures Lookup(rows, key).None? <==> forall i :: 0 <= i < |rows| ==> rows[i].key != key
  {
    if rows != [] {
      LookupNone(rows[1..], key);
      assert forall i :: 0 <= i < |rows| - 1 ==> rows[1..][i] == rows[i + 1];
      assert forall i :: 1 <= i < |rows| ==> rows[i] == rows[1..][i - 1];
    }
  }

  /** In an ascending prefix a lookup finds the row itself. */
  lemma LookupAscending(rows: seq<Row>, i: nat)
    requires i < |rows| && Ascending(rows[..i + 1])
    ensures Lookup(rows, rows[i].key) == Some(rows[i].val)
  {
    forall j | 0 <= j < i ensures rows[j].key != rows[i].key {
      assert Less(rows[..i + 1][j].key, rows[..i + 1][i].key);
      LessIrreflexive(rows[i].key);
    }
    LookupAt(rows, i);
  }

  lemma AscendingExtends(rows: seq<Row>, i: nat)
    requires i < |rows| && Ascending(rows[..i])
    requires i > 0 ==> Less(rows[i - 1].key, rows[i].key)
    ensures Ascending(rows[..i + 1])
  {
    var upto := rows[..i + 1];
    forall j, k | 0 <= j < k < |upto| ensures Less(upto[j].key, upto[k].key) {
      if k < i {
        assert Less(rows[..i][j].key, rows[..i][k].key);
      } else if j < i - 1 {
        assert Less(rows[..i][j].key, rows[..i][i - 1].key);
        LessTransitive(rows[j].key, rows[i - 1].key, rows[i].key);
      }
    }
  }

  // ----- the invariant

  predicate RetainedFrom(rows: seq<Row>, p: Profile, ids: set<nat>) {
    && p.present == ids
    && p.retained.Keys == ids
    && forall id :: id in ids && IsId(id) ==> Lookup(rows, CatalogKey(id)) == Some(p.retained[id])
  }

  predicate SeenUpTo(rows: seq<Row>, n: nat, seen: set<nat>)
    requires n <= |rows|
  {
    && (forall id :: id in seen ==> IsId(id) && exists j :: 0 <= j < n && CatalogId(rows[j].key) == Some(id))
    && (forall j :: 0 <= j < n && CatalogId(rows[j].key).Some? ==> CatalogId(rows[j].key).value in seen)
  }

  predicate Reconciled(m: Machine) {
    && m.y.rowIndex <= |m.rows|
    && m.p.recon
    && RetainedFrom(m.rows, m.p, AllIds())
    && Ascending(m.rows[..m.y.rowIndex])
    && m.y.previous == (if m.y.rowIndex == 0 then None else Some(m.rows[m.y.rowIndex - 1].key))
    && SeenUpTo(m.rows, m.y.rowIndex, m.y.seen)
    && m.y.family14 == |m.y.seen|
  }

  predicate WalkReconciled(m: Machine) {
    m.h.phase.Open? || m.h.phase.Exhausted? ==> Reconciled(m)
  }

  // ----- opening

  function IdsBelow(id: nat): set<nat> {
    set k: nat | k < id && IsId(k)
  }

  lemma {:induction false} GetsRetain(env: Env, m: Machine, id: nat)
    requires 1 <= id <= 18 && RetainedFrom(m.rows, m.p, IdsBelow(id))
    ensures var r := ProfileGets(env, m, id);
      !r.gate.Refused? ==>
        RetainedFrom(m.rows, r.m.p, AllIds()) && r.gate == env.gate(r.m.p.retained) && r.m.rows == m.rows
    decreases 18 - id
  {
    hide ProfileGetOne, Lookup;
    if id < 18 {
      ProfileGetEffect(env, m, id);
      var r := ProfileGetOne(env, m, id);
      if r.refusal.None? {
        assert IdsBelow(id + 1) == IdsBelow(id) + {id};
        GetsRetain(env, r.m, id + 1);
      }
    } else {
      assert IdsBelow(18) == AllIds();
    }
  }

  lemma BeginReconciles(env: Env, m: Machine, d3: bool)
    requires Coherent(m) && m.h.phase.Idle?
    ensures Begin(env, m, d3).Next?
    ensures WalkReconciled(Begin(env, m, d3).m)
  {
    BeginCoherent(env, m, d3);
    var m2 := Prepared(m, d3);
    assert IdsBelow(1) == {};
    GetsRetain(env, m2, 1);
    NothingWalked(m.rows);
    hide ShapeOf, CountPeerGets, CountCloses, ProfileGets, Cleanup, ArmedFault, FindFault, Lookup, RetainedFrom, Ascending, SeenUpTo,
         PeersCounted, ReopenIsClose;
  }

  lemma NothingWalked(rows: seq<Row>)
    ensures Ascending(rows[..0]) && SeenUpTo(rows, 0, {})
  {
  }

  // ----- walking

  /** At a catalog row in order, the bit is unseen and the value is the one retained. */
  lemma CatalogRowAgrees(m: Machine, id: nat)
    requires Reconciled(m) && m.y.rowIndex < |m.rows|
    requires m.y.previous.Some? ==> Less(m.y.previous.value, m.rows[m.y.rowIndex].key)
    requires CatalogId(m.rows[m.y.rowIndex].key) == Some(id)
    ensures IsId(id) && id !in m.y.seen
    ensures id in m.p.retained && m.p.retained[id] == m.rows[m.y.rowIndex].val
  {
    hide Lookup, Less;
    var i := m.y.rowIndex;
    CatalogKeyOfId(m.rows[i].key);
    AscendingExtends(m.rows, i);
    LookupAscending(m.rows, i);
    if id in m.y.seen {
      var j :| 0 <= j < i && CatalogId(m.rows[j].key) == Some(id);
      CatalogKeyOfId(m.rows[j].key);
      assert Less(m.rows[..i + 1][j].key, m.rows[..i + 1][i].key);
      LessIrreflexive(m.rows[i].key);
    }
  }

  /** At the end of the snapshot every profile key has been seen. */
  lemma EndMaskAgrees(m: Machine)
    requires Reconciled(m) && m.y.rowIndex == |m.rows|
    ensures m.y.seen == m.p.present == AllIds()
  {
    hide Lookup, CatalogId;
    forall id | id in AllIds() ensures id in m.y.seen {
      LookupNone(m.rows, CatalogKey(id));
      var j :| 0 <= j < |m.rows| && m.rows[j].key == CatalogKey(id);
      CatalogIdOfKey(id);
    }
  }

  lemma SeenExtends(rows: seq<Row>, n: nat, seen: set<nat>)
    requires n < |rows| && SeenUpTo(rows, n, seen)
    ensures CatalogId(rows[n].key).None? ==> SeenUpTo(rows, n + 1, seen)
    ensures CatalogId(rows[n].key).Some? ==> SeenUpTo(rows, n + 1, seen + {CatalogId(rows[n].key).value})
  {
    hide CatalogId, IsId;
    var id := CatalogId(rows[n].key);
    if id.Some? {
      CatalogKeyOfId(rows[n].key);
      SeenAdds(rows, n, seen, id.value);
    } else {
      SeenKept(rows, n, seen);
    }
  }

  lemma SeenKept(rows: seq<Row>, n: nat, seen: set<nat>)
    requires n < |rows| && SeenUpTo(rows, n, seen) && CatalogId(rows[n].key).None?
    ensures SeenUpTo(rows, n + 1, seen)
  {
    hide CatalogId, IsId;
    forall id | id in seen ensures IsId(id) && exists j :: 0 <= j < n + 1 && CatalogId(rows[j].key) == Some(id) {
      var j :| 0 <= j < n && CatalogId(rows[j].key) == Some(id);
    }
  }

  lemma SeenAdds(rows: seq<Row>, n: nat, seen: set<nat>, added: nat)
    requires n < |rows| && SeenUpTo(rows, n, seen) && CatalogId(rows[n].key) == Some(added) && IsId(added)
    ensures SeenUpTo(rows, n + 1, seen + {added})
  {
    hide CatalogId, IsId;
    forall id | id in seen + {added} ensures IsId(id) && exists j :: 0 <= j < n + 1 && CatalogId(rows[j].key) == Some(id) {
      if id in seen {
        var j :| 0 <= j < n && CatalogId(rows[j].key) == Some(id);
      } else {
        assert CatalogId(rows[n].key) == Some(id);
      }
    }
  }

  // ----- what an accepted row leaves behind

  predicate KeepsCount(before: Machine, r: Tick, row: Row) {
    r.Go? ==>
      && r.m.rows == before.rows && r.m.p == before.p
      && r.m.y.rowIndex == before.y.rowIndex
      && r.m.y.previous == Some(row.key)
      && r.m.y.seen == before.y.seen && r.m.y.family14 == before.y.family14
  }

  lemma DomainKeepsCount(env: Env, m: Machine, row: Row)
    ensures KeepsCount(m, TickDomain(env, m, row), row)
  {
    hide ApplyPeer;
    var m1 := m.(y := m.y.(currentDomain := m.y.currentDomain + 1));
    if ApplyPeer(env, m1, row).PeerDone? {
      PeerEffect(env, m1, row);
    }
  }

  lemma RowKeepsCount(env: Env, m: Machine, row: Row)
    requires CatalogId(row.key).None?
    ensures KeepsCount(m, TickRow(env, m, row), row)
  {
    hide TickDomain, Less, CatalogId;
    DomainKeepsCount(env, m, row);
  }

  lemma RowOrdered(env: Env, m: Machine, row: Row)
    ensures TickRow(env, m, row).Go? ==>
      WithinCaps(row) && (m.y.previous.Some? ==> Less(m.y.previous.value, row.key))
  {
    hide TickDomain, TickCatalog, Less, CatalogId;
  }

  lemma CatalogCounts(m: Machine, row: Row, id: nat)
    requires m.p.recon && TickCatalog(m, row, id).Go?
    ensures var r := TickCatalog(m, row, id).m;
      && r == m.(y := r.y)
      && r.y.rowIndex == m.y.rowIndex && r.y.previous == Some(row.key)
      && id !in m.y.seen && r.y.seen == m.y.seen + {id} && r.y.family14 == m.y.family14 + 1
  {
  }

  lemma RowReconciles(env: Env, m: Machine)
    requires Reconciled(m) && m.y.rowIndex < |m.rows|
    requires TickOnce(env, m).Go?
    ensures Reconciled(TickOnce(env, m).m)
  {
    hide TickRow, TickDomain, TickCatalog, Lookup, Less, CatalogId;
    var i := m.y.rowIndex;
    var row := m.rows[i];
    var m0 := Emit(m, IterNext);
    var m1 := m0.(y := m0.y.(rowIndex := i + 1));
    RowOrdered(env, m1, row);
    AscendingExtends(m.rows, i);
    SeenExtends(m.rows, i, m.y.seen);
    if CatalogId(row.key).None? {
      RowKeepsCount(env, m1, row);
    } else {
      var id := CatalogId(row.key).value;
      RowIsCatalog(env, m1, row, id);
      CatalogCounts(m1, row, id);
    }
  }

  lemma RowIsCatalog(env: Env, m: Machine, row: Row, id: nat)
    requires CatalogId(row.key) == Some(id)
    ensures TickRow(env, m, row).Go? ==> TickRow(env, m, row) == TickCatalog(m, row, id)
    ensures WithinCaps(row) && (m.y.previous.Some? ==> Less(m.y.previous.value, row.key))
      ==> TickRow(env, m, row) == TickCatalog(m, row, id)
  {
    hide TickDomain, TickCatalog, Less, CatalogId;
  }

  lemma {:induction false} WalkReconciles(env: Env, m: Machine, left: int)
    requires WalkState(m, Open) && Reconciled(m)
    requires Walk(env, m, left).Next?
    ensures WalkReconciled(Walk(env, m, left).m)
    decreases left
  {
    hide TickOnce, ShapeOf, CountPeerGets, CountCloses, Ascending, SeenUpTo, RetainedFrom, PeersCounted, ReopenIsClose, InWalk;
    if left > 0 {
      TickCoherent(env, m);
      var r := TickOnce(env, m);
      if r.Go? {
        TickAtEnd(env, m);
        RowReconciles(env, m);
        WalkReconciles(env, r.m, left - 1);
      } else if r.Stop? && r.m.h.phase.Exhausted? {
        TickExhausts(env, m);
      }
    }
  }

  lemma TickAtEnd(env: Env, m: Machine)
    ensures TickOnce(env, m).Go? ==> m.y.rowIndex < |m.rows|
  {
    hide TickRow;
  }

  lemma TickExhausts(env: Env, m: Machine)
    requires WalkState(m, Open)
    requires TickOnce(env, m).Stop? && TickOnce(env, m).m.h.phase.Exhausted?
    ensures TickOnce(env, m).m == Emit(m, IterNext).(h := m.h.(phase := Exhausted))
    ensures m.y.rowIndex >= |m.rows|
  {
    hide TickRow, ShapeOf, CountPeerGets, CountCloses;
    var m1 := Emit(m, IterNext);
    ShapeStep(m.t.trace, IterNext);
    CountStep(m.t.trace, IterNext);
    if m1.y.rowIndex < |m1.rows| {
      RowCoherent(env, m1.(y := m1.y.(rowIndex := m1.y.rowIndex + 1)), m1.rows[m1.y.rowIndex]);
    }
  }

  // ----- every run

  lemma StepReconciles(env: Env, m: Machine, call: Call)
    requires Coherent(m) && WalkReconciled(m)
    requires Step(env, m, call).Next?
    ensures WalkReconciled(Step(env, m, call).m)
  {
    hide ShapeOf, CountPeerGets, CountCloses, Begin, RollBack, CloseFence, Walk, Lookup, Ascending, SeenUpTo, RetainedFrom, InWalk;
    match call {
      case Advance(budget) =>
        if m.h.phase.Open? && !m.h.drifted && budget != 0 { WalkReconciles(env, m, budget); }
      case BeginProfiled(_) =>
        if m.h.phase.Idle? { BeginReconciles(env, m.(t := m.t.(mode := 0)), false); }
      case BeginCrossRow(mode, _) =>
        if m.h.phase.Idle? { BeginReconciles(env, m.(t := m.t.(mode := mode)), true); }
      case _ =>
    }
  }

  lemma {:induction false} RunReconciles(env: Env, m: Machine, calls: seq<Call>)
    requires Coherent(m) && WalkReconciled(m)
    requires Run(env, m, calls).Ran?
    ensures WalkReconciled(Run(env, m, calls).m)
    decreases |calls|
  {
    hide Step, Coherent, WalkReconciled;
    if calls != [] {
      StepCoherent(env, m, calls[0]);
      StepReconciles(env, m, calls[0]);
      RunReconciles(env, Step(env, m, calls[0]).m, calls[1..]);
    }
  }

  /**
   In every reachable open session the reconciliation checks cannot fire: a catalog row
   that is in order is accepted, and at the end of the rows the walk is exhausted.
   */
  lemma ReconciliationNeverFails(env: Env, rows: seq<Row>, calls: seq<Call>)
    requires Run(env, FreshMachine(rows), calls).Ran?
    ensures var m := Run(env, FreshMachine(rows), calls).m;
      m.h.phase.Open? ==>
        && m.y.family14 == |m.y.seen|
        && m.y.rowIndex <= |m.rows|
        && (m.y.rowIndex == |m.rows| ==> TickOnce(env, m) == Stop(Emit(m, IterNext).(h := m.h.(phase := Exhausted)), Ok))
        && (m.y.rowIndex < |m.rows| ==>
              var row := m.rows[m.y.rowIndex];
              CatalogId(row.key).Some? && WithinCaps(row)
              && (m.y.previous.Some? ==> Less(m.y.previous.value, row.key))
              ==> TickOnce(env, m).Go?)
  {
    var m0 := FreshMachine(rows);
    assert Coherent(m0);
    hide Step, ShapeOf, CountPeerGets, CountCloses, TickRow, Lookup, Less, CatalogId;
    EveryTraceIsInGrammar(env, rows, calls);
    RunReconciles(env, m0, calls);
    var m := Run(env, m0, calls).m;
    if m.h.phase.Open? && m.y.rowIndex == |m.rows| {
      EndMaskAgrees(m);
    } else if m.h.phase.Open? && CatalogId(m.rows[m.y.rowIndex].key).Some? {
      var row := m.rows[m.y.rowIndex];
      if m.y.previous.Some? ==> Less(m.y.previous.value, row.key) {
        var id := CatalogId(row.key).value;
        var m1 := Emit(m, IterNext);
        CatalogRowAgrees(m, id);
        RowIsCatalog(env, m1.(y := m1.y.(rowIndex := m1.y.rowIndex + 1)), row, id);
      }
    }
  }
}
