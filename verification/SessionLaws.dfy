/**
 Two laws about how calls compose: splitting an advance budget changes nothing, and
 a session does not see the sessions before it.
 */
module SessionLaws {
  import opened SessionMachine
  import opened TraceLaws

  // ----- runs compose

  function Then(env: Env, trail: Trail, calls: seq<Call>): Trail {
    if trail.Halted? then Halted else Prefixed(trail.statuses, Run(env, trail.m, calls))
  }

  lemma {:induction false} RunAppend(env: Env, m: Machine, xs: seq<Call>, ys: seq<Call>)
    ensures Run(env, m, xs + ys) == Then(env, Run(env, m, xs), ys)
    decreases |xs|
  {
    hide Step;
    if xs == [] {
      assert xs + ys == ys;
      if Run(env, m, ys).Ran? {
        assert [] + Run(env, m, ys).statuses == Run(env, m, ys).statuses;
      }
    } else {
      assert (xs + ys)[1..] == xs[1..] + ys;
      var r := Step(env, m, xs[0]);
      if r.Next? {
        RunAppend(env, r.m, xs[1..], ys);
        var t1 := Run(env, r.m, xs[1..]);
        if t1.Ran? && Run(env, t1.m, ys).Ran? {
          var st := Run(env, t1.m, ys).statuses;
          assert ([r.status] + t1.statuses) + st == [r.status] + (t1.statuses + st);
        }
      }
    }
  }

  lemma {:induction false} RunLength(env: Env, m: Machine, calls: seq<Call>)
    requires Run(env, m, calls).Ran?
    ensures |Run(env, m, calls).statuses| == |calls|
    decreases |calls|
  {
    hide Step;
    if calls != [] {
      RunLength(env, Step(env, m, calls[0]).m, calls[1..]);
    }
  }

  // ----- budget fusion

  function WalkOn(env: Env, first: Outcome, b: int): Outcome {
    if first.Next? && first.m.h.phase.Open? then Walk(env, first.m, b) else first
  }

  /** Walking a rows and then b more is walking a + b, unless the first walk has ended. */
  lemma {:induction false} WalkFusion(env: Env, m: Machine, a: nat, b: nat)
    requires WalkState(m, Open)
    ensures Walk(env, m, a + b) == WalkOn(env, Walk(env, m, a), b)
    decreases a
  {
    hide TickOnce, ShapeOf, CountPeerGets, CountCloses;
    if a > 0 {
      TickCoherent(env, m);
      var r := TickOnce(env, m);
      if r.Go? {
        WalkFusion(env, r.m, a - 1, b);
      }
    }
  }

  /** Two advances in a row; the status is the one that ended the walk, if either did. */
  function AdvanceTwice(env: Env, m: Machine, a: int, b: int): Outcome {
    match DoAdvance(env, m, a)
    case Crash => Crash
    case Next(m1, st1) =>
      match DoAdvance(env, m1, b)
      case Crash => Crash
      case Next(m2, st2) => Next(m2, if m1.h.phase.Open? then st2 else st1)
  }

  /** Two advances leave exactly the machine that one advance over the summed budget leaves. */
  lemma BudgetFusion(env: Env, m: Machine, a: nat, b: nat)
    requires Coherent(m) && a > 0 && b > 0
    ensures DoAdvance(env, m, a + b) == AdvanceTwice(env, m, a, b)
  {
    hide Walk, ShapeOf, CountPeerGets, CountCloses;
    if m.h.phase.Open? && !m.h.drifted {
      WalkFusion(env, m, a, b);
      if Walk(env, m, a).Next? {
        WalkCoherent(env, m, a);
      }
    }
  }

  lemma StepOfAdvance(env: Env, m: Machine, n: int)
    ensures Step(env, m, Advance(n)) == DoAdvance(env, m, n)
  {
    hide DoAdvance;
  }

  /** The same machine and the same statuses but for the one extra advance. */
  predicate SameButOneStatus(split: Trail, fused: Trail, at: nat) {
    && (split.Ran? <==> fused.Ran?)
    && (split.Ran? && fused.Ran? ==>
          && split.m == fused.m
          && |split.statuses| == |fused.statuses| + 1
          && at + 1 <= |fused.statuses|
          && split.statuses[..at] == fused.statuses[..at]
          && split.statuses[at + 2..] == fused.statuses[at + 1..])
  }

  lemma SplitHere(env: Env, m: Machine, a: nat, b: nat, after: seq<Call>)
    requires Coherent(m) && a > 0 && b > 0
    ensures SameButOneStatus(Run(env, m, [Advance(a), Advance(b)] + after), Run(env, m, [Advance(a + b)] + after), 0)
  {
    hide Step, DoAdvance, ShapeOf, CountPeerGets, CountCloses;
    BudgetFusion(env, m, a, b);
    StepOfAdvance(env, m, a);
    StepOfAdvance(env, m, a + b);
    assert ([Advance(a + b)] + after)[1..] == after;
    assert ([Advance(a), Advance(b)] + after)[1..] == [Advance(b)] + after;
    assert ([Advance(b)] + after)[1..] == after;
    if DoAdvance(env, m, a).Next? {
      StepOfAdvance(env, DoAdvance(env, m, a).m, b);
    }
  }

  /** Any split of a budget inside any run ends in the same machine. */
  lemma SplitAnywhere(env: Env, rows: seq<Row>, before: seq<Call>, a: nat, b: nat, after: seq<Call>)
    requires a > 0 && b > 0
    ensures SameButOneStatus(
      Run(env, FreshMachine(rows), before + [Advance(a), Advance(b)] + after),
      Run(env, FreshMachine(rows), before + [Advance(a + b)] + after), |before|)
  {
    var m := FreshMachine(rows);
    assert Coherent(m);
    hide Step, Run, ShapeOf, CountPeerGets, CountCloses, Coherent;
    assert before + [Advance(a), Advance(b)] + after == before + ([Advance(a), Advance(b)] + after);
    assert before + [Advance(a + b)] + after == before + ([Advance(a + b)] + after);
    RunAppend(env, m, before, [Advance(a), Advance(b)] + after);
    RunAppend(env, m, before, [Advance(a + b)] + after);
    if Run(env, m, before).Ran? {
      RunLength(env, m, before);
      RunCoherent(env, m, before);
      SplitHere(env, Run(env, m, before).m, a, b, after);
    }
  }
}
