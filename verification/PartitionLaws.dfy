/** What the greedy cut guarantees: coverage, bounds, when it fails, and that it is shortest. */
module PartitionLaws {
  import opened Json
  import opened Partition

  // ----- coverage

  /** Non-empty slices that follow each other from lo to hi. */
  predicate Tiles(slices: seq<Slice>, lo: nat, hi: nat) {
    if slices == [] then lo == hi
    else slices[0].start == lo < slices[0].end <= hi && Tiles(slices[1..], slices[0].end, hi)
  }

  lemma {:induction false} TilesAppend(a: seq<Slice>, b: seq<Slice>, lo: nat, mid: nat, hi: nat)
    requires Tiles(a, lo, mid) && Tiles(b, mid, hi) && mid <= hi
    ensures Tiles(a + b, lo, hi)
  {
    if a == [] {
      assert a + b == b;
    } else {
      assert (a + b)[1..] == a[1..] + b;
      TilesAppend(a[1..], b, a[0].end, mid, hi);
    }
  }

  /** A slice is within a range of its stage, under the hard cap, and under the target unless it is one vector. */
  predicate SliceOk(sizes: seq<nat>, s: Slice, r: StageRange, target: nat) {
    && s.stage == r.stage && r.lo <= s.start < s.end <= r.hi <= |sizes|
    && SliceSize(sizes, s.start, s.end) <= MAX_SHARD_BYTES
    && (s.end == s.start + 1 || SliceSize(sizes, s.start, s.end) <= target)
  }

  lemma {:induction false} ExtendBounds(sizes: seq<nat>, start: nat, end: nat, stop: nat, target: nat)
    requires start <= end <= stop <= |sizes| && start < stop
    requires end > start ==> SliceSize(sizes, start, end) <= MAX_SHARD_BYTES
    requires end > start + 1 ==> SliceSize(sizes, start, end) <= target
    ensures var r := Extend(sizes, start, end, stop, target);
      r.Some? ==>
        && SliceSize(sizes, start, r.value) <= MAX_SHARD_BYTES
        && (r.value == start + 1 || SliceSize(sizes, start, r.value) <= target)
    decreases stop - end
  {
    hide SliceSize;
    if end < stop && !(end > start && SliceSize(sizes, start, end + 1) > target)
       && SliceSize(sizes, start, end + 1) <= MAX_SHARD_BYTES {
      ExtendBounds(sizes, start, end + 1, stop, target);
    }
  }

  lemma {:induction false} StageCovers(sizes: seq<nat>, r: StageRange, start: nat, index: nat, target: nat)
    requires r.lo <= start <= r.hi <= |sizes|
    ensures var c := CutStage(sizes, start, r.hi, r.stage, index, target);
      c.Some? ==>
        && Tiles(c.value, start, r.hi)
        && (forall k :: 0 <= k < |c.value| ==> SliceOk(sizes, c.value[k], r, target) && c.value[k].index == index + k)
    decreases r.hi - start
  {
    hide SliceSize;
    if start < r.hi {
      ExtendBounds(sizes, start, start, r.hi, target);
      var e := Extend(sizes, start, start, r.hi, target);
      if e.Some? {
        StageCovers(sizes, r, e.value, index + 1, target);
        var rest := CutStage(sizes, e.value, r.hi, r.stage, index + 1, target);
        if rest.Some? {
          var all := [Slice(start, e.value, r.stage, index)] + rest.value;
          assert all[1..] == rest.value;
        }
      }
    }
  }

  /** Ranges that follow each other up to the end. */
  predicate Follow(ranges: seq<StageRange>, lo: nat, hi: nat) {
    if ranges == [] then lo == hi
    else ranges[0].lo == lo <= ranges[0].hi <= hi && Follow(ranges[1..], ranges[0].hi, hi)
  }

  lemma StagesFollow(count: nat)
    ensures Follow(StageRanges(count), 0, count)
  {
    var r := StageRanges(count);
    if count >= 283 {
      assert r[1..][0] == r[1] && r[1..][1..] == r[2..] && r[2..][0] == r[2] && r[2..][1..] == r[3..];
      if count > 283 {
        assert r[3..][0] == r[3] && r[3..][1..] == [];
        assert Follow(r[3..], 283, count);
      } else {
        assert r[3..] == [];
      }
      assert Follow(r[2..], 144, count);
    }
  }

  lemma {:induction false} RangesCover(sizes: seq<nat>, ranges: seq<StageRange>, lo: nat, hi: nat, target: nat)
    requires Follow(ranges, lo, hi) && hi <= |sizes|
    requires forall r :: r in ranges ==> r.lo <= r.hi <= |sizes|
    ensures var c := CutAll(sizes, ranges, target);
      c.Some? ==>
        && lo <= hi && Tiles(c.value, lo, hi)
        && (forall s :: s in c.value ==> exists r :: r in ranges && SliceOk(sizes, s, r, target))
    decreases |ranges|
  {
    hide SliceSize, CutStage;
    if ranges != [] {
      var r := ranges[0];
      StageCovers(sizes, r, r.lo, 0, target);
      RangesCover(sizes, ranges[1..], r.hi, hi, target);
      var first := CutStage(sizes, r.lo, r.hi, r.stage, 0, target);
      var rest := CutAll(sizes, ranges[1..], target);
      if first.Some? && rest.Some? {
        TilesAppend(first.value, rest.value, lo, r.hi, hi);
        forall s | s in first.value + rest.value ensures exists r :: r in ranges && SliceOk(sizes, s, r, target) {
          if s in first.value {
            assert r in ranges;
          } else {
            var q :| q in ranges[1..] && SliceOk(sizes, s, q, target);
            assert q in ranges;
          }
        }
      }
    }
  }

  /**
   A cut covers every vector once, in order, in non-empty slices that never cross a stage,
   each under the hard cap and, unless it is a single vector, under the target.
   */
  lemma CutCovers(vectors: seq<Value>, target: nat)
    ensures var c := Partitioned(vectors, target);
      c.Some? ==>
        && Tiles(c.value, 0, |vectors|)
        && (forall s :: s in c.value ==>
              exists r :: r in StageRanges(|vectors|) && SliceOk(Sizes(vectors), s, r, target))
  {
    hide StageRanges, SliceOk, CutAll;
    RangesInside(|vectors|);
    StagesFollow(|vectors|);
    RangesCover(Sizes(vectors), StageRanges(|vectors|), 0, |vectors|, target);
  }

  // ----- failure

  predicate TooBig(sizes: seq<nat>, i: nat)
    requires i < |sizes|
  {
    SliceSize(sizes, i, i + 1) > MAX_SHARD_BYTES
  }

  lemma {:induction false} ExtendFails(sizes: seq<nat>, start: nat, end: nat, stop: nat, target: nat)
    requires start <= end <= stop <= |sizes| && target <= MAX_SHARD_BYTES
    ensures Extend(sizes, start, end, stop, target).None? <==> end == start < stop && TooBig(sizes, start)
    decreases stop - end
  {
    hide SliceSize;
    if end < stop {
      ExtendFails(sizes, start, end + 1, stop, target);
    }
  }

  /** A vector that does not fit alone is never swallowed by an earlier slice. */
  lemma BigStopsSlice(sizes: seq<nat>, start: nat, stop: nat, target: nat, i: nat)
    requires start <= i < stop <= |sizes| && target <= MAX_SHARD_BYTES && TooBig(sizes, i)
    requires Extend(sizes, start, start, stop, target).Some?
    ensures Extend(sizes, start, start, stop, target).value <= i
  {
    hide SliceSize;
    ExtendBounds(sizes, start, start, stop, target);
    var e := Extend(sizes, start, start, stop, target).value;
    if i < e {
      SliceMonotone(sizes, start, e, i, i + 1);
    }
  }

  lemma {:induction false} StageFails(sizes: seq<nat>, start: nat, stop: nat, stage: Stage, index: nat, target: nat)
    requires start <= stop <= |sizes| && target <= MAX_SHARD_BYTES
    ensures CutStage(sizes, start, stop, stage, index, target).None? <==> exists i :: start <= i < stop && TooBig(sizes, i)
    decreases stop - start
  {
    hide TooBig, Extend;
    if start < stop {
      ExtendFails(sizes, start, start, stop, target);
      var e := Extend(sizes, start, start, stop, target);
      if e.Some? {
        StageFails(sizes, e.value, stop, stage, index + 1, target);
        if exists i :: start <= i < stop && TooBig(sizes, i) {
          var i :| start <= i < stop && TooBig(sizes, i);
          BigStopsSlice(sizes, start, stop, target, i);
        }
      }
    }
  }

  lemma {:induction false} RangesFail(sizes: seq<nat>, ranges: seq<StageRange>, lo: nat, hi: nat, target: nat)
    requires Follow(ranges, lo, hi) && hi <= |sizes| && target <= MAX_SHARD_BYTES
    requires forall r :: r in ranges ==> r.lo <= r.hi <= |sizes|
    ensures CutAll(sizes, ranges, target).None? <==> exists i :: lo <= i < hi && TooBig(sizes, i)
    decreases |ranges|
  {
    hide TooBig, CutStage;
    if ranges != [] {
      var r := ranges[0];
      StageFails(sizes, r.lo, r.hi, r.stage, 0, target);
      RangesFail(sizes, ranges[1..], r.hi, hi, target);
      FollowOrder(ranges[1..], r.hi, hi);
    }
  }

  lemma {:induction false} FollowOrder(ranges: seq<StageRange>, lo: nat, hi: nat)
    requires Follow(ranges, lo, hi)
    ensures lo <= hi
  {
  }

  predicate SomeTooBig(sizes: seq<nat>) {
    exists i :: 0 <= i < |sizes| && TooBig(sizes, i)
  }

  lemma SizesFailIff(sizes: seq<nat>, target: nat)
    requires target <= MAX_SHARD_BYTES
    requires forall r :: r in StageRanges(|sizes|) ==> r.lo <= r.hi <= |sizes|
    ensures CutAll(sizes, StageRanges(|sizes|), target).None? <==> SomeTooBig(sizes)
  {
    hide StageRanges, TooBig, CutAll, Follow;
    StagesFollow(|sizes|);
    RangesFail(sizes, StageRanges(|sizes|), 0, |sizes|, target);
  }

  /** With a target within the cap, cutting fails if and only if some vector does not fit the cap alone. */
  lemma CutFailsIff(vectors: seq<Value>, target: nat)
    requires target <= MAX_SHARD_BYTES
    ensures Partitioned(vectors, target).None? <==> SomeTooBig(Sizes(vectors))
  {
    hide SomeTooBig, CutAll, StageRanges, Sizes;
    RangesInside(|vectors|);
    SizesFailIff(Sizes(vectors), target);
  }

  // ----- stages and numbers

  /** The stage of a slice by where it lies. */
  predicate StagedByPlace(s: Slice, count: nat) {
    if count < 283 then s.stage == Legacy
    else
      || (s.stage == D3S1 && s.end <= 94)
      || (s.stage == D3S2 && 94 <= s.start && s.end <= 144)
      || (s.stage == D3S3 && 144 <= s.start && s.end <= 283)
      || (s.stage == D3S4 && 283 <= s.start)
  }

  /** Slices are numbered from nought within each stage. */
  predicate Numbered(slices: seq<Slice>) {
    && (slices != [] ==> slices[0].index == 0)
    && (forall i, j :: 0 <= i && j == i + 1 < |slices| ==>
          slices[j].index == if slices[j].stage == slices[i].stage then slices[i].index + 1 else 0)
  }

  lemma {:induction false} StageNumbers(sizes: seq<nat>, start: nat, stop: nat, stage: Stage, index: nat, target: nat)
    requires start <= stop <= |sizes|
    ensures var c := CutStage(sizes, start, stop, stage, index, target);
      c.Some? ==> forall i :: 0 <= i < |c.value| ==> c.value[i].stage == stage && c.value[i].index == index + i
    decreases stop - start
  {
    hide Extend, SliceSize;
    if start < stop {
      var e := Extend(sizes, start, start, stop, target);
      if e.Some? {
        StageNumbers(sizes, e.value, stop, stage, index + 1, target);
      }
    }
  }

  predicate OwnStages(ranges: seq<StageRange>) {
    forall i, j :: 0 <= i < j < |ranges| ==> ranges[i].stage != ranges[j].stage
  }

  predicate InStages(slices: seq<Slice>, ranges: seq<StageRange>) {
    forall i :: 0 <= i < |slices| ==> exists r :: r in ranges && slices[i].stage == r.stage
  }

  lemma NumberedParts(first: seq<Slice>, rest: seq<Slice>, stage: Stage, ranges: seq<StageRange>)
    requires forall i :: 0 <= i < |first| ==> first[i].stage == stage && first[i].index == i
    requires Numbered(rest) && InStages(rest, ranges) && forall r :: r in ranges ==> r.stage != stage
    ensures Numbered(first + rest)
  {
    var all := first + rest;
    forall i, j | 0 <= i && j == i + 1 < |all|
      ensures all[j].index == if all[j].stage == all[i].stage then all[i].index + 1 else 0
    {
      if j == |first| {
        assert all[j] == rest[0];
      } else if j > |first| {
        assert all[i] == rest[i - |first|] && all[j] == rest[j - |first|];
      }
    }
  }

  lemma {:induction false} AllNumbered(sizes: seq<nat>, ranges: seq<StageRange>, target: nat)
    requires forall r :: r in ranges ==> r.lo <= r.hi <= |sizes|
    requires OwnStages(ranges)
    ensures var c := CutAll(sizes, ranges, target);
      c.Some? ==> Numbered(c.value) && InStages(c.value, ranges)
  {
    hide CutStage;
    if ranges != [] {
      var r := ranges[0];
      StageNumbers(sizes, r.lo, r.hi, r.stage, 0, target);
      assert forall i, j :: 0 <= i < j < |ranges[1..]| ==> ranges[1..][i] == ranges[i + 1] && ranges[1..][j] == ranges[j + 1];
      AllNumbered(sizes, ranges[1..], target);
      var first, rest := CutStage(sizes, r.lo, r.hi, r.stage, 0, target), CutAll(sizes, ranges[1..], target);
      if first.Some? && rest.Some? {
        NumberedParts(first.value, rest.value, r.stage, ranges[1..]);
        assert r in ranges;
      }
    }
  }

  lemma RangesByPlace(count: nat)
    ensures OwnStages(StageRanges(count))
    ensures forall r :: r in StageRanges(count) ==> forall s :: StageOkIn(s, r) ==> StagedByPlace(s, count)
  {
  }

  predicate StageOkIn(s: Slice, r: StageRange) {
    s.stage == r.stage && r.lo <= s.start < s.end <= r.hi
  }

  /** Every slice lies within the stage its place names, and is numbered within it. */
  lemma StagesAndNumbers(vectors: seq<Value>, target: nat)
    ensures var c := Partitioned(vectors, target);
      c.Some? ==> Numbered(c.value) && forall s :: s in c.value ==> StagedByPlace(s, |vectors|)
  {
    hide CutAll, StageRanges, SliceSize, StagedByPlace, Numbered;
    RangesInside(|vectors|);
    RangesByPlace(|vectors|);
    AllNumbered(Sizes(vectors), StageRanges(|vectors|), target);
    CutCovers(vectors, target);
    var c := Partitioned(vectors, target);
    if c.Some? {
      forall s | s in c.value ensures StagedByPlace(s, |vectors|) {
        var r :| r in StageRanges(|vectors|) && SliceOk(Sizes(vectors), s, r, target);
        assert StageOkIn(s, r);
      }
    }
  }

  // ----- optimality

  /** Every vector alone is within the target. */
  predicate AllFit(sizes: seq<nat>, target: nat) {
    forall i :: 0 <= i < |sizes| ==> FitsTarget(sizes, i, target)
  }

  predicate FitsTarget(sizes: seq<nat>, i: nat, target: nat)
    requires i < |sizes|
  {
    SliceSize(sizes, i, i + 1) <= target
  }

  function GreedyEnd(sizes: seq<nat>, start: nat, stop: nat, target: nat): (e: nat)
    requires start < stop <= |sizes| && AllFit(sizes, target) && target <= MAX_SHARD_BYTES
    ensures start < e <= stop
  {
    FitsAlone(sizes, target, start);
    ExtendFails(sizes, start, start, stop, target);
    Extend(sizes, start, start, stop, target).value
  }

  /** The number of slices the greedy cut makes. */
  function GreedyCount(sizes: seq<nat>, start: nat, stop: nat, target: nat): nat
    requires start <= stop <= |sizes| && AllFit(sizes, target) && target <= MAX_SHARD_BYTES
    decreases stop - start
  {
    if start == stop then 0 else 1 + GreedyCount(sizes, GreedyEnd(sizes, start, stop, target), stop, target)
  }

  lemma {:induction false} CountIsLength(sizes: seq<nat>, start: nat, stop: nat, stage: Stage, index: nat, target: nat)
    requires start <= stop <= |sizes| && AllFit(sizes, target) && target <= MAX_SHARD_BYTES
    ensures var c := CutStage(sizes, start, stop, stage, index, target);
      c.Some? && |c.value| == GreedyCount(sizes, start, stop, target)
    decreases stop - start
  {
    hide AllFit, SliceSize;
    if start < stop {
      assert !TooBig(sizes, start) by { assert AllFit(sizes, target); FitsAlone(sizes, target, start); }
      ExtendFails(sizes, start, start, stop, target);
      CountIsLength(sizes, GreedyEnd(sizes, start, stop, target), stop, stage, index + 1, target);
    }
  }

  lemma FitsAlone(sizes: seq<nat>, target: nat, i: nat)
    requires AllFit(sizes, target) && i < |sizes|
    ensures SliceSize(sizes, i, i + 1) <= target
  {
    assert FitsTarget(sizes, i, target);
  }

  /** The greedy slice reaches at least as far as any slice that fits. */
  lemma {:induction false} ExtendReaches(sizes: seq<nat>, start: nat, end: nat, stop: nat, target: nat, far: nat)
    requires start <= end <= far <= stop <= |sizes| && start < far && target <= MAX_SHARD_BYTES
    requires SliceSize(sizes, start, far) <= target
    ensures Extend(sizes, start, end, stop, target).Some? && far <= Extend(sizes, start, end, stop, target).value
    decreases stop - end
  {
    hide SliceSize;
    if end < far {
      SliceMonotone(sizes, start, far, start, end + 1);
      ExtendReaches(sizes, start, end + 1, stop, target, far);
    } else {
      ExtendFails(sizes, start, end, stop, target);
    }
  }

  /** What the greedy slice holds is within the target. */
  lemma GreedyFits(sizes: seq<nat>, start: nat, stop: nat, target: nat)
    requires start < stop <= |sizes| && AllFit(sizes, target) && target <= MAX_SHARD_BYTES
    ensures SliceSize(sizes, start, GreedyEnd(sizes, start, stop, target)) <= target
  {
    hide SliceSize;
    FitsAlone(sizes, target, start);
    ExtendFails(sizes, start, start, stop, target);
    ExtendBounds(sizes, start, start, stop, target);
  }

  /** Starting later never needs more slices. */
  lemma {:induction false} LaterIsShorter(sizes: seq<nat>, start: nat, later: nat, stop: nat, target: nat)
    requires start <= later <= stop <= |sizes| && AllFit(sizes, target) && target <= MAX_SHARD_BYTES
    ensures GreedyCount(sizes, later, stop, target) <= GreedyCount(sizes, start, stop, target)
    decreases stop - start
  {
    hide AllFit, SliceSize;
    if start < later && later < stop {
      var e := GreedyEnd(sizes, start, stop, target);
      if e <= later {
        LaterIsShorter(sizes, e, later, stop, target);
      } else {
        GreedyFits(sizes, start, stop, target);
        SliceMonotone(sizes, start, e, later, e);
        ExtendReaches(sizes, later, later, stop, target, e);
        LaterIsShorter(sizes, e, GreedyEnd(sizes, later, stop, target), stop, target);
      }
    }
  }

  /** Any way of cutting from lo to hi: the ends of its slices, all within the target. */
  predicate FittingCut(sizes: seq<nat>, ends: seq<nat>, lo: nat, hi: nat, target: nat) {
    if ends == [] then lo == hi
    else
      && lo < ends[0] <= hi <= |sizes|
      && SliceSize(sizes, lo, ends[0]) <= target
      && FittingCut(sizes, ends[1..], ends[0], hi, target)
  }

  lemma {:induction false} GreedyIsShortest(sizes: seq<nat>, ends: seq<nat>, lo: nat, hi: nat, target: nat)
    requires lo <= hi <= |sizes| && AllFit(sizes, target) && target <= MAX_SHARD_BYTES
    requires FittingCut(sizes, ends, lo, hi, target)
    ensures GreedyCount(sizes, lo, hi, target) <= |ends|
    decreases |ends|
  {
    hide AllFit, SliceSize;
    if ends != [] {
      ExtendReaches(sizes, lo, lo, hi, target, ends[0]);
      LaterIsShorter(sizes, ends[0], GreedyEnd(sizes, lo, hi, target), hi, target);
      GreedyIsShortest(sizes, ends[1..], ends[0], hi, target);
    }
  }

  /** When every vector fits the target alone, no cut of a stage into fitting slices has fewer slices. */
  lemma StageCutIsShortest(vectors: seq<Value>, r: StageRange, target: nat, ends: seq<nat>)
    requires r in StageRanges(|vectors|) && target <= MAX_SHARD_BYTES
    requires AllFit(Sizes(vectors), target)
    requires r.lo <= r.hi <= |vectors| && FittingCut(Sizes(vectors), ends, r.lo, r.hi, target)
    ensures var c := CutStage(Sizes(vectors), r.lo, r.hi, r.stage, 0, target);
      c.Some? && |c.value| <= |ends|
  {
    CountIsLength(Sizes(vectors), r.lo, r.hi, r.stage, 0, target);
    GreedyIsShortest(Sizes(vectors), ends, r.lo, r.hi, target);
  }
}
