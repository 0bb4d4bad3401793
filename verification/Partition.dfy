/** Cutting the vectors of a document into shards: greedy, sequential, within each stage. */
module Partition {
  import opened Octets
  import opened Json

  const MAX_SHARD_BYTES: nat := 10485760

  function ShardFormat(): string {
    "ninlil-domain-scan-crossrow-shard-v1"
  }

  // ----- the size of a shard

  datatype Shard = Shard(start: nat, count: nat, vectors: seq<Value>)

  function ShardValue(s: Shard): Value {
    Object([
      Entry("format", Text(ShardFormat())), Entry("version", Number(1)),
      Entry("start", Number(s.start)), Entry("count", Number(s.count)), Entry("vectors", List(s.vectors))])
  }

  /** A shard file: canonical text and a line feed. */
  function ShardBytes(s: Shard): Octets {
    Dump(ShardValue(s)) + [0x0A]
  }

  function PrefixHead(): Octets {
    Plain("{\"format\":\"") + Plain(ShardFormat()) + Plain("\",\"version\":") + Decimal(1) + Plain(",\"start\":")
  }

  /** The text before the vectors, as the size prediction writes it. */
  function ShardPrefix(start: nat, count: nat): Octets {
    PrefixHead() + Decimal(start) + Plain(",\"count\":") + Decimal(count) + Plain(",\"vectors\":[")
  }

  /** The length of the prefix's fixed text. */
  const PREFIX_TEXT: nat := 90

  /** The predicted size: prefix, vectors, the commas between them, two brackets and a line feed. */
  function ShardSize(start: nat, count: nat, payload: nat): nat {
    PREFIX_TEXT + |Decimal(start)| + |Decimal(count)| + payload + (if count > 0 then count - 1 else 0) + 3
  }

  function Total(sizes: seq<nat>): nat {
    if sizes == [] then 0 else sizes[0] + Total(sizes[1..])
  }

  function Sizes(vectors: seq<Value>): (sizes: seq<nat>)
    ensures |sizes| == |vectors|
    ensures forall i :: 0 <= i < |vectors| ==> sizes[i] == |Dump(vectors[i])|
  {
    if vectors == [] then [] else [|Dump(vectors[0])|] + Sizes(vectors[1..])
  }

  lemma {:induction false} ItemsLength(items: seq<Value>)
    ensures |DumpItems(items)| == Total(Sizes(items)) + (if |items| > 0 then |items| - 1 else 0)
  {
    if items != [] {
      ItemsLength(items[1..]);
      assert Sizes(items)[1..] == Sizes(items[1..]);
    }
  }

  lemma PlainQuoteLength(s: string)
    requires IsPlain(s)
    ensures |Quote(s)| == |s| + 2
  {
    PlainIsUnescaped(s);
  }

  lemma EntriesStep(e: Entry, rest: seq<Entry>)
    ensures |DumpEntries([e] + rest)| ==
      |Quote(e.key)| + 1 + |Dump(e.value)| + (if rest == [] then 0 else 1 + |DumpEntries(rest)|)
  {
    assert ([e] + rest)[1..] == rest;
    hide Quote, Dump;
  }

  lemma FormatIsPlain()
    ensures |ShardFormat()| == 36 && IsPlain(ShardFormat())
  {
  }

  lemma HeadOfPrefix()
    ensures |PrefixHead()| == 69
  {
    FormatIsPlain();
    assert |Decimal(1)| == 1;
    hide Plain, Decimal, ShardFormat, IsPlain;
  }

  lemma PrefixLength(start: nat, count: nat)
    ensures |ShardPrefix(start, count)| == PREFIX_TEXT + |Decimal(start)| + |Decimal(count)|
  {
    HeadOfPrefix();
    hide Plain, Decimal, PrefixHead;
  }

  lemma KeysArePlain()
    ensures IsPlain("format") && IsPlain("version") && IsPlain("start") && IsPlain("count") && IsPlain("vectors")
  {
  }

  lemma KeyLengths()
    ensures |Quote("format")| == 8 && |Quote("version")| == 9 && |Quote("start")| == 7
    ensures |Quote("count")| == 7 && |Quote("vectors")| == 9 && |Quote(ShardFormat())| == 38
  {
    hide Quote, EscapedAll, ShardFormat, IsPlain;
    FormatIsPlain();
    KeysArePlain();
    PlainQuoteLength("format");
    PlainQuoteLength("version");
    PlainQuoteLength("start");
    PlainQuoteLength("count");
    PlainQuoteLength("vectors");
    PlainQuoteLength(ShardFormat());
  }

  lemma EntriesLength(a: Entry, b: Entry, c: Entry, d: Entry, e: Entry)
    ensures |DumpEntries([a, b, c, d, e])| ==
      9 + |Quote(a.key)| + |Dump(a.value)| + |Quote(b.key)| + |Dump(b.value)| + |Quote(c.key)| + |Dump(c.value)|
      + |Quote(d.key)| + |Dump(d.value)| + |Quote(e.key)| + |Dump(e.value)|
  {
    hide Quote, Dump, DumpEntries;
    EntriesStep(e, []);
    EntriesStep(d, [e]);
    EntriesStep(c, [d, e]);
    EntriesStep(b, [c, d, e]);
    EntriesStep(a, [b, c, d, e]);
    assert [e] + [] == [e] && [d] + [e] == [d, e] && [c] + [d, e] == [c, d, e];
    assert [b] + [c, d, e] == [b, c, d, e] && [a] + [b, c, d, e] == [a, b, c, d, e];
  }

  lemma ObjectLength(entries: seq<Entry>)
    ensures |Dump(Object(entries))| == |DumpEntries(entries)| + 2
  {
  }

  lemma ScalarText(s: string, n: int, items: seq<Value>)
    ensures Dump(Text(s)) == Quote(s) && Dump(Number(n)) == Decimal(n)
    ensures |Dump(List(items))| == |DumpItems(items)| + 2
  {
  }

  lemma HeadLength(s: Shard)
    ensures |Dump(ShardValue(s))| == |ShardPrefix(s.start, s.count)| + |DumpItems(s.vectors)| + 2
  {
    assert |Decimal(1)| == 1;
    hide Quote, Dump, DumpEntries, DumpItems, Decimal, ShardPrefix, IsPlain, ShardFormat;
    KeyLengths();
    PrefixLength(s.start, s.count);
    ObjectLength(ShardValue(s).entries);
    ScalarText(ShardFormat(), 1, s.vectors);
    ScalarText(ShardFormat(), s.start, s.vectors);
    ScalarText(ShardFormat(), s.count, s.vectors);
    EntriesLength(
      Entry("format", Text(ShardFormat())), Entry("version", Number(1)),
      Entry("start", Number(s.start)), Entry("count", Number(s.count)), Entry("vectors", List(s.vectors)));
  }

  /** The predicted size of a shard is the length of its file. */
  lemma SizeIsLength(s: Shard)
    requires s.count == |s.vectors|
    ensures |ShardBytes(s)| == ShardSize(s.start, s.count, Total(Sizes(s.vectors)))
  {
    hide Dump, DumpItems, ShardPrefix, Decimal, Sizes;
    ItemsLength(s.vectors);
    HeadLength(s);
    PrefixLength(s.start, s.count);
  }

  // ----- sizes shrink with the slice

  lemma {:induction false} DigitsGrow(m: nat, n: nat)
    requires m <= n
    ensures |Digits(m)| <= |Digits(n)|
  {
    if m >= 10 {
      DigitsGrow(m / 10, n / 10);
    }
  }

  lemma {:induction false} DigitsStep(n: nat)
    ensures |Digits(n + 1)| <= |Digits(n)| + 1
  {
    if n >= 10 {
      DigitsStep(n / 10);
      assert (n + 1) / 10 == n / 10 || (n + 1) / 10 == n / 10 + 1;
    }
  }

  lemma {:induction false} TotalSplit(a: seq<nat>, b: seq<nat>)
    ensures Total(a + b) == Total(a) + Total(b)
  {
    if a == [] {
      assert a + b == b;
    } else {
      assert (a + b)[1..] == a[1..] + b;
      TotalSplit(a[1..], b);
    }
  }

  /** The size of the shard holding the vectors from a up to b. */
  function SliceSize(sizes: seq<nat>, a: nat, b: nat): nat
    requires a <= b <= |sizes|
  {
    ShardSize(a, b - a, Total(sizes[a..b]))
  }

  lemma SizeFormula(start: nat, count: nat, payload: nat)
    requires count > 0
    ensures ShardSize(start, count, payload) == 92 + |Digits(start)| + |Digits(count)| + payload + count
  {
    hide Digits;
  }

  lemma DropLast(sizes: seq<nat>, a: nat, b: nat)
    requires a + 1 < b <= |sizes|
    ensures SliceSize(sizes, a, b - 1) <= SliceSize(sizes, a, b)
  {
    hide Digits, ShardSize;
    SizeFormula(a, b - 1 - a, Total(sizes[a..b - 1]));
    SizeFormula(a, b - a, Total(sizes[a..b]));
    DigitsGrow(b - 1 - a, b - a);
    assert sizes[a..b] == sizes[a..b - 1] + sizes[b - 1..b];
    TotalSplit(sizes[a..b - 1], sizes[b - 1..b]);
  }

  lemma DropFirst(sizes: seq<nat>, a: nat, b: nat)
    requires a + 1 < b <= |sizes|
    ensures SliceSize(sizes, a + 1, b) <= SliceSize(sizes, a, b)
  {
    hide Digits, ShardSize;
    SizeFormula(a + 1, b - a - 1, Total(sizes[a + 1..b]));
    SizeFormula(a, b - a, Total(sizes[a..b]));
    DigitsStep(a);
    DigitsGrow(b - a - 1, b - a);
    assert sizes[a..b] == sizes[a..a + 1] + sizes[a + 1..b];
    TotalSplit(sizes[a..a + 1], sizes[a + 1..b]);
  }

  /** A smaller slice is a smaller shard, although a later start may need one more digit. */
  lemma {:induction false} SliceMonotone(sizes: seq<nat>, a: nat, b: nat, c: nat, d: nat)
    requires a <= c < d <= b <= |sizes|
    ensures SliceSize(sizes, c, d) <= SliceSize(sizes, a, b)
    decreases b - a
  {
    hide SliceSize;
    if d < b {
      DropLast(sizes, a, b);
      SliceMonotone(sizes, a, b - 1, c, d);
    } else if a < c {
      DropFirst(sizes, a, b);
      SliceMonotone(sizes, a + 1, b, c, d);
    }
  }

  // ----- the greedy cut

  /** Where a slice that has reached end stops; none if a vector does not fit the hard cap. */
  function Extend(sizes: seq<nat>, start: nat, end: nat, stop: nat, target: nat): (r: Option<nat>)
    requires start <= end <= stop <= |sizes|
    ensures r.Some? ==> end <= r.value <= stop && (start < stop ==> start < r.value)
    decreases stop - end
  {
    if end >= stop then Some(end)
    else
      var size := SliceSize(sizes, start, end + 1);
      if end > start && size > target then Some(end)
      else if size > MAX_SHARD_BYTES then None
      else Extend(sizes, start, end + 1, stop, target)
  }

  datatype Stage = Legacy | D3S1 | D3S2 | D3S3 | D3S4
  datatype StageRange = StageRange(lo: nat, hi: nat, stage: Stage)
  datatype Slice = Slice(start: nat, end: nat, stage: Stage, index: nat)

  function StageRanges(count: nat): seq<StageRange> {
    if count < 283 then [StageRange(0, count, Legacy)]
    else
      [StageRange(0, 94, D3S1), StageRange(94, 144, D3S2), StageRange(144, 283, D3S3)]
        + (if count > 283 then [StageRange(283, count, D3S4)] else [])
  }

  function CutStage(sizes: seq<nat>, start: nat, stop: nat, stage: Stage, index: nat, target: nat): Option<seq<Slice>>
    requires start <= stop <= |sizes|
    decreases stop - start
  {
    if start >= stop then Some([])
    else
      match Extend(sizes, start, start, stop, target)
      case None => None
      case Some(end) =>
        match CutStage(sizes, end, stop, stage, index + 1, target)
        case None => None
        case Some(rest) => Some([Slice(start, end, stage, index)] + rest)
  }

  function CutAll(sizes: seq<nat>, ranges: seq<StageRange>, target: nat): Option<seq<Slice>>
    requires forall r :: r in ranges ==> r.lo <= r.hi <= |sizes|
  {
    if ranges == [] then Some([])
    else
      match CutStage(sizes, ranges[0].lo, ranges[0].hi, ranges[0].stage, 0, target)
      case None => None
      case Some(first) =>
        match CutAll(sizes, ranges[1..], target)
        case None => None
        case Some(rest) => Some(first + rest)
  }

  lemma RangesInside(count: nat)
    ensures forall r :: r in StageRanges(count) ==> r.lo <= r.hi <= count
  {
  }

  function Partitioned(vectors: seq<Value>, target: nat): Option<seq<Slice>> {
    RangesInside(|vectors|);
    CutAll(Sizes(vectors), StageRanges(|vectors|), target)
  }

  /** Continues a cut with more slices, unless it has failed. */
  function Prepend(done: seq<Slice>, rest: Option<seq<Slice>>): Option<seq<Slice>> {
    if rest.None? then None else Some(done + rest.value)
  }

  /** Grows one slice vector by vector, keeping its payload. */
  method GrowSlice(sizes: seq<nat>, start: nat, stop: nat, target: nat) returns (result: Option<nat>)
    requires start <= stop <= |sizes|
    ensures result == Extend(sizes, start, start, stop, target)
  {
    hide SliceSize, ShardSize;
    var end := start;
    var payload := 0;
    while end < stop
      invariant start <= end <= stop
      invariant payload == Total(sizes[start..end])
      invariant Extend(sizes, start, start, stop, target) == Extend(sizes, start, end, stop, target)
    {
      var next := payload + sizes[end];
      assert sizes[start..end + 1] == sizes[start..end] + [sizes[end]];
      TotalSplit(sizes[start..end], [sizes[end]]);
      var size := ShardSize(start, end - start + 1, next);
      SliceSizeIs(sizes, start, end + 1);
      if end > start && size > target {
        return Some(end);
      }
      if size > MAX_SHARD_BYTES {
        return None;
      }
      payload := next;
      end := end + 1;
    }
    return Some(end);
  }

  method CutVectors(vectors: seq<Value>, target: nat) returns (result: Option<seq<Slice>>)
    ensures result == Partitioned(vectors, target)
  {
    hide SliceSize, Dump, Sizes, Extend;
    var sizes := Sizes(vectors);
    var ranges := StageRanges(|vectors|);
    RangesInside(|vectors|);
    hide StageRanges;
    var slices: seq<Slice> := [];
    assert ranges[0..] == ranges;
    PrependNothing(CutAll(sizes, ranges, target));
    for r := 0 to |ranges|
      invariant Prepend(slices, CutAll(sizes, ranges[r..], target)) == CutAll(sizes, ranges, target)
    {
      ghost var before := slices;
      var stop, stage := ranges[r].hi, ranges[r].stage;
      var start, index := ranges[r].lo, 0;
      while start < stop
        invariant ranges[r].lo <= start <= stop
        invariant Prepend(slices, CutStage(sizes, start, stop, stage, index, target))
               == Prepend(before, CutStage(sizes, ranges[r].lo, stop, stage, 0, target))
      {
        var end := GrowSlice(sizes, start, stop, target);
        if end.None? {
          return None;
        }
        var slice := Slice(start, end.value, stage, index);
        PrependAssociates(slices, [slice], CutStage(sizes, end.value, stop, stage, index + 1, target));
        slices := slices + [slice];
        start := end.value;
        index := index + 1;
      }
      assert ranges[r..][1..] == ranges[r + 1..];
      assert slices + [] == slices;
      ghost var first := CutStage(sizes, ranges[r].lo, stop, stage, 0, target);
      assert first.Some? && slices == before + first.value;
      PrependAssociates(before, first.value, CutAll(sizes, ranges[r + 1..], target));
    }
    assert slices + [] == slices;
    return Some(slices);
  }

  lemma SliceSizeIs(sizes: seq<nat>, a: nat, b: nat)
    requires a <= b <= |sizes|
    ensures SliceSize(sizes, a, b) == ShardSize(a, b - a, Total(sizes[a..b]))
  {
  }

  lemma PrependNothing(c: Option<seq<Slice>>)
    ensures Prepend([], c) == c
  {
    if c.Some? {
      assert [] + c.value == c.value;
    }
  }

  lemma PrependAssociates(a: seq<Slice>, b: seq<Slice>, c: Option<seq<Slice>>)
    ensures Prepend(a + b, c) == Prepend(a, Prepend(b, c))
  {
    if c.Some? {
      assert (a + b) + c.value == a + (b + c.value);
    }
  }
}
