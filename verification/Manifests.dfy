/** The manifest, its shards, the reader that checks them and the writer that stages them. */
module Manifests {
  import opened Octets
  import opened Json
  import opened Records
  import opened Partition
  import opened PartitionLaws
  import opened Authority

  // ----- the semantic pins

  /** How one vector enters the order digest. */
  datatype Pins = Pins(row: (nat, Value) -> Octets)

  function OrderText(p: Pins, vectors: seq<Value>): Octets {
    if vectors == [] then []
    else
      var n := |vectors| - 1;
      OrderText(p, vectors[..n]) + (if n > 0 then [LF] else []) + p.row(n, vectors[n])
  }

  function Get(v: Value, key: string): Value {
    if v.Object? then ValueOf(v.entries, key) else Null
  }

  predicate IsNegative(v: Value) {
    Get(v, "positive") == Flag(false)
  }

  /** What a negative vector is pinned by. */
  function Projection(v: Value): Value {
    var faults := Get(v, "faults");
    Object([
      Entry("id", Get(v, "id")), Entry("kind", Get(v, "kind")), Entry("mode", Get(v, "mode")),
      Entry("negative_base", Get(v, "negative_base")),
      Entry("declared_mutation_fields", Get(v, "declared_mutation_fields")),
      Entry("first_reason", Get(Get(v, "expected"), "d3s4_first_reason")),
      Entry("faults", if faults.List? then faults else List([]))])
  }

  function Negatives(vectors: seq<Value>): seq<Value> {
    if vectors == [] then []
    else
      var n := |vectors| - 1;
      Negatives(vectors[..n]) + (if IsNegative(vectors[n]) then [Projection(vectors[n])] else [])
  }

  /** The text of the list of negative projections, keys sorted. */
  function NegativeText(vectors: seq<Value>): Octets {
    AsciiDump(Sorted(List(Negatives(vectors))))
  }

  // ----- the stored form

  datatype ShardPath = ShardPath(stem: string, generation: Octets, ordinal: nat, stage: Stage, index: nat)

  datatype ShardEntry = ShardEntry(
    path: ShardPath, start: nat, count: nat, bytes: nat, sha: Octets, firstId: Value, lastId: Value)

  datatype Manifest = Manifest(
    format: Value, count: nat, contentSha: Octets, orderSha: Octets, negativeCount: nat, negativeSha: Octets,
    canonicalSha: Octets, keyOrder: seq<string>, maxBytes: nat, top: seq<Entry>, shards: seq<ShardEntry>)

  type Files = map<ShardPath, Shard>

  function IdOf(v: Value): Value {
    Get(v, "id")
  }

  function HexText(d: Octets): Value {
    Text(Hex(d))
  }

  function Hex(d: Octets): string {
    if d == [] then []
    else [HexDigit(d[0] / 16) as char, HexDigit(d[0] % 16) as char] + Hex(d[1..])
  }

  // ----- reading

  /** The one format of documents a manifest may stand for. */
  function ExpandedFormat(): Value {
    Text("ninlil-domain-scan-crossrow-v1-d3s4")
  }

  predicate HasFormat(doc: seq<Entry>) {
    ValueOf(doc, "format") == ExpandedFormat()
  }

  predicate ManifestOk(m: Manifest) {
    && m.format == ExpandedFormat()
    && 1 <= m.maxBytes <= MAX_SHARD_BYTES
    && "vectors" !in Keys(m.top)
    && (forall i, j :: 0 <= i < j < |m.keyOrder| ==> m.keyOrder[i] != m.keyOrder[j])
    && "vectors" in m.keyOrder
    && (forall k :: k in m.keyOrder ==> k == "vectors" || k in Keys(m.top))
    && (forall k :: k in Keys(m.top) ==> k in m.keyOrder)
    && m.shards != []
  }

  predicate SeenBefore(m: Manifest, k: nat)
    requires k < |m.shards|
  {
    exists j :: 0 <= j < k && m.shards[j].path == m.shards[k].path
  }

  /** The entry describes the shard, and the shard continues where the last one ended. */
  predicate EntryDescribes(h: Hash, maxBytes: nat, e: ShardEntry, s: Shard, start: nat) {
    && |ShardBytes(s)| <= maxBytes && |ShardBytes(s)| <= MAX_SHARD_BYTES
    && e.bytes == |ShardBytes(s)| && e.sha == Sha(h, ShardBytes(s))
    && 1 <= s.count == |s.vectors|
    && e.start == s.start == start && e.count == s.count
    && e.firstId == IdOf(s.vectors[0]) && e.lastId == IdOf(s.vectors[|s.vectors| - 1])
  }

  /** Moreover all its vectors are records. */
  predicate EntryFits(h: Hash, maxBytes: nat, e: ShardEntry, s: Shard, start: nat) {
    EntryDescribes(h, maxBytes, e, s, start) && forall v :: v in s.vectors ==> v.Object?
  }

  predicate EntryOk(h: Hash, m: Manifest, files: Files, k: nat, start: nat)
    requires k < |m.shards|
  {
    var e := m.shards[k];
    !SeenBefore(m, k) && e.path in files && EntryFits(h, m.maxBytes, e, files[e.path], start)
  }

  /** The shard is opened: everything holds that is checked before its vectors are looked at. */
  predicate EntryOpens(h: Hash, m: Manifest, files: Files, k: nat, start: nat)
    requires k < |m.shards|
  {
    var e := m.shards[k];
    !SeenBefore(m, k) && e.path in files && EntryDescribes(h, m.maxBytes, e, files[e.path], start)
  }

  /** The vectors up to the first that is no record. */
  function Leading(vectors: seq<Value>): (r: seq<Value>)
    ensures r <= vectors
    ensures r == vectors <==> forall v :: v in vectors ==> v.Object?
  {
    if vectors == [] then []
    else if !vectors[0].Object? then []
    else
      assert vectors == [vectors[0]] + vectors[1..];
      [vectors[0]] + Leading(vectors[1..])
  }

  lemma {:induction false} LeadingEnds(vectors: seq<Value>, i: nat)
    requires i < |vectors| && !vectors[i].Object? && forall j :: 0 <= j < i ==> vectors[j].Object?
    ensures Leading(vectors) == vectors[..i]
  {
    if i > 0 {
      assert forall j :: 0 <= j < i - 1 ==> vectors[1..][j] == vectors[j + 1];
      LeadingEnds(vectors[1..], i - 1);
      assert vectors[..i] == [vectors[0]] + vectors[1..][..i - 1];
    }
  }

  /** What a consumer is handed from shard k on, before the reader refuses or ends. */
  function Yielded(h: Hash, m: Manifest, files: Files, k: nat, start: nat): seq<Value>
    requires k <= |m.shards|
    decreases |m.shards| - k
  {
    if k == |m.shards| || !EntryOpens(h, m, files, k, start) then []
    else
      var s := files[m.shards[k].path];
      Leading(s.vectors) + (if Leading(s.vectors) == s.vectors then Yielded(h, m, files, k + 1, start + s.count) else [])
  }

  /** The vectors of the shards from k on. */
  function Gather(h: Hash, m: Manifest, files: Files, k: nat, start: nat): Option<seq<Value>>
    requires k <= |m.shards|
    decreases |m.shards| - k
  {
    if k == |m.shards| then Some([])
    else if !EntryOk(h, m, files, k, start) then None
    else
      var s := files[m.shards[k].path];
      match Gather(h, m, files, k + 1, start + s.count)
      case None => None
      case Some(rest) => Some(s.vectors + rest)
  }

  predicate PinsOk(h: Hash, p: Pins, m: Manifest, vectors: seq<Value>) {
    && |vectors| == m.count
    && Sha(h, OrderText(p, vectors)) == m.orderSha
    && |Negatives(vectors)| == m.negativeCount
    && Sha(h, NegativeText(vectors)) == m.negativeSha
  }

  function ReadVectors(h: Hash, p: Pins, m: Manifest, files: Files): Option<seq<Value>> {
    match Gather(h, m, files, 0, 0)
    case None => None
    case Some(vectors) => if PinsOk(h, p, m, vectors) then Some(vectors) else None
  }

  /** The content keys a reader recomputes from the top level. */
  function TopContentKeys(top: seq<Entry>): seq<string> {
    SortKeys(Keys(Without(top, "content_sha256")) + ["vectors"])
  }

  function Reassembled(m: Manifest, vectors: seq<Value>): seq<Entry> {
    Pieces(m.keyOrder, m.top, vectors, false)
  }

  /** Reads a manifest back as the document it stands for, checking every pin. */
  function Load(h: Hash, p: Pins, m: Manifest, files: Files): Option<seq<Entry>> {
    if !ManifestOk(m) then None
    else
      match ReadVectors(h, p, m, files)
      case None => None
      case Some(vectors) =>
        var doc := Reassembled(m, vectors);
        var content := Sha(h, ObjectText(Pieces(TopContentKeys(m.top), m.top, vectors, true), false));
        var canonical := Sha(h, ObjectText(doc, true));
        if content != m.contentSha || canonical != m.canonicalSha then None
        else if ValueOf(doc, "content_sha256") != HexText(content) then None
        else Some(doc)
  }

  // ----- the streaming reader

  lemma OrderGrows(p: Pins, vectors: seq<Value>, v: Value)
    ensures OrderText(p, vectors + [v]) ==
      OrderText(p, vectors) + (if vectors == [] then [] else [LF]) + p.row(|vectors|, v)
  {
    assert (vectors + [v])[..|vectors|] == vectors;
  }

  lemma NegativesGrow(vectors: seq<Value>, v: Value)
    ensures Negatives(vectors + [v]) == Negatives(vectors) + (if IsNegative(v) then [Projection(v)] else [])
  {
    assert (vectors + [v])[..|vectors|] == vectors;
  }

  lemma AsciiItemsCons(v: Value, rest: seq<Value>)
    ensures AsciiItems([v] + rest) == AsciiDump(v) + (if rest == [] then [] else [COMMA] + AsciiItems(rest))
  {
    hide AsciiDump;
    assert ([v] + rest)[1..] == rest;
  }

  lemma {:induction false} AsciiItemsSnoc(items: seq<Value>, v: Value)
    ensures AsciiItems(items + [v]) == AsciiItems(items) + (if items == [] then [] else [COMMA]) + AsciiDump(v)
  {
    hide AsciiDump, AsciiItems;
    if items == [] {
      AsciiItemsCons(v, []);
      assert [v] + [] == [] + [v];
      NoAsciiItems();
    } else {
      var head, rest := items[0], items[1..];
      AsciiItemsSnoc(rest, v);
      AsciiItemsCons(head, rest);
      AsciiItemsCons(head, rest + [v]);
      assert items == [head] + rest;
      assert items + [v] == [head] + (rest + [v]);
      if rest == [] {
        NoAsciiItems();
      }
    }
  }

  lemma NoAsciiItems()
    ensures AsciiItems([]) == []
  {
  }

  /** The texts of the projections, between commas. */
  function Joined(negatives: seq<Value>): Octets {
    AsciiItems(SortedItems(negatives))
  }

  lemma JoinedGrows(negatives: seq<Value>, v: Value)
    ensures Joined(negatives + [v]) ==
      Joined(negatives) + (if negatives == [] then [] else [COMMA]) + AsciiDump(Sorted(v))
  {
    hide AsciiItems, AsciiDump, Sorted;
    SortedItemsSnoc(negatives, v);
    AsciiItemsSnoc(SortedItems(negatives), Sorted(v));
  }

  /** Feeding the projections one by one writes the text of their list. */
  lemma JoinedIsText(vectors: seq<Value>)
    ensures [0x5B] + Joined(Negatives(vectors)) + [0x5D] == NegativeText(vectors)
  {
  }

  /** The digests fed so far, while one shard at a time is held. */
  class PinFeed {
    const pins: Pins
    var order: Octets
    var negative: Octets
    var negativeCount: nat
    var count: nat
    ghost var fed: seq<Value>

    ghost predicate Valid()
      reads this
    {
      && count == |fed|
      && order == OrderText(pins, fed)
      && negative == [0x5B] + Joined(Negatives(fed))
      && negativeCount == |Negatives(fed)|
    }

    constructor (p: Pins)
      ensures pins == p && fed == [] && Valid()
    {
      pins := p;
      order, negative, negativeCount, count, fed := [], [0x5B], 0, 0, [];
    }

    method Feed(v: Value)
      requires Valid()
      modifies this
      ensures Valid() && fed == old(fed) + [v]
    {
      OrderGrows(pins, fed, v);
      NegativesGrow(fed, v);
      hide OrderText, Negatives, Joined, AsciiDump, Sorted, IsNegative, Projection;
      if count > 0 {
        order := order + [LF];
      }
      order := order + pins.row(count, v);
      if IsNegative(v) {
        JoinedGrows(Negatives(fed), Projection(v));
        if negativeCount > 0 {
          negative := negative + [COMMA];
        }
        negative := negative + AsciiDump(Sorted(Projection(v)));
        negativeCount := negativeCount + 1;
      } else {
        assert Negatives(fed) + [] == Negatives(fed);
      }
      count := count + 1;
      fed := fed + [v];
    }
  }

  /** The pins of a whole list of vectors: the projections are collected and written at the end. */
  method SemanticPins(p: Pins, vectors: seq<Value>) returns (order: Octets, negativeCount: nat, negative: Octets)
    ensures order == OrderText(p, vectors)
    ensures negativeCount == |Negatives(vectors)|
    ensures negative == NegativeText(vectors)
  {
    hide IsNegative, Projection, AsciiDump, Sorted;
    order := [];
    var negatives: seq<Value> := [];
    for i := 0 to |vectors|
      invariant order == OrderText(p, vectors[..i]) && negatives == Negatives(vectors[..i])
    {
      assert vectors[..i + 1] == vectors[..i] + [vectors[i]];
      OrderGrows(p, vectors[..i], vectors[i]);
      NegativesGrow(vectors[..i], vectors[i]);
      if i > 0 {
        order := order + [LF];
      }
      order := order + p.row(i, vectors[i]);
      if IsNegative(vectors[i]) {
        negatives := negatives + [Projection(vectors[i])];
      }
    }
    assert vectors[..|vectors|] == vectors;
    return order, |negatives|, AsciiDump(Sorted(List(negatives)));
  }

  function After(vectors: seq<Value>, rest: Option<seq<Value>>): Option<seq<Value>> {
    if rest.None? then None else Some(vectors + rest.value)
  }

  lemma AfterNothing(rest: Option<seq<Value>>)
    ensures After([], rest) == rest
  {
    if rest.Some? {
      assert [] + rest.value == rest.value;
    }
  }

  lemma Refused(h: Hash, m: Manifest, files: Files, k: nat, start: nat, vectors: seq<Value>)
    requires k < |m.shards| && !EntryOk(h, m, files, k, start)
    requires Gather(h, m, files, 0, 0) == After(vectors, Gather(h, m, files, k, start))
    ensures Gather(h, m, files, 0, 0).None?
  {
    hide EntryOk;
  }

  lemma Described(h: Hash, m: Manifest, files: Files, k: nat, start: nat)
    requires k < |m.shards| && EntryOpens(h, m, files, k, start)
    ensures m.shards[k].path in files
    ensures files[m.shards[k].path].count == |files[m.shards[k].path].vectors|
    ensures EntryOk(h, m, files, k, start) <==> forall v :: v in files[m.shards[k].path].vectors ==> v.Object?
  {
    hide ShardBytes, SeenBefore, Sha, IdOf;
  }

  lemma YieldedOne(h: Hash, m: Manifest, files: Files, k: nat, start: nat)
    requires k < |m.shards| && EntryOpens(h, m, files, k, start) && m.shards[k].path in files
    ensures var s := files[m.shards[k].path];
      Yielded(h, m, files, k, start) ==
        Leading(s.vectors) + (if Leading(s.vectors) == s.vectors then Yielded(h, m, files, k + 1, start + s.count) else [])
  {
    hide EntryOpens, Leading;
  }

  lemma Opened(h: Hash, m: Manifest, files: Files, k: nat, start: nat)
    requires k < |m.shards| && EntryOpens(h, m, files, k, start)
    ensures m.shards[k].path in files
    ensures var s := files[m.shards[k].path];
      && s.count == |s.vectors|
      && (EntryOk(h, m, files, k, start) <==> Leading(s.vectors) == s.vectors)
      && Yielded(h, m, files, k, start) ==
           Leading(s.vectors) + (if Leading(s.vectors) == s.vectors then Yielded(h, m, files, k + 1, start + s.count) else [])
  {
    hide EntryOpens, EntryOk, Leading, Yielded;
    Described(h, m, files, k, start);
    YieldedOne(h, m, files, k, start);
  }

  lemma NotOpened(h: Hash, m: Manifest, files: Files, k: nat, start: nat)
    requires k < |m.shards| && !EntryOpens(h, m, files, k, start)
    ensures !EntryOk(h, m, files, k, start) && Yielded(h, m, files, k, start) == []
  {
    hide EntryDescribes, SeenBefore;
  }

  /** The vectors of one shard are handed over until one is no record. */
  method FeedShard(feed: PinFeed, vectors: seq<Value>) returns (n: nat)
    requires feed.Valid()
    modifies feed
    ensures feed.Valid() && feed.fed == old(feed.fed) + Leading(vectors)
    ensures n == |Leading(vectors)|
  {
    ghost var before := feed.fed;
    assert before + vectors[..0] == before;
    for i := 0 to |vectors|
      invariant feed.Valid() && feed.fed == before + vectors[..i]
      invariant forall j :: 0 <= j < i ==> vectors[j].Object?
    {
      if !vectors[i].Object? {
        LeadingEnds(vectors, i);
        return i;
      }
      assert vectors[..i + 1] == vectors[..i] + [vectors[i]];
      feed.Feed(vectors[i]);
    }
    assert vectors[..|vectors|] == vectors;
    assert forall v :: v in vectors ==> v.Object?;
    return |vectors|;
  }

  /**
   Shard by shard and vector by vector: what is handed over before a refusal, and the running
   digests accept what the whole list's do.
   */
  method IterateVectors(h: Hash, p: Pins, m: Manifest, files: Files) returns (yielded: seq<Value>, accepted: bool)
    ensures yielded == Yielded(h, m, files, 0, 0)
    ensures ReadVectors(h, p, m, files) == if accepted then Some(yielded) else None
  {
    hide EntryOk, EntryOpens, OrderText, Negatives, NegativeText, Joined, Gather, Yielded, Leading;
    var feed := new PinFeed(p);
    yielded := [];
    var start := 0;
    AfterNothing(Gather(h, m, files, 0, 0));
    assert [] + Yielded(h, m, files, 0, 0) == Yielded(h, m, files, 0, 0);
    for k := 0 to |m.shards|
      invariant feed.Valid() && feed.pins == p && feed.fed == yielded && start == |yielded|
      invariant Gather(h, m, files, 0, 0) == After(yielded, Gather(h, m, files, k, start))
      invariant Yielded(h, m, files, 0, 0) == yielded + Yielded(h, m, files, k, start)
    {
      if !EntryOpens(h, m, files, k, start) {
        NotOpened(h, m, files, k, start);
        Refused(h, m, files, k, start, yielded);
        assert yielded + [] == yielded;
        return yielded, false;
      }
      Opened(h, m, files, k, start);
      var s := files[m.shards[k].path];
      var n := FeedShard(feed, s.vectors);
      if n < |s.vectors| {
        Refused(h, m, files, k, start, yielded);
        assert Leading(s.vectors) + [] == Leading(s.vectors);
        return yielded + s.vectors[..n], false;
      }
      GatherOne(h, m, files, k, start, yielded);
      yielded := yielded + s.vectors;
      start := start + s.count;
    }
    AllGathered(h, m, files, start, yielded);
    JoinedIsText(yielded);
    accepted := start == m.count && Sha(h, feed.order) == m.orderSha && feed.negativeCount == m.negativeCount
      && Sha(h, feed.negative + [0x5D]) == m.negativeSha;
  }

  lemma GatherStep(h: Hash, m: Manifest, files: Files, k: nat, start: nat)
    requires k < |m.shards| && EntryOk(h, m, files, k, start)
    ensures m.shards[k].path in files
    ensures var s := files[m.shards[k].path];
      Gather(h, m, files, k, start) == After(s.vectors, Gather(h, m, files, k + 1, start + s.count))
  {
    hide EntryFits, SeenBefore;
  }

  lemma OkOpens(h: Hash, m: Manifest, files: Files, k: nat, start: nat)
    requires k < |m.shards| && EntryOk(h, m, files, k, start)
    ensures EntryOpens(h, m, files, k, start)
  {
    hide EntryDescribes, SeenBefore;
  }

  lemma GatherNeedsOk(h: Hash, m: Manifest, files: Files, k: nat, start: nat)
    requires k < |m.shards| && Gather(h, m, files, k, start).Some?
    ensures EntryOk(h, m, files, k, start)
  {
    hide EntryOk;
  }

  lemma NothingLeft(h: Hash, m: Manifest, files: Files, start: nat)
    ensures Yielded(h, m, files, |m.shards|, start) == [] && Gather(h, m, files, |m.shards|, start) == Some([])
  {
    hide EntryOk, EntryOpens, Leading;
  }

  lemma YieldedStep(h: Hash, m: Manifest, files: Files, k: nat, start: nat)
    requires k < |m.shards| && EntryOk(h, m, files, k, start)
    ensures m.shards[k].path in files
    ensures var s := files[m.shards[k].path];
      Yielded(h, m, files, k, start) == s.vectors + Yielded(h, m, files, k + 1, start + s.count)
  {
    hide EntryOk, EntryOpens, Leading, Yielded;
    OkOpens(h, m, files, k, start);
    Opened(h, m, files, k, start);
  }

  /** A reader that reaches the end has yielded exactly the vectors it gathered. */
  lemma {:induction false} YieldedIsGathered(h: Hash, m: Manifest, files: Files, k: nat, start: nat)
    requires k <= |m.shards| && Gather(h, m, files, k, start).Some?
    ensures Yielded(h, m, files, k, start) == Gather(h, m, files, k, start).value
    decreases |m.shards| - k
  {
    hide EntryOk, Yielded, Gather;
    if k < |m.shards| {
      GatherNeedsOk(h, m, files, k, start);
      GatherStep(h, m, files, k, start);
      YieldedStep(h, m, files, k, start);
      YieldedIsGathered(h, m, files, k + 1, start + files[m.shards[k].path].count);
    } else {
      NothingLeft(h, m, files, start);
    }
  }

  lemma AfterAfter(a: seq<Value>, b: seq<Value>, rest: Option<seq<Value>>)
    ensures After(a, After(b, rest)) == After(a + b, rest)
  {
    if rest.Some? {
      assert a + (b + rest.value) == a + b + rest.value;
    }
  }

  lemma GatherOne(h: Hash, m: Manifest, files: Files, k: nat, start: nat, vectors: seq<Value>)
    requires k < |m.shards| && EntryOpens(h, m, files, k, start) && m.shards[k].path in files
    requires var s := files[m.shards[k].path]; |Leading(s.vectors)| == |s.vectors|
    requires Gather(h, m, files, 0, 0) == After(vectors, Gather(h, m, files, k, start))
    requires Yielded(h, m, files, 0, 0) == vectors + Yielded(h, m, files, k, start)
    ensures var s := files[m.shards[k].path];
      && Gather(h, m, files, 0, 0) == After(vectors + s.vectors, Gather(h, m, files, k + 1, start + s.count))
      && Yielded(h, m, files, 0, 0) == vectors + s.vectors + Yielded(h, m, files, k + 1, start + s.count)
  {
    hide EntryOpens, EntryOk, Yielded, Leading, Gather, After;
    Opened(h, m, files, k, start);
    var s := files[m.shards[k].path];
    assert Leading(s.vectors) <= s.vectors && Leading(s.vectors) == s.vectors;
    GatherStep(h, m, files, k, start);
    AfterAfter(vectors, s.vectors, Gather(h, m, files, k + 1, start + s.count));
    assert vectors + (s.vectors + Yielded(h, m, files, k + 1, start + s.count))
        == vectors + s.vectors + Yielded(h, m, files, k + 1, start + s.count);
  }

  lemma AllGathered(h: Hash, m: Manifest, files: Files, start: nat, vectors: seq<Value>)
    requires Gather(h, m, files, 0, 0) == After(vectors, Gather(h, m, files, |m.shards|, start))
    requires Yielded(h, m, files, 0, 0) == vectors + Yielded(h, m, files, |m.shards|, start)
    ensures Gather(h, m, files, 0, 0) == Some(vectors) && Yielded(h, m, files, 0, 0) == vectors
  {
    hide EntryOk, EntryOpens;
    assert vectors + [] == vectors;
  }

  // ----- staging

  function ShardOf(vectors: seq<Value>, s: Slice): (r: Shard)
    requires s.start <= s.end <= |vectors|
    ensures |r.vectors| == s.end - s.start
  {
    Shard(s.start, s.end - s.start, vectors[s.start..s.end])
  }

  function PathOf(stem: string, generation: Octets, slices: seq<Slice>, k: nat): ShardPath
    requires k < |slices|
  {
    ShardPath(stem, generation, k, slices[k].stage, slices[k].index)
  }

  predicate SlicesInside(slices: seq<Slice>, n: nat) {
    forall k :: 0 <= k < |slices| ==> slices[k].start < slices[k].end <= n
  }

  function Describe(h: Hash, path: ShardPath, s: Shard): ShardEntry
    requires s.vectors != []
  {
    ShardEntry(path, s.start, s.count, |ShardBytes(s)|, Sha(h, ShardBytes(s)),
               IdOf(s.vectors[0]), IdOf(s.vectors[|s.vectors| - 1]))
  }

  function EntryOf(h: Hash, vectors: seq<Value>, stem: string, generation: Octets, slices: seq<Slice>, k: nat): ShardEntry
    requires SlicesInside(slices, |vectors|) && k < |slices|
  {
    Describe(h, PathOf(stem, generation, slices, k), ShardOf(vectors, slices[k]))
  }

  function EntriesOf(h: Hash, vectors: seq<Value>, stem: string, generation: Octets, slices: seq<Slice>)
    : (r: seq<ShardEntry>)
    requires SlicesInside(slices, |vectors|)
    ensures |r| == |slices|
  {
    seq(|slices|, k requires 0 <= k < |slices| => EntryOf(h, vectors, stem, generation, slices, k))
  }

  /** The files of the first n slices. */
  function FirstFiles(vectors: seq<Value>, stem: string, generation: Octets, slices: seq<Slice>, n: nat): (f: Files)
    requires SlicesInside(slices, |vectors|) && n <= |slices|
    ensures forall path :: path in f ==> path.stem == stem && path.generation == generation && path.ordinal < n
  {
    if n == 0 then map[]
    else
      FirstFiles(vectors, stem, generation, slices, n - 1)[
        PathOf(stem, generation, slices, n - 1) := ShardOf(vectors, slices[n - 1])]
  }

  function FilesOf(vectors: seq<Value>, stem: string, generation: Octets, slices: seq<Slice>): Files
    requires SlicesInside(slices, |vectors|)
  {
    FirstFiles(vectors, stem, generation, slices, |slices|)
  }

  /** The name of a document's generation: the digest of its canonical text. */
  function GenerationOf(h: Hash, doc: seq<Entry>): Octets {
    Sha(h, Dump(Object(doc)) + [LF])
  }

  function ContentOf(h: Hash, doc: seq<Entry>): Octets {
    Sha(h, Stable(Object(Without(doc, "content_sha256"))))
  }

  datatype StagedTree = StagedTree(manifest: Manifest, files: Files)

  /** The document can be published: its vectors are records and it carries its own content digest. */
  predicate Publishable(h: Hash, doc: seq<Entry>, target: int) {
    && IsDocument(doc)
    && (forall v :: v in VectorsOf(doc) ==> v.Object?)
    && ValueOf(doc, "content_sha256") == HexText(ContentOf(h, doc))
    && 0 < target <= MAX_SHARD_BYTES
  }

  function ManifestOf(h: Hash, p: Pins, doc: seq<Entry>, stem: string, slices: seq<Slice>): Manifest
    requires IsDocument(doc) && SlicesInside(slices, |VectorsOf(doc)|)
  {
    var vectors := VectorsOf(doc);
    Manifest(ValueOf(doc, "format"), |vectors|, ContentOf(h, doc), Sha(h, OrderText(p, vectors)), |Negatives(vectors)|,
             Sha(h, NegativeText(vectors)), GenerationOf(h, doc), Keys(doc), MAX_SHARD_BYTES,
             Without(doc, "vectors"), EntriesOf(h, vectors, stem, GenerationOf(h, doc), slices))
  }

  lemma TilesInside(slices: seq<Slice>, lo: nat, hi: nat)
    requires Tiles(slices, lo, hi)
    ensures SlicesInside(slices, hi)
    decreases |slices|
  {
    if slices != [] {
      TilesInside(slices[1..], slices[0].end, hi);
      assert forall k :: 1 <= k < |slices| ==> slices[k] == slices[1..][k - 1];
    }
  }

  lemma PartitionInside(vectors: seq<Value>, target: nat)
    ensures Partitioned(vectors, target).Some? ==>
      Tiles(Partitioned(vectors, target).value, 0, |vectors|)
      && SlicesInside(Partitioned(vectors, target).value, |vectors|)
  {
    hide Partitioned, SliceOk;
    CutCovers(vectors, target);
    if Partitioned(vectors, target).Some? {
      TilesInside(Partitioned(vectors, target).value, 0, |vectors|);
    }
  }

  /** The staged manifest and shard files of a document, or nothing when it is refused. */
  function Staged(h: Hash, p: Pins, doc: seq<Entry>, stem: string, target: int): Option<StagedTree> {
    if !Publishable(h, doc, target) then None
    else
      var vectors := VectorsOf(doc);
      PartitionInside(vectors, target);
      match Partitioned(vectors, target)
      case None => None
      case Some(slices) =>
        Some(StagedTree(ManifestOf(h, p, doc, stem, slices), FilesOf(vectors, stem, GenerationOf(h, doc), slices)))
  }

  // ----- what was staged reads back

  /** Every file of a is in b with the same content. */
  predicate Holds(b: Files, a: Files) {
    forall f :: f in a ==> f in b && b[f] == a[f]
  }

  lemma {:induction false} SizesOfSlice(vectors: seq<Value>, a: nat, b: nat)
    requires a <= b <= |vectors|
    ensures Sizes(vectors[a..b]) == Sizes(vectors)[a..b]
  {
    hide Dump;
    var s, t := Sizes(vectors[a..b]), Sizes(vectors)[a..b];
    assert forall i :: 0 <= i < b - a ==> s[i] == t[i];
  }

  lemma SliceFits(vectors: seq<Value>, s: Slice)
    requires s.start < s.end <= |vectors|
    requires SliceSize(Sizes(vectors), s.start, s.end) <= MAX_SHARD_BYTES
    ensures |ShardBytes(ShardOf(vectors, s))| <= MAX_SHARD_BYTES
  {
    hide Dump, ShardBytes, Sizes, ShardSize;
    SizesOfSlice(vectors, s.start, s.end);
    SizeIsLength(ShardOf(vectors, s));
  }

  lemma {:induction false} FileAt(vectors: seq<Value>, stem: string, generation: Octets, slices: seq<Slice>, n: nat, k: nat)
    requires SlicesInside(slices, |vectors|) && k < n <= |slices|
    ensures var files := FirstFiles(vectors, stem, generation, slices, n);
      var path := PathOf(stem, generation, slices, k);
      path in files && files[path] == ShardOf(vectors, slices[k])
    decreases n
  {
    hide ShardOf;
    if k < n - 1 {
      FileAt(vectors, stem, generation, slices, n - 1, k);
    }
  }

  lemma PathAt(h: Hash, m: Manifest, vectors: seq<Value>, stem: string, generation: Octets, slices: seq<Slice>, k: nat)
    requires SlicesInside(slices, |vectors|) && k < |slices|
    requires m.shards == EntriesOf(h, vectors, stem, generation, slices)
    ensures m.shards[k] == EntryOf(h, vectors, stem, generation, slices, k)
    ensures !SeenBefore(m, k)
  {
    hide ShardBytes, ShardOf, IdOf, Sha;
    forall j | 0 <= j < k ensures m.shards[j].path != m.shards[k].path {
      assert m.shards[j] == EntryOf(h, vectors, stem, generation, slices, j);
    }
  }

  lemma ShardMembers(vectors: seq<Value>, s: Slice)
    requires s.start < s.end <= |vectors|
    requires forall v :: v in vectors ==> v.Object?
    ensures var shard := ShardOf(vectors, s);
      && shard.start == s.start && shard.count == s.end - s.start == |shard.vectors|
      && shard.vectors[0] == vectors[s.start] && shard.vectors[|shard.vectors| - 1] == vectors[s.end - 1]
      && forall v :: v in shard.vectors ==> v.Object?
  {
    var part := vectors[s.start..s.end];
    forall v | v in part ensures v in vectors {
      var i :| 0 <= i < |part| && part[i] == v;
      assert vectors[s.start + i] == v;
    }
  }

  lemma StagedEntryFits(h: Hash, vectors: seq<Value>, stem: string, generation: Octets, slices: seq<Slice>, k: nat)
    requires SlicesInside(slices, |vectors|) && k < |slices|
    requires SliceSize(Sizes(vectors), slices[k].start, slices[k].end) <= MAX_SHARD_BYTES
    requires forall v :: v in vectors ==> v.Object?
    ensures EntryFits(h, MAX_SHARD_BYTES, EntryOf(h, vectors, stem, generation, slices, k),
                      ShardOf(vectors, slices[k]), slices[k].start)
  {
    SliceFits(vectors, slices[k]);
    ShardMembers(vectors, slices[k]);
    hide ShardBytes, Sizes, SliceSize, ShardOf, PathOf, EntryFits, Describe, Dump, Sha, IdOf, SlicesInside;
    DescribedFits(h, PathOf(stem, generation, slices, k), ShardOf(vectors, slices[k]));
  }

  lemma DescribedFits(h: Hash, path: ShardPath, s: Shard)
    requires 1 <= s.count == |s.vectors| && |ShardBytes(s)| <= MAX_SHARD_BYTES
    requires forall v :: v in s.vectors ==> v.Object?
    ensures EntryFits(h, MAX_SHARD_BYTES, Describe(h, path, s), s, s.start)
  {
    hide ShardBytes, Sha, IdOf;
  }

  lemma StagedEntryOk(h: Hash, m: Manifest, files: Files, vectors: seq<Value>, stem: string, generation: Octets,
                      slices: seq<Slice>, k: nat)
    requires SlicesInside(slices, |vectors|) && k < |slices|
    requires m.shards == EntriesOf(h, vectors, stem, generation, slices) && m.maxBytes == MAX_SHARD_BYTES
    requires Holds(files, FilesOf(vectors, stem, generation, slices))
    requires SliceSize(Sizes(vectors), slices[k].start, slices[k].end) <= MAX_SHARD_BYTES
    requires forall v :: v in vectors ==> v.Object?
    ensures EntryOk(h, m, files, k, slices[k].start)
    ensures files[m.shards[k].path] == ShardOf(vectors, slices[k])
  {
    hide Sizes, SliceSize, ShardOf, EntryFits, ShardBytes, FirstFiles, SeenBefore, EntriesOf;
    StagedEntryFits(h, vectors, stem, generation, slices, k);
    FileAt(vectors, stem, generation, slices, |slices|, k);
    PathAt(h, m, vectors, stem, generation, slices, k);
  }

  lemma {:induction false} StagedGather(h: Hash, m: Manifest, files: Files, vectors: seq<Value>, stem: string,
                                        generation: Octets, slices: seq<Slice>, k: nat, start: nat)
    requires SlicesInside(slices, |vectors|) && k <= |slices|
    requires m.shards == EntriesOf(h, vectors, stem, generation, slices) && m.maxBytes == MAX_SHARD_BYTES
    requires Holds(files, FilesOf(vectors, stem, generation, slices))
    requires forall i :: 0 <= i < |slices| ==> SliceSize(Sizes(vectors), slices[i].start, slices[i].end) <= MAX_SHARD_BYTES
    requires forall v :: v in vectors ==> v.Object?
    requires Tiles(slices[k..], start, |vectors|) && start <= |vectors|
    ensures Gather(h, m, files, k, start) == Some(vectors[start..])
    decreases |slices| - k
  {
    hide EntryOk, EntriesOf, FilesOf, Holds, SliceSize, Sizes;
    if k == |slices| {
      assert vectors[start..] == [];
    } else {
      var s := slices[k];
      assert slices[k..][1..] == slices[k + 1..] && slices[k..][0] == s;
      StagedEntryOk(h, m, files, vectors, stem, generation, slices, k);
      StagedGather(h, m, files, vectors, stem, generation, slices, k + 1, s.end);
      assert vectors[start..] == vectors[s.start..s.end] + vectors[s.end..];
    }
  }

  /** The content digest a reader recomputes is the one the writer recorded. */
  lemma ContentAgrees(h: Hash, doc: seq<Entry>)
    requires IsDocument(doc)
    ensures Sha(h, ObjectText(Pieces(TopContentKeys(Without(doc, "vectors")), Without(doc, "vectors"), VectorsOf(doc), true), false))
         == ContentOf(h, doc)
  {
    hide Before, Dump, Sorted, Sha, ObjectText, Stable, SortKeys, SortEntries;
    var top := Without(doc, "vectors");
    TopKeys(doc);
    forall k | k != "vectors" ensures ValueOf(top, k) == ValueOf(doc, k) {
      ValueWithout(doc, "vectors", k);
    }
    hide ValueOf;
    PiecesAreSorted(doc, top);
    StableObject(Without(doc, "content_sha256"));
  }

  lemma UniqueDistinct(entries: seq<Entry>)
    requires UniqueKeys(entries)
    ensures Distinct(Keys(entries))
  {
  }

  lemma KeysOfMember(entries: seq<Entry>, k: string)
    ensures k in Keys(entries) <==> exists e :: e in entries && e.key == k
  {
    if k in Keys(entries) {
      var i :| 0 <= i < |entries| && Keys(entries)[i] == k;
      assert entries[i] in entries;
    }
    if exists e :: e in entries && e.key == k {
      var e :| e in entries && e.key == k;
      var i :| 0 <= i < |entries| && entries[i] == e;
      assert Keys(entries)[i] == k;
    }
  }

  /** The reader's content keys are the writer's. */
  lemma TopKeys(doc: seq<Entry>)
    requires IsDocument(doc)
    ensures TopContentKeys(Without(doc, "vectors")) == ContentKeys(doc)
  {
    hide Before, ValueOf, SortKeys, UniqueKeys, Without, Keys;
    var a := Keys(Without(Without(doc, "vectors"), "content_sha256")) + ["vectors"];
    var b := Keys(Without(doc, "content_sha256"));
    WithoutUnique(doc, "vectors");
    WithoutUnique(Without(doc, "vectors"), "content_sha256");
    WithoutUnique(doc, "content_sha256");
    UniqueDistinct(Without(Without(doc, "vectors"), "content_sha256"));
    UniqueDistinct(Without(doc, "content_sha256"));
    KeysOfMember(Without(Without(doc, "vectors"), "content_sha256"), "vectors");
    forall x ensures x in a <==> x in b {
      KeysOfMember(Without(Without(doc, "vectors"), "content_sha256"), x);
      KeysOfMember(Without(doc, "content_sha256"), x);
      KeysOfMember(doc, "vectors");
    }
    SortKeysOfSameKeys(a, b);
  }

  lemma StagedManifestOk(h: Hash, p: Pins, doc: seq<Entry>, stem: string, slices: seq<Slice>)
    requires IsDocument(doc) && SlicesInside(slices, |VectorsOf(doc)|) && slices != [] && HasFormat(doc)
    ensures ManifestOk(ManifestOf(h, p, doc, stem, slices))
  {
    hide ValueOf, ContentOf, GenerationOf, OrderText, NegativeText, Negatives, EntryOf, Without, ExpandedFormat;
    UniqueDistinct(doc);
    forall k ensures (k in Keys(doc) <==> k == "vectors" || k in Keys(Without(doc, "vectors"))) {
      KeysOfMember(doc, k);
      KeysOfMember(Without(doc, "vectors"), k);
    }
    KeysOfMember(Without(doc, "vectors"), "vectors");
  }

  lemma StagedReads(h: Hash, p: Pins, doc: seq<Entry>, stem: string, slices: seq<Slice>, files: Files)
    requires IsDocument(doc) && SlicesInside(slices, |VectorsOf(doc)|)
    requires Tiles(slices, 0, |VectorsOf(doc)|)
    requires forall v :: v in VectorsOf(doc) ==> v.Object?
    requires forall i :: 0 <= i < |slices| ==>
      SliceSize(Sizes(VectorsOf(doc)), slices[i].start, slices[i].end) <= MAX_SHARD_BYTES
    requires Holds(files, FilesOf(VectorsOf(doc), stem, GenerationOf(h, doc), slices))
    ensures ReadVectors(h, p, ManifestOf(h, p, doc, stem, slices), files) == Some(VectorsOf(doc))
  {
    hide SliceSize, Sizes, EntriesOf, FilesOf, Holds, Gather, ContentOf, GenerationOf, OrderText, Negatives,
         NegativeText, Without, IsDocument, VectorsOf;
    var m := ManifestOf(h, p, doc, stem, slices);
    assert slices[0..] == slices;
    StagedGather(h, m, files, VectorsOf(doc), stem, GenerationOf(h, doc), slices, 0, 0);
    assert VectorsOf(doc)[0..] == VectorsOf(doc);
  }

  /**
   What is staged for a document of the expanded format with vectors reads back as exactly
   that document, keys in its own order, from any store that holds the staged files.
   */
  lemma StagedReadsBack(h: Hash, p: Pins, doc: seq<Entry>, stem: string, target: int, files: Files)
    requires Staged(h, p, doc, stem, target).Some? && VectorsOf(doc) != [] && HasFormat(doc)
    requires Holds(files, Staged(h, p, doc, stem, target).value.files)
    ensures Load(h, p, Staged(h, p, doc, stem, target).value.manifest, files) == Some(doc)
  {
    hide SliceSize, Sizes, FilesOf, ManifestOf, Holds, ReadVectors, ManifestOk, ContentOf, Partitioned, ObjectText,
         ValueOf, Without, ExpandedFormat, HasFormat;
    var vectors := VectorsOf(doc);
    PartitionInside(vectors, target);
    CutCovers(vectors, target);
    var slices := Partitioned(vectors, target).value;
    forall i | 0 <= i < |slices| ensures SliceSize(Sizes(vectors), slices[i].start, slices[i].end) <= MAX_SHARD_BYTES {
      assert slices[i] in slices;
    }
    StagedReads(h, p, doc, stem, slices, files);
    StagedManifestOk(h, p, doc, stem, slices);
    StagedLoads(h, p, doc, stem, slices, files);
  }

  lemma StagedLoads(h: Hash, p: Pins, doc: seq<Entry>, stem: string, slices: seq<Slice>, files: Files)
    requires IsDocument(doc) && SlicesInside(slices, |VectorsOf(doc)|)
    requires ValueOf(doc, "content_sha256") == HexText(ContentOf(h, doc))
    requires ManifestOk(ManifestOf(h, p, doc, stem, slices))
    requires ReadVectors(h, p, ManifestOf(h, p, doc, stem, slices), files) == Some(VectorsOf(doc))
    ensures Load(h, p, ManifestOf(h, p, doc, stem, slices), files) == Some(doc)
  {
    hide ReadVectors, ManifestOk, ContentOf, Dump, ValueOf, Without, EntriesOf, OrderText, Negatives, NegativeText, IsDocument;
    PiecesAreDocument(doc);
    ContentAgrees(h, doc);
  }
}
