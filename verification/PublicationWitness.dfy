/** One small document that is published, and a rollback of it that blocks its retry. */
module PublicationWitness {
  import opened Octets
  import opened Json
  import opened Records
  import opened Partition
  import opened PartitionLaws
  import opened Authority
  import opened Manifests
  import opened Publication

  function OneVector(): seq<Value> {
    [Object([])]
  }

  /** The document without its content digest. */
  function SmallContent(): seq<Entry> {
    [Entry("format", ExpandedFormat()), Entry("vectors", List(OneVector()))]
  }

  function SmallDocument(h: Hash): seq<Entry> {
    [Entry("content_sha256", HexText(Sha(h, Stable(Object(SmallContent())))))] + SmallContent()
  }

  function EmptyWorld(): World {
    World(Disk(map[], {}, map[]), Idle, [])
  }

  lemma KeysDiffer()
    ensures "format" != "vectors" && "content_sha256" != "vectors" && "content_sha256" != "format"
  {
    assert |"format"| == 6 && |"vectors"| == 7 && |"content_sha256"| == 14;
  }

  lemma SmallIsDocument(h: Hash)
    ensures IsDocument(SmallDocument(h)) && VectorsOf(SmallDocument(h)) == OneVector()
    ensures HasFormat(SmallDocument(h)) && Without(SmallDocument(h), "content_sha256") == SmallContent()
    ensures ValueOf(SmallDocument(h), "content_sha256") == HexText(ContentOf(h, SmallDocument(h)))
  {
    hide Hex, Sha, Stable, ExpandedFormat;
    KeysDiffer();
    var d := SmallDocument(h);
    assert d[1..] == SmallContent() && d[1..][1..] == [Entry("vectors", List(OneVector()))] && d[1..][1..][1..] == [];
    assert ValueOf(d, "vectors") == ValueOf(d[1..], "vectors") == ValueOf(d[1..][1..], "vectors") == List(OneVector());
    assert Keys(d)[2] == "vectors";
    assert ValueOf(d, "format") == ValueOf(d[1..], "format") == ExpandedFormat();
  }

  lemma SmallIsCut(target: nat)
    requires 0 < target <= MAX_SHARD_BYTES
    ensures Partitioned(OneVector(), target).Some? && Partitioned(OneVector(), target).value != []
  {
    hide Partitioned, Tiles, Dump, Decimal;
    CutFailsIff(OneVector(), target);
    CutCovers(OneVector(), target);
    var sizes := Sizes(OneVector());
    SmallSize();
    assert sizes[0..1] == sizes;
    assert !SomeTooBig(sizes);
    SmallTiles(Partitioned(OneVector(), target));
  }

  lemma SmallTiles(c: Option<seq<Slice>>)
    requires c.Some? && Tiles(c.value, 0, |OneVector()|)
    ensures c.value != []
  {
  }

  lemma SmallSize()
    ensures Sizes(OneVector()) == [2] && Total([2]) == 2
    ensures |Decimal(0)| == 1 && |Decimal(1)| == 1
  {
    assert Dump(Object([])) == [0x7B] + [] + [0x7D];
  }

  /** There is a document that is prepared. */
  lemma SmallIsPrepared(h: Hash, p: Pins, name: string, target: nat)
    requires 0 < target <= MAX_SHARD_BYTES
    ensures Prepare(h, p, name, SmallDocument(h), target).Some?
  {
    hide Prepare, Partitioned, ContentOf, IsDocument, SmallDocument, ValueOf, HasFormat, VectorsOf;
    SmallIsDocument(h);
    SmallIsCut(target);
    PreparedIff(h, p, name, SmallDocument(h), target);
  }

  function Publishing(h: Hash, name: string, target: nat): seq<Event> {
    [Begin(name, SmallDocument(h), target), Install, Publish]
  }

  /** It becomes visible and reads back. */
  lemma SmallIsPublished(h: Hash, p: Pins, name: string, target: nat)
    requires 0 < target <= MAX_SHARD_BYTES
    ensures var w := Run(h, p, EmptyWorld(), Publishing(h, name, target));
      && w.phase.Published? && name in w.disk.manifests
      && Load(h, p, w.disk.manifests[name], w.disk.files) == Some(SmallDocument(h))
  {
    hide Prepare, KeyOf, Load, SmallDocument, Consistent, Distinguishes;
    SmallIsPrepared(h, p, name, target);
    var job := Prepare(h, p, name, SmallDocument(h), target).value;
    var events := Publishing(h, name, target);
    var w := EmptyWorld();
    PreparedIsThatJob(h, p, name, target);
    assert events[1..] == [Install, Publish] && events[1..][1..] == [Publish] && events[1..][1..][1..] == [];
    var w1 := Step(h, p, w, events[0]);
    var w2 := Step(h, p, w1, Install);
    var w3 := Step(h, p, w2, Publish);
    assert Run(h, p, w, events) == Run(h, p, w1, events[1..]) == Run(h, p, w2, events[1..][1..]) == Run(h, p, w3, []);
    assert w3.history == [job];
    NothingToConfuse(h, job);
    assert TrustedStep(h, w1, Install);
    assert Trusted(h, p, w3, []);
    assert Trusted(h, p, w2, events[1..][1..]);
    assert Trusted(h, p, w1, events[1..]);
    assert Trusted(h, p, w, events);
    hide Run, Step, Trusted;
    assert job in Run(h, p, w, events).history;
    EveryPublicationSurvives(h, p, w, events, job);
  }

  lemma NothingToConfuse(h: Hash, job: Job)
    ensures Distinguishes(h, EmptyWorld().disk, job)
  {
  }

  lemma PreparedIsThatJob(h: Hash, p: Pins, name: string, target: nat)
    requires Prepare(h, p, name, SmallDocument(h), target).Some?
    ensures var job := Prepare(h, p, name, SmallDocument(h), target).value;
      job.name == name && job.doc == SmallDocument(h) && job.target == target
  {
    hide Staged, Load, SmallDocument;
  }

  /** The staged tree holds a file. */
  lemma SmallHasFile(h: Hash, p: Pins, name: string, target: nat)
    requires 0 < target <= MAX_SHARD_BYTES && Prepare(h, p, name, SmallDocument(h), target).Some?
    ensures exists f :: f in Prepare(h, p, name, SmallDocument(h), target).value.tree.files
  {
    hide Load, SmallDocument, Partitioned, ManifestOf, ContentOf, GenerationOf, IsDocument, SlicesInside, PathOf, ShardOf, Tiles;
    SmallIsDocument(h);
    SmallIsCut(target);
    var d := SmallDocument(h);
    PartitionInside(VectorsOf(d), target);
    var slices := Partitioned(VectorsOf(d), target).value;
    FileAt(VectorsOf(d), StemOf(name), GenerationOf(h, d), slices, |slices|, 0);
    assert PathOf(StemOf(name), GenerationOf(h, d), slices, 0)
      in Prepare(h, p, name, d, target).value.tree.files;
  }

  function Staging(h: Hash, p: Pins, name: string, target: nat): World {
    Step(h, p, EmptyWorld(), Begin(name, SmallDocument(h), target))
  }

  /** A rollback of it that is interrupted behind one deletion blocks every retry; behind none, no retry. */
  lemma SmallRollback(h: Hash, p: Pins, name: string, target: nat, later: seq<Event>)
    requires 0 < target <= MAX_SHARD_BYTES
    ensures Staging(h, p, name, target).phase.Prepared?
    ensures var w := Staging(h, p, name, target);
      && Run(h, p, w, [Install, Fail] + Deletions([]) + [Crash] + (later + Retry(w.phase.job))).phase.Installed?
      && exists f :: f in w.phase.job.tree.files &&
           !Run(h, p, w, [Install, Fail] + Deletions([f]) + [Crash] + (later + Retry(w.phase.job))).phase.Installed?
  {
    hide Prepare, KeyOf, SmallDocument, Run, Deletions, Retry, Consistent;
    SmallIsPrepared(h, p, name, target);
    SmallHasFile(h, p, name, target);
    var e := Begin(name, SmallDocument(h), target);
    var w := Staging(h, p, name, target);
    PristineIsConsistent(h, p, EmptyWorld());
    StepKeeps(h, p, EmptyWorld(), e);
    hide Step;
    InterruptedRollbackBlocks(h, p, w, [], later);
    var f :| f in w.phase.job.tree.files;
    InterruptedRollbackBlocks(h, p, w, [f], later);
    assert f in [f];
  }
}
