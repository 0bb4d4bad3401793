/** The writer's store: a directory tree changed step by step, with the rollback flags. */
module AuthorityStore {
  import opened Octets
  import opened Json
  import opened Records
  import opened Partition
  import opened Authority
  import opened Manifests
  import opened Publication

  /** Where an ordinary exception strikes, if at all. */
  datatype Fault = NoFault | BeforeInstall | AfterInstall | AfterPublish

  lemma FirstFilesGrow(vectors: seq<Value>, stem: string, generation: Octets, slices: seq<Slice>, n: nat)
    requires SlicesInside(slices, |vectors|) && n < |slices|
    ensures FirstFiles(vectors, stem, generation, slices, n + 1) ==
      FirstFiles(vectors, stem, generation, slices, n)[PathOf(stem, generation, slices, n) := ShardOf(vectors, slices[n])]
  {
    hide ShardOf, PathOf;
  }

  lemma NoFiles(vectors: seq<Value>, stem: string, generation: Octets, slices: seq<Slice>)
    requires SlicesInside(slices, |vectors|)
    ensures FirstFiles(vectors, stem, generation, slices, 0) == map[]
  {
  }

  /** Writes the shards one by one, collecting the entries that describe them. */
  method StageShards(h: Hash, vectors: seq<Value>, stem: string, generation: Octets, slices: seq<Slice>)
    returns (entries: seq<ShardEntry>, files: Files)
    requires SlicesInside(slices, |vectors|)
    ensures entries == EntriesOf(h, vectors, stem, generation, slices)
    ensures files == FilesOf(vectors, stem, generation, slices)
  {
    hide EntriesOf, FirstFiles, Describe, PathOf, ShardOf, SlicesInside;
    entries, files := [], map[];
    ghost var all := EntriesOf(h, vectors, stem, generation, slices);
    NoFiles(vectors, stem, generation, slices);
    assert all[..0] == [];
    for k := 0 to |slices|
      invariant entries == all[..k]
      invariant files == FirstFiles(vectors, stem, generation, slices, k)
    {
      FirstFilesGrow(vectors, stem, generation, slices, k);
      EntryAt(h, vectors, stem, generation, slices, k);
      var shard := ShardOf(vectors, slices[k]);
      var path := PathOf(stem, generation, slices, k);
      files := files[path := shard];
      assert all[..k + 1] == all[..k] + [all[k]];
      entries := entries + [Describe(h, path, shard)];
    }
    assert all[..|slices|] == all;
  }

  lemma EntryAt(h: Hash, vectors: seq<Value>, stem: string, generation: Octets, slices: seq<Slice>, k: nat)
    requires SlicesInside(slices, |vectors|) && k < |slices|
    ensures slices[k].start < slices[k].end <= |vectors|
    ensures EntriesOf(h, vectors, stem, generation, slices)[k] ==
      Describe(h, PathOf(stem, generation, slices, k), ShardOf(vectors, slices[k]))
  {
    hide Describe;
  }

  /** Builds the staged tree with the streaming digests and the one-pass cutter. */
  method BuildTree(h: Hash, p: Pins, doc: seq<Entry>, stem: string, target: int) returns (tree: Option<StagedTree>)
    ensures tree == Staged(h, p, doc, stem, target)
  {
    hide ValueOf, Without, Partitioned, EntriesOf, FilesOf, OrderText, Negatives, NegativeText, Dump, Sha, Stable,
         IsDocument, SlicesInside, VectorsOf;
    if !IsDocument(doc) {
      return None;
    }
    var vectors := VectorsOf(doc);
    if !(forall v :: v in vectors ==> v.Object?) {
      return None;
    }
    var order, negativeCount, negative := SemanticPins(p, vectors);
    var content := FeedContent(doc);
    var canonical := FeedCanonical(doc);
    if ValueOf(doc, "content_sha256") != HexText(Sha(h, content)) || target <= 0 || target > MAX_SHARD_BYTES {
      return None;
    }
    PartitionInside(vectors, target);
    var cut := CutVectors(vectors, target);
    if cut.None? {
      return None;
    }
    var entries, files := StageShards(h, vectors, stem, Sha(h, canonical), cut.value);
    return Some(StagedTree(
      Manifest(ValueOf(doc, "format"), |vectors|, Sha(h, content), Sha(h, order), negativeCount, Sha(h, negative), Sha(h, canonical),
               Keys(doc), MAX_SHARD_BYTES, Without(doc, "vectors"), entries),
      files));
  }

  lemma AfterOne(h: Hash, p: Pins, w: World, events: seq<Event>, e: Event)
    ensures Run(h, p, w, events + [e]) == Step(h, p, Run(h, p, w, events), e)
  {
    hide Step;
    RunSplits(h, p, w, events, [e]);
    var mid := Run(h, p, w, events);
    assert Run(h, p, mid, [e]) == Run(h, p, Step(h, p, mid, e), []);
  }

  class Store {
    var manifests: map<string, Manifest>
    var directories: set<Generation>
    var files: Files
    ghost var history: seq<Job>

    ghost function Seen(phase: Phase): World
      reads this
    {
      World(Disk(manifests, directories, files), phase, history)
    }

    constructor ()
      ensures Pristine(Seen(Idle))
    {
      manifests, directories, files, history := map[], {}, map[], [];
    }

    /** Renames the staged directory into place, or checks the one that is already there. */
    method InstallGeneration(h: Hash, p: Pins, job: Job) returns (ok: bool, mine: bool)
      modifies this`directories, this`files
      ensures Seen(if ok then Installed(job, mine) else Idle) == Step(h, p, old(Seen(Prepared(job))), Install)
      ensures !ok ==> !mine
    {
      hide KeyOf, ShardBytes, Sha;
      var g := KeyOf(h, job);
      ghost var disk := Seen(Idle).disk;
      if g in directories {
        mine := false;
        ok := Names(files, g) == Names(job.tree.files, g);
        if ok {
          var left := Names(job.tree.files, g);
          while left != {}
            invariant left <= Names(job.tree.files, g)
            invariant forall f :: f in Names(job.tree.files, g) - left ==>
              f in files && Sha(h, ShardBytes(files[f])) == Sha(h, ShardBytes(job.tree.files[f]))
            decreases left
          {
            var f :| f in left;
            assert f in Names(files, g);
            if Sha(h, ShardBytes(job.tree.files[f])) != Sha(h, ShardBytes(files[f])) {
              assert !SameGeneration(h, disk, job);
              return false, false;
            }
            left := left - {f};
          }
        }
      } else {
        ok, mine := true, true;
        directories := directories + {g};
        files := files + job.tree.files;
      }
    }

    /** Removes a generation file by file, in any order. */
    method RemoveTree(g: Generation) returns (ghost paths: seq<ShardPath>)
      modifies this`directories, this`files
      ensures files == Surviving(old(files), g, paths) && Names(files, g) == {}
      ensures directories == old(directories) - {g}
    {
      paths := [];
      var left := Names(files, g);
      while left != {}
        invariant files == Surviving(old(files), g, paths)
        invariant left == Names(files, g)
        invariant directories == old(directories)
        decreases left
      {
        var f :| f in left;
        files := files - {f};
        left := left - {f};
        paths := paths + [f];
      }
      directories := directories - {g};
    }

    /**
     One publication, with at most one ordinary exception. The whole change is a run of the
     step machine; it either makes the document visible under its name or leaves the disk
     exactly as it was, unless the exception comes after the manifest was replaced.
     */
    method WriteSharded(h: Hash, p: Pins, name: string, doc: seq<Entry>, target: int, fault: Fault)
      returns (ok: bool, ghost events: seq<Event>)
      requires Housed(Seen(Idle).disk)
      modifies this
      ensures Seen(Idle) == Run(h, p, old(Seen(Idle)), events)
      ensures ok <==>
        && fault.NoFault? && Prepare(h, p, name, doc, target).Some?
        && var job := Prepare(h, p, name, doc, target).value;
           KeyOf(h, job) !in old(directories) || SameGeneration(h, old(Seen(Idle)).disk, job)
      ensures !ok && !fault.AfterPublish? ==> Seen(Idle) == old(Seen(Idle))
      ensures ok ==>
        && Prepare(h, p, name, doc, target).Some?
        && manifests == old(manifests)[name := Prepare(h, p, name, doc, target).value.tree.manifest]
        && history == old(history) + [Prepare(h, p, name, doc, target).value]
    {
      hide Staged, Load, KeyOf, SameGeneration, Run;
      ghost var start := Seen(Idle);
      ok, events := false, [];
      RunOfNothing(h, p, start);
      var tree := BuildTree(h, p, doc, StemOf(name), target);
      if tree.None? || fault.BeforeInstall? {
        return;
      }
      var read := Load(h, p, tree.value.manifest, tree.value.files);
      if read.None? {
        return;
      }
      var job := Job(name, doc, target, tree.value);
      AfterOne(h, p, start, events, Begin(name, doc, target));
      events := events + [Begin(name, doc, target)];
      AfterOne(h, p, start, events, Install);
      events := events + [Install];
      var here, mine := InstallGeneration(h, p, job);
      if !here {
        return;
      }
      if fault.AfterInstall? {
        AfterOne(h, p, start, events, Fail);
        events := events + [Fail];
        if mine {
          events := Rollback(h, p, start, job, events);
        }
        return;
      }
      AfterOne(h, p, start, events, Publish);
      events := events + [Publish];
      manifests := manifests[name := job.tree.manifest];
      history := history + [job];
      ok := fault.NoFault?;
      AfterOne(h, p, start, events, if ok then Return else Fail);
      events := events + [if ok then Return else Fail];
    }

    /** Undoes a generation this run installed: the disk is again what it was before. */
    method Rollback(h: Hash, p: Pins, ghost start: World, job: Job, ghost events: seq<Event>)
      returns (ghost all: seq<Event>)
      requires Prepare(h, p, job.name, job.doc, job.target) == Some(job)
      requires Housed(start.disk) && start.phase.Idle? && KeyOf(h, job) !in start.disk.directories
      requires Seen(Idle) == start.(disk := Rename(h, start.disk, job))
      requires Run(h, p, start, events) == Seen(Undoing(KeyOf(h, job)))
      modifies this`directories, this`files
      ensures Seen(Idle) == Run(h, p, start, all) == start
    {
      hide KeyOf, Run, Prepare, Sound;
      PreparedIsSound(h, p, job.name, job.doc, job.target);
      FilesAtHome(h, p, job);
      var g := KeyOf(h, job);
      ghost var undoing := Seen(Undoing(g));
      ghost var paths := RemoveTree(g);
      DeletionsRemove(h, p, undoing, paths);
      RunSplits(h, p, start, events, Deletions(paths));
      AfterOne(h, p, start, events + Deletions(paths), EndRollback);
      all := events + Deletions(paths) + [EndRollback];
      assert files == start.disk.files by {
        forall f ensures f in files <==> f in start.disk.files {
          assert f in files && HomeOf(f) == g ==> f in Names(files, g);
        }
      }
      assert directories == start.disk.directories;
    }
  }

  lemma RunOfNothing(h: Hash, p: Pins, w: World)
    ensures Run(h, p, w, []) == w
  {
  }
}
