/** The two-step publication: install a generation of shards, then make its manifest visible. */
module Publication {
  import opened Octets
  import opened Json
  import opened Records
  import opened Partition
  import opened PartitionLaws
  import opened Authority
  import opened Manifests

  /** The directory of one document's shards, named by the digest of its canonical text. */
  datatype Generation = Generation(stem: string, digest: Octets)

  datatype Job = Job(name: string, doc: seq<Entry>, target: int, tree: StagedTree)

  datatype Disk = Disk(manifests: map<string, Manifest>, directories: set<Generation>, files: Files)

  datatype Phase =
    | Idle
    | Prepared(job: Job)
    | Installed(job: Job, mine: bool)
    | Published
    | Undoing(doomed: Generation)

  /** The disk, where the one writer is, and everything that ever became visible. */
  datatype World = World(disk: Disk, phase: Phase, history: seq<Job>)

  datatype Event =
    | Begin(name: string, doc: seq<Entry>, target: int)
    | Install
    | Publish
    | Return
    | Fail
    | Delete(path: ShardPath)
    | EndRollback
    | Crash

  function StemOf(name: string): string {
    if |name| >= 5 && name[|name| - 5..] == ".json" then name[..|name| - 5] else name
  }

  function HomeOf(path: ShardPath): Generation {
    Generation(path.stem, path.generation)
  }

  function KeyOf(h: Hash, job: Job): Generation {
    Generation(StemOf(job.name), GenerationOf(h, job.doc))
  }

  function Names(files: Files, g: Generation): set<ShardPath> {
    set f | f in files && HomeOf(f) == g
  }

  /** The suffix of a manifest's name does not reach the name of its directory. */
  lemma StemOfSuffixed(s: string)
    ensures StemOf(s + ".json") == s
    ensures |StemOf(s)| < |s| ==> s == StemOf(s) + ".json"
    ensures |StemOf(s)| >= |s| ==> StemOf(s) == s
  {
    assert (s + ".json")[|s|..] == ".json" && (s + ".json")[..|s|] == s;
  }

  // ----- the steps

  /** Stages a document and reads the staged tree back before touching anything visible. */
  function Prepare(h: Hash, p: Pins, name: string, doc: seq<Entry>, target: int): Option<Job> {
    match Staged(h, p, doc, StemOf(name), target)
    case None => None
    case Some(tree) =>
      if Load(h, p, tree.manifest, tree.files).None? then None else Some(Job(name, doc, target, tree))
  }

  /** The directory holds files of the same names with the same digests. */
  predicate SameGeneration(h: Hash, disk: Disk, job: Job) {
    && Names(disk.files, KeyOf(h, job)) == Names(job.tree.files, KeyOf(h, job))
    && forall f :: f in Names(job.tree.files, KeyOf(h, job)) ==>
         f in disk.files && Sha(h, ShardBytes(disk.files[f])) == Sha(h, ShardBytes(job.tree.files[f]))
  }

  function Rename(h: Hash, disk: Disk, job: Job): Disk {
    disk.(directories := disk.directories + {KeyOf(h, job)}, files := disk.files + job.tree.files)
  }

  function InstallStep(h: Hash, w: World): World
    requires w.phase.Prepared?
  {
    var job := w.phase.job;
    if KeyOf(h, job) in w.disk.directories then
      w.(phase := if SameGeneration(h, w.disk, job) then Installed(job, false) else Idle)
    else
      w.(disk := Rename(h, w.disk, job), phase := Installed(job, true))
  }

  function PublishStep(w: World): World
    requires w.phase.Installed?
  {
    var job := w.phase.job;
    w.(disk := w.disk.(manifests := w.disk.manifests[job.name := job.tree.manifest]),
       phase := Published, history := w.history + [job])
  }

  /** An ordinary exception: only a generation this run installed and did not publish is undone. */
  function FailStep(h: Hash, w: World): World {
    w.(phase := if w.phase.Installed? && w.phase.mine then Undoing(KeyOf(h, w.phase.job)) else Idle)
  }

  function DeleteStep(w: World, f: ShardPath): World
    requires w.phase.Undoing?
  {
    if HomeOf(f) != w.phase.doomed then w else w.(disk := w.disk.(files := w.disk.files - {f}))
  }

  function EndRollbackStep(w: World): World
    requires w.phase.Undoing?
  {
    var d := if Names(w.disk.files, w.phase.doomed) == {} then w.disk.directories - {w.phase.doomed} else w.disk.directories;
    w.(disk := w.disk.(directories := d), phase := Idle)
  }

  /** One step of the writer; an event that does not apply changes nothing. */
  function Step(h: Hash, p: Pins, w: World, e: Event): World {
    match e
    case Begin(name, doc, target) =>
      if w.phase.Idle? && Prepare(h, p, name, doc, target).Some?
      then w.(phase := Prepared(Prepare(h, p, name, doc, target).value)) else w
    case Install => if w.phase.Prepared? then InstallStep(h, w) else w
    case Publish => if w.phase.Installed? then PublishStep(w) else w
    case Return => if w.phase.Published? then w.(phase := Idle) else w
    case Fail => if w.phase.Undoing? then w else FailStep(h, w)
    case Delete(f) => if w.phase.Undoing? then DeleteStep(w, f) else w
    case EndRollback => if w.phase.Undoing? then EndRollbackStep(w) else w
    case Crash => w.(phase := Idle)
  }

  function Run(h: Hash, p: Pins, w: World, events: seq<Event>): World
    decreases |events|
  {
    if events == [] then w else Run(h, p, Step(h, p, w, events[0]), events[1..])
  }

  lemma {:induction false} RunSplits(h: Hash, p: Pins, w: World, a: seq<Event>, b: seq<Event>)
    ensures Run(h, p, w, a + b) == Run(h, p, Run(h, p, w, a), b)
    decreases |a|
  {
    hide Step;
    if a == [] {
      assert a + b == b;
    } else {
      assert (a + b)[1..] == a[1..] + b;
      RunSplits(h, p, Step(h, p, w, a[0]), a[1..], b);
    }
  }

  // ----- what is accepted

  /** Exactly the self-describing documents of the expanded format with vectors that can be cut get as far as installing. */
  lemma PreparedIff(h: Hash, p: Pins, name: string, doc: seq<Entry>, target: int)
    ensures Prepare(h, p, name, doc, target).Some? <==>
      && Publishable(h, doc, target) && HasFormat(doc) && VectorsOf(doc) != []
      && Partitioned(VectorsOf(doc), target).Some?
  {
    hide Partitioned, IsDocument, ManifestOf, FilesOf, Load, KeyOf, ContentOf, ValueOf, HasFormat;
    var staged := Staged(h, p, doc, StemOf(name), target);
    if staged.Some? {
      if !HasFormat(doc) {
        ForeignFormat(h, p, doc, StemOf(name), target);
      } else if VectorsOf(doc) == [] {
        NothingToRead(h, p, doc, StemOf(name), target);
      } else {
        StagedReadsBack(h, p, doc, StemOf(name), target, staged.value.files);
      }
    }
  }

  /** The read-back refuses a document of any other format. */
  lemma ForeignFormat(h: Hash, p: Pins, doc: seq<Entry>, stem: string, target: int)
    requires Staged(h, p, doc, stem, target).Some? && !HasFormat(doc)
    ensures Load(h, p, Staged(h, p, doc, stem, target).value.manifest, Staged(h, p, doc, stem, target).value.files).None?
  {
    hide ReadVectors, IsDocument, Partitioned, FilesOf, EntriesOf, ContentOf, GenerationOf, ValueOf, OrderText, Negatives,
         NegativeText, Without, ObjectText, VectorsOf, ExpandedFormat;
    PartitionInside(VectorsOf(doc), target);
  }

  lemma NoSlices(slices: seq<Slice>)
    requires slices != []
    ensures !SlicesInside(slices, 0)
  {
    assert !(slices[0].start < slices[0].end <= 0);
  }

  lemma NothingToRead(h: Hash, p: Pins, doc: seq<Entry>, stem: string, target: int)
    requires Staged(h, p, doc, stem, target).Some? && VectorsOf(doc) == []
    ensures Load(h, p, Staged(h, p, doc, stem, target).value.manifest, Staged(h, p, doc, stem, target).value.files).None?
  {
    hide ReadVectors, IsDocument, EntryOf, SlicesInside, Partitioned, FilesOf, ContentOf, GenerationOf, ValueOf, SliceOk, OrderText,
         Negatives, NegativeText, Without, ObjectText, VectorsOf;
    PartitionInside(VectorsOf(doc), target);
    var slices := Partitioned(VectorsOf(doc), target).value;
    if slices != [] {
      NoSlices(slices);
    }
    assert EntriesOf(h, VectorsOf(doc), stem, GenerationOf(h, doc), slices) == [];
  }

  // ----- what every step keeps

  ghost predicate Sound(h: Hash, p: Pins, job: Job) {
    && Staged(h, p, job.doc, StemOf(job.name), job.target) == Some(job.tree)
    && VectorsOf(job.doc) != [] && HasFormat(job.doc)
  }

  /** The generation on the disk is exactly what the job staged. */
  ghost predicate Whole(h: Hash, disk: Disk, job: Job) {
    && Names(disk.files, KeyOf(h, job)) == Names(job.tree.files, KeyOf(h, job))
    && Holds(disk.files, job.tree.files)
  }

  ghost predicate Kept(h: Hash, p: Pins, disk: Disk, job: Job) {
    && Sound(h, p, job)
    && Whole(h, disk, job)
    && KeyOf(h, job) in disk.directories
  }

  ghost predicate Unnamed(h: Hash, history: seq<Job>, g: Generation) {
    forall j :: j in history ==> KeyOf(h, j) != g
  }

  ghost predicate Housed(disk: Disk) {
    forall f :: f in disk.files ==> HomeOf(f) in disk.directories
  }

  ghost predicate AllKept(h: Hash, p: Pins, w: World) {
    forall j :: j in w.history ==> Kept(h, p, w.disk, j)
  }

  ghost predicate Recorded(w: World) {
    forall name :: name in w.disk.manifests ==>
      exists j :: j in w.history && j.name == name && j.tree.manifest == w.disk.manifests[name]
  }

  ghost predicate PhaseOk(h: Hash, p: Pins, w: World) {
    match w.phase
    case Idle => true
    case Published => true
    case Prepared(job) => Sound(h, p, job)
    case Installed(job, mine) => Kept(h, p, w.disk, job) && (mine ==> Unnamed(h, w.history, KeyOf(h, job)))
    case Undoing(g) => Unnamed(h, w.history, g)
  }

  ghost predicate Consistent(h: Hash, p: Pins, w: World) {
    Housed(w.disk) && AllKept(h, p, w) && Recorded(w) && PhaseOk(h, p, w)
  }

  /** The digests the writer compares tell the files apart. */
  ghost predicate Distinguishes(h: Hash, disk: Disk, job: Job) {
    forall f :: f in disk.files && f in job.tree.files
      && Sha(h, ShardBytes(disk.files[f])) == Sha(h, ShardBytes(job.tree.files[f]))
      ==> disk.files[f] == job.tree.files[f]
  }

  ghost predicate TrustedStep(h: Hash, w: World, e: Event) {
    e.Install? && w.phase.Prepared? ==> Distinguishes(h, w.disk, w.phase.job)
  }

  ghost predicate Trusted(h: Hash, p: Pins, w: World, events: seq<Event>)
    decreases |events|
  {
    events == [] || (TrustedStep(h, w, events[0]) && Trusted(h, p, Step(h, p, w, events[0]), events[1..]))
  }

  lemma FilesAtHome(h: Hash, p: Pins, job: Job)
    requires Sound(h, p, job)
    ensures forall f :: f in job.tree.files ==> HomeOf(f) == KeyOf(h, job)
  {
    hide IsDocument, ManifestOf, Partitioned, GenerationOf, VectorsOf, ContentOf, ValueOf;
    PartitionInside(VectorsOf(job.doc), job.target);
  }

  lemma PreparedIsSound(h: Hash, p: Pins, name: string, doc: seq<Entry>, target: int)
    requires Prepare(h, p, name, doc, target).Some?
    ensures Sound(h, p, Prepare(h, p, name, doc, target).value)
  {
    hide Staged, Load, VectorsOf, Publishable, Partitioned, HasFormat;
    PreparedIff(h, p, name, doc, target);
  }

  lemma InstallKeeps(h: Hash, p: Pins, w: World)
    requires Consistent(h, p, w) && w.phase.Prepared? && TrustedStep(h, w, Install)
    ensures Consistent(h, p, InstallStep(h, w))
  {
    hide Sound, KeyOf, Sha, ShardBytes;
    var job := w.phase.job;
    FilesAtHome(h, p, job);
    var g := KeyOf(h, job);
    var next := InstallStep(h, w);
    if g in w.disk.directories {
      if SameGeneration(h, w.disk, job) {
        forall f | f in job.tree.files ensures f in w.disk.files && w.disk.files[f] == job.tree.files[f] {
          assert f in Names(job.tree.files, g);
        }
      }
    } else {
      forall j | j in w.history ensures Kept(h, p, next.disk, j) && KeyOf(h, j) != g {
        assert Kept(h, p, w.disk, j);
        FilesAtHome(h, p, j);
      }
    }
  }

  lemma PublishKeeps(h: Hash, p: Pins, w: World)
    requires Consistent(h, p, w) && w.phase.Installed?
    ensures Consistent(h, p, PublishStep(w))
  {
    hide Sound, KeyOf;
    var next := PublishStep(w);
    forall j | j in next.history ensures Kept(h, p, next.disk, j) {
      if j != w.phase.job {
        assert Kept(h, p, w.disk, j);
      }
    }
    forall name | name in next.disk.manifests
      ensures exists j :: j in next.history && j.name == name && j.tree.manifest == next.disk.manifests[name]
    {
      if name == w.phase.job.name {
        assert w.phase.job in next.history;
      } else {
        var j :| j in w.history && j.name == name && j.tree.manifest == w.disk.manifests[name];
        assert j in next.history;
      }
    }
  }

  lemma DeleteKeeps(h: Hash, p: Pins, w: World, f: ShardPath)
    requires Consistent(h, p, w) && w.phase.Undoing?
    ensures Consistent(h, p, DeleteStep(w, f))
  {
    hide Sound, KeyOf;
    var next := DeleteStep(w, f);
    forall j | j in w.history ensures Kept(h, p, next.disk, j) {
      assert Kept(h, p, w.disk, j);
      FilesAtHome(h, p, j);
    }
  }

  lemma EndRollbackKeeps(h: Hash, p: Pins, w: World)
    requires Consistent(h, p, w) && w.phase.Undoing?
    ensures Consistent(h, p, EndRollbackStep(w))
  {
    hide Sound, KeyOf;
    var next := EndRollbackStep(w);
    forall j | j in w.history ensures Kept(h, p, next.disk, j) {
      assert Kept(h, p, w.disk, j);
    }
    forall f | f in next.disk.files ensures HomeOf(f) in next.disk.directories {
      if HomeOf(f) == w.phase.doomed {
        assert f in Names(w.disk.files, w.phase.doomed);
      }
    }
  }

  lemma StepKeeps(h: Hash, p: Pins, w: World, e: Event)
    requires Consistent(h, p, w) && TrustedStep(h, w, e)
    ensures Consistent(h, p, Step(h, p, w, e))
    ensures w.history <= Step(h, p, w, e).history
  {
    hide Sound, KeyOf, Kept, Prepare, DeleteStep, Unnamed;
    match e
    case Begin(name, doc, target) =>
      if Prepare(h, p, name, doc, target).Some? {
        PreparedIsSound(h, p, name, doc, target);
      }
    case Install => if w.phase.Prepared? { InstallKeeps(h, p, w); }
    case Publish => if w.phase.Installed? { PublishKeeps(h, p, w); }
    case Delete(f) => if w.phase.Undoing? { DeleteKeeps(h, p, w, f); DeleteIsSilent(w, f); }
    case EndRollback => if w.phase.Undoing? { EndRollbackKeeps(h, p, w); }
    case Return =>
    case Fail =>
    case Crash =>
  }

  lemma DeleteIsSilent(w: World, f: ShardPath)
    requires w.phase.Undoing?
    ensures DeleteStep(w, f).history == w.history
  {
  }

  lemma {:induction false} RunKeeps(h: Hash, p: Pins, w: World, events: seq<Event>)
    requires Consistent(h, p, w) && Trusted(h, p, w, events)
    ensures Consistent(h, p, Run(h, p, w, events))
    ensures w.history <= Run(h, p, w, events).history
    decreases |events|
  {
    hide Consistent, Step, TrustedStep;
    if events != [] {
      StepKeeps(h, p, w, events[0]);
      RunKeeps(h, p, Step(h, p, w, events[0]), events[1..]);
    }
  }

  /** Nothing has been published yet; directories left by earlier runs may be lying about. */
  ghost predicate Pristine(w: World) {
    w.phase.Idle? && w.history == [] && w.disk.manifests == map[] && Housed(w.disk)
  }

  lemma PristineIsConsistent(h: Hash, p: Pins, w: World)
    requires Pristine(w)
    ensures Consistent(h, p, w)
  {
    hide Kept;
  }

  /**
   Whatever mixture of publications, exceptions, interrupted rollbacks and crashes ran, every
   manifest that was ever visible reads back as the document published under it.
   */
  lemma EveryPublicationSurvives(h: Hash, p: Pins, w: World, events: seq<Event>, job: Job)
    requires Pristine(w) && Trusted(h, p, w, events)
    requires job in Run(h, p, w, events).history
    ensures Load(h, p, job.tree.manifest, Run(h, p, w, events).disk.files) == Some(job.doc)
  {
    hide Run, Load, Staged, Pristine, KeyOf, VectorsOf, Trusted, PhaseOk, Recorded, Housed;
    PristineIsConsistent(h, p, w);
    RunKeeps(h, p, w, events);
    var end := Run(h, p, w, events);
    assert Kept(h, p, end.disk, job);
    StagedReadsBack(h, p, job.doc, StemOf(job.name), job.target, end.disk.files);
  }

  /** What is visible now is something that was published under that name, and reads back. */
  lemma VisibleManifestsRead(h: Hash, p: Pins, w: World, events: seq<Event>, name: string)
    requires Pristine(w) && Trusted(h, p, w, events)
    requires name in Run(h, p, w, events).disk.manifests
    ensures var end := Run(h, p, w, events);
      exists job :: job in end.history && job.name == name && job.tree.manifest == end.disk.manifests[name]
        && Load(h, p, end.disk.manifests[name], end.disk.files) == Some(job.doc)
  {
    hide Run, Load, Pristine, Trusted, PhaseOk, Housed, AllKept;
    PristineIsConsistent(h, p, w);
    RunKeeps(h, p, w, events);
    var end := Run(h, p, w, events);
    var job :| job in end.history && job.name == name && job.tree.manifest == end.disk.manifests[name];
    EveryPublicationSurvives(h, p, w, events, job);
  }

  /**
   A reader that opened a manifest keeps its shards: the files it names are the same ones
   after any further steps, rollbacks included.
   */
  lemma NamedFilesNeverChange(h: Hash, p: Pins, w: World, before: seq<Event>, after: seq<Event>, job: Job, f: ShardPath)
    requires Pristine(w) && Trusted(h, p, w, before + after)
    requires job in Run(h, p, w, before).history && f in job.tree.files
    ensures f in Run(h, p, w, before).disk.files && f in Run(h, p, w, before + after).disk.files
    ensures Run(h, p, w, before + after).disk.files[f] == Run(h, p, w, before).disk.files[f]
  {
    hide Run, Pristine, Sound, PhaseOk, Recorded, Housed, Trusted, Step;
    TrustedSplits(h, p, w, before, after);
    RunSplits(h, p, w, before, after);
    PristineIsConsistent(h, p, w);
    RunKeeps(h, p, w, before);
    RunKeeps(h, p, Run(h, p, w, before), after);
    assert Kept(h, p, Run(h, p, w, before).disk, job);
    assert job in Run(h, p, w, before + after).history;
    assert Kept(h, p, Run(h, p, w, before + after).disk, job);
  }

  lemma {:induction false} TrustedSplits(h: Hash, p: Pins, w: World, a: seq<Event>, b: seq<Event>)
    requires Trusted(h, p, w, a + b)
    ensures Trusted(h, p, w, a) && Trusted(h, p, Run(h, p, w, a), b)
    decreases |a|
  {
    hide Step, TrustedStep;
    if a == [] {
      assert a + b == b;
    } else {
      assert (a + b)[1..] == a[1..] + b && (a + b)[0] == a[0];
      TrustedSplits(h, p, Step(h, p, w, a[0]), a[1..], b);
    }
  }

  lemma TreesAtHome(h: Hash, p: Pins, a: Job, b: Job)
    requires Sound(h, p, a) && Sound(h, p, b) && KeyOf(h, a) == KeyOf(h, b)
    requires Names(a.tree.files, KeyOf(h, a)) == Names(b.tree.files, KeyOf(h, b))
    ensures a.tree.files.Keys == b.tree.files.Keys
  {
    hide Sound, KeyOf;
    FilesAtHome(h, p, a);
    FilesAtHome(h, p, b);
    forall f ensures f in a.tree.files <==> f in b.tree.files {
      assert f in Names(a.tree.files, KeyOf(h, a)) <==> f in Names(b.tree.files, KeyOf(h, b));
    }
  }

  /**
   A generation is published under at most one set of files: a document already visible can be
   published again exactly when it was cut into the same shards.
   */
  lemma RepublishedIff(h: Hash, p: Pins, w: World, earlier: Job)
    requires Consistent(h, p, w) && w.phase.Prepared? && TrustedStep(h, w, Install)
    requires earlier in w.history && KeyOf(h, earlier) == KeyOf(h, w.phase.job)
    ensures Step(h, p, w, Install).phase.Installed? <==> w.phase.job.tree.files == earlier.tree.files
  {
    hide Sound, KeyOf, Sha, ShardBytes, Recorded, Housed;
    var job := w.phase.job;
    assert Kept(h, p, w.disk, earlier);
    FilesAtHome(h, p, job);
    FilesAtHome(h, p, earlier);
    if SameGeneration(h, w.disk, job) {
      TreesAtHome(h, p, job, earlier);
      forall f | f in job.tree.files ensures job.tree.files[f] == earlier.tree.files[f] {
        assert f in Names(job.tree.files, KeyOf(h, job));
      }
    }
  }

  // ----- leftovers

  function Deletions(paths: seq<ShardPath>): (r: seq<Event>)
    ensures |r| == |paths|
  {
    if paths == [] then [] else [Delete(paths[0])] + Deletions(paths[1..])
  }

  function Surviving(files: Files, g: Generation, paths: seq<ShardPath>): Files {
    map f | f in files && !(HomeOf(f) == g && f in paths) :: files[f]
  }

  lemma {:induction false} DeletionsRemove(h: Hash, p: Pins, w: World, paths: seq<ShardPath>)
    requires w.phase.Undoing?
    ensures Run(h, p, w, Deletions(paths)) ==
      w.(disk := w.disk.(files := Surviving(w.disk.files, w.phase.doomed, paths)))
    decreases |paths|
  {
    if paths == [] {
      assert Surviving(w.disk.files, w.phase.doomed, paths) == w.disk.files;
    } else {
      var next := Step(h, p, w, Delete(paths[0]));
      assert Deletions(paths)[1..] == Deletions(paths[1..]);
      DeletionsRemove(h, p, next, paths[1..]);
      assert Surviving(next.disk.files, w.phase.doomed, paths[1..]) == Surviving(w.disk.files, w.phase.doomed, paths);
    }
  }

  function Retry(job: Job): seq<Event> {
    [Crash, Begin(job.name, job.doc, job.target), Install]
  }

  /** What a retry of the same publication meets: nothing, the whole generation, or a ruin of it. */
  lemma RetryMeets(h: Hash, p: Pins, w: World, job: Job)
    requires Sound(h, p, job)
    requires forall f :: f in Names(w.disk.files, KeyOf(h, job)) ==> f in job.tree.files && w.disk.files[f] == job.tree.files[f]
    ensures Run(h, p, w, Retry(job)).phase.Installed? <==> KeyOf(h, job) !in w.disk.directories || Holds(w.disk.files, job.tree.files)
  {
    hide Staged, Load, Sha, ShardBytes, KeyOf, VectorsOf;
    StagedReadsBack(h, p, job.doc, StemOf(job.name), job.target, job.tree.files);
    FilesAtHome(h, p, job);
    RunOfRetry(h, p, w, job);
    var g := KeyOf(h, job);
    if Holds(w.disk.files, job.tree.files) {
      assert Names(w.disk.files, g) == Names(job.tree.files, g);
    } else {
      var f :| f in job.tree.files && !(f in w.disk.files && w.disk.files[f] == job.tree.files[f]);
      assert f in Names(job.tree.files, g) && f !in Names(w.disk.files, g);
    }
  }

  lemma RunOfRetry(h: Hash, p: Pins, w: World, job: Job)
    ensures Run(h, p, w, Retry(job)) ==
      Step(h, p, Step(h, p, Step(h, p, w, Crash), Begin(job.name, job.doc, job.target)), Install)
  {
    hide Step;
    var es := Retry(job);
    var b := Begin(job.name, job.doc, job.target);
    assert es[1..] == [b, Install] && es[1..][1..] == [Install] && es[1..][1..][1..] == [];
    var w1 := Step(h, p, w, Crash);
    var w2 := Step(h, p, w1, b);
    assert Run(h, p, w2, [Install]) == Run(h, p, Step(h, p, w2, Install), []);
    assert Run(h, p, w1, [b, Install]) == Run(h, p, w2, [Install]);
  }

  // ----- a generation nobody is undoing stays as it is

  ghost predicate SameHome(was: Disk, now: Disk, g: Generation) {
    && Names(now.files, g) == Names(was.files, g)
    && forall f :: f in Names(was.files, g) ==> f in now.files && now.files[f] == was.files[f]
  }

  /** The generation is on the disk as it was, and no step under way will change it. */
  ghost predicate Frozen(h: Hash, p: Pins, was: Disk, w: World, g: Generation) {
    && g in w.disk.directories
    && SameHome(was, w.disk, g)
    && (w.phase.Prepared? ==> Sound(h, p, w.phase.job))
    && (w.phase.Installed? && w.phase.mine ==> KeyOf(h, w.phase.job) != g)
    && (w.phase.Undoing? ==> w.phase.doomed != g)
  }

  lemma StepFreezes(h: Hash, p: Pins, was: Disk, w: World, g: Generation, e: Event)
    requires Frozen(h, p, was, w, g)
    ensures Frozen(h, p, was, Step(h, p, w, e), g)
  {
    hide Sound, KeyOf, Prepare, SameGeneration;
    match e
    case Begin(name, doc, target) =>
      if Prepare(h, p, name, doc, target).Some? {
        PreparedIsSound(h, p, name, doc, target);
      }
    case Install =>
      if w.phase.Prepared? {
        FilesAtHome(h, p, w.phase.job);
      }
    case _ =>
  }

  lemma {:induction false} RunFreezes(h: Hash, p: Pins, was: Disk, w: World, g: Generation, events: seq<Event>)
    requires Frozen(h, p, was, w, g)
    ensures Frozen(h, p, was, Run(h, p, w, events), g)
    decreases |events|
  {
    hide Frozen, Step;
    if events != [] {
      StepFreezes(h, p, was, w, g, events[0]);
      RunFreezes(h, p, was, Step(h, p, w, events[0]), g, events[1..]);
    }
  }

  /** What is left of the generation is part of what the job staged. */
  ghost predicate Remains(h: Hash, disk: Disk, job: Job) {
    forall f :: f in Names(disk.files, KeyOf(h, job)) ==> f in job.tree.files && disk.files[f] == job.tree.files[f]
  }

  /** However much later a retry comes, it meets the generation as the crash left it. */
  lemma LaterRetryMeets(h: Hash, p: Pins, w: World, job: Job, later: seq<Event>)
    requires Sound(h, p, job) && w.phase.Idle? && KeyOf(h, job) in w.disk.directories && Remains(h, w.disk, job)
    ensures Run(h, p, w, later + Retry(job)).phase.Installed? <==> Holds(w.disk.files, job.tree.files)
    ensures Run(h, p, w, later + Retry(job)).phase.Installed? ==> Run(h, p, w, later + Retry(job)).phase.job == job
  {
    hide KeyOf, Sound, Run, Retry;
    var g := KeyOf(h, job);
    RunFreezes(h, p, w.disk, w, g, later);
    var end := Run(h, p, w, later);
    RunSplits(h, p, w, later, Retry(job));
    FilesAtHome(h, p, job);
    SameHomeHolds(w.disk, end.disk, g, job.tree.files);
    RetryMeets(h, p, end, job);
    RetryKeepsJob(h, p, end, job);
  }

  lemma SameHomeHolds(was: Disk, now: Disk, g: Generation, files: Files)
    requires SameHome(was, now, g) && forall f :: f in files ==> HomeOf(f) == g
    ensures Holds(was.files, files) <==> Holds(now.files, files)
  {
    forall f | f in files
      ensures (f in was.files && was.files[f] == files[f]) <==> (f in now.files && now.files[f] == files[f])
    {
      assert f in Names(was.files, g) <==> f in Names(now.files, g);
    }
  }

  /**
   A crash after the generation is installed and before the manifest is replaced: whatever
   happens later, the same publication can be repeated and becomes visible.
   */
  lemma CrashBeforePublishIsRepeatable(h: Hash, p: Pins, w: World, later: seq<Event>)
    requires Consistent(h, p, w) && w.phase.Prepared? && KeyOf(h, w.phase.job) !in w.disk.directories
    ensures var job := w.phase.job;
      var end := Run(h, p, w, [Install, Crash] + (later + Retry(job)) + [Publish]);
      job.name in end.disk.manifests && end.disk.manifests[job.name] == job.tree.manifest
  {
    hide KeyOf, Prepare, Sound, SameGeneration, Kept, AllKept, Recorded, Retry;
    var job := w.phase.job;
    var mid := InstallStep(h, w).(phase := Idle);
    FilesAtHome(h, p, job);
    assert [Install, Crash][1..] == [Crash];
    assert Run(h, p, w, [Install, Crash]) == mid;
    hide Run;
    RunSplits(h, p, w, [Install, Crash], later + Retry(job));
    RunSplits(h, p, w, [Install, Crash] + (later + Retry(job)), [Publish]);
    LaterRetryMeets(h, p, mid, job, later);
    OneStep(h, p, Run(h, p, mid, later + Retry(job)), Publish);
  }

  lemma OneStep(h: Hash, p: Pins, w: World, e: Event)
    ensures Run(h, p, w, [e]) == Step(h, p, w, e)
  {
    hide Step;
    assert [e][1..] == [];
    assert Run(h, p, Step(h, p, w, e), []) == Step(h, p, w, e);
  }

  lemma RetryKeepsJob(h: Hash, p: Pins, w: World, job: Job)
    requires Sound(h, p, job)
    ensures Run(h, p, w, Retry(job)).phase.Installed? ==> Run(h, p, w, Retry(job)).phase.job == job
  {
    hide Staged, Load, SameGeneration, KeyOf, VectorsOf, Rename;
    StagedReadsBack(h, p, job.doc, StemOf(job.name), job.target, job.tree.files);
    RunOfRetry(h, p, w, job);
  }

  /** The world after a rollback that a crash stopped when the given files were gone. */
  function Interrupted(h: Hash, w: World, paths: seq<ShardPath>): World
    requires w.phase.Prepared?
  {
    var g := KeyOf(h, w.phase.job);
    var d := Rename(h, w.disk, w.phase.job);
    w.(disk := d.(files := Surviving(d.files, g, paths)), phase := Idle)
  }

  lemma RunInterrupted(h: Hash, p: Pins, w: World, paths: seq<ShardPath>)
    requires w.phase.Prepared? && KeyOf(h, w.phase.job) !in w.disk.directories
    ensures Run(h, p, w, [Install, Fail] + Deletions(paths) + [Crash]) == Interrupted(h, w, paths)
  {
    hide KeyOf, Prepare, SameGeneration, Surviving;
    var mid := FailStep(h, InstallStep(h, w));
    assert [Install, Fail][1..] == [Fail];
    assert Run(h, p, w, [Install, Fail]) == mid;
    hide Run;
    RunSplits(h, p, w, [Install, Fail], Deletions(paths));
    RunSplits(h, p, w, [Install, Fail] + Deletions(paths), [Crash]);
    DeletionsRemove(h, p, mid, paths);
    OneStep(h, p, Run(h, p, mid, Deletions(paths)), Crash);
  }

  lemma WhatIsLeft(h: Hash, p: Pins, w: World, paths: seq<ShardPath>)
    requires Housed(w.disk) && w.phase.Prepared? && Sound(h, p, w.phase.job)
    requires KeyOf(h, w.phase.job) !in w.disk.directories
    ensures var job := w.phase.job;
      var left := Interrupted(h, w, paths);
      && KeyOf(h, job) in left.disk.directories && Remains(h, left.disk, job)
      && (Holds(left.disk.files, job.tree.files) <==> forall f :: f in paths ==> f !in job.tree.files)
  {
    hide KeyOf, Sound;
    FilesAtHome(h, p, w.phase.job);
    var left := Interrupted(h, w, paths);
    assert forall f :: f in w.phase.job.tree.files && f !in paths ==> f in left.disk.files;
  }

  /**
   An exception after the installation starts the rollback. When a crash stops that rollback,
   the same publication is refused at any later time, whatever happens in between, if and only
   if some file of the generation had been deleted.
   */
  lemma InterruptedRollbackBlocks(h: Hash, p: Pins, w: World, paths: seq<ShardPath>, later: seq<Event>)
    requires Consistent(h, p, w) && w.phase.Prepared? && KeyOf(h, w.phase.job) !in w.disk.directories
    ensures var job := w.phase.job;
      var crashed := [Install, Fail] + Deletions(paths) + [Crash];
      Run(h, p, w, crashed + (later + Retry(job))).phase.Installed? <==>
        forall f :: f in paths ==> f !in job.tree.files
  {
    hide KeyOf, Prepare, Sound, SameGeneration, AllKept, Recorded, Retry, Run, Housed, Remains, Holds, Surviving, Deletions;
    RunInterrupted(h, p, w, paths);
    WhatIsLeft(h, p, w, paths);
    var left := Interrupted(h, w, paths);
    RunSplits(h, p, w, [Install, Fail] + Deletions(paths) + [Crash], later + Retry(w.phase.job));
    LaterRetryMeets(h, p, left, w.phase.job, later);
  }
}
