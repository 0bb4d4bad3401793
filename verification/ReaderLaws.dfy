/** What the shard reader lets through: a changed shard is refused, and an accepted document is the pinned one. */
module ReaderLaws {
  import opened Octets
  import opened Json
  import opened JsonReader
  import opened Records
  import opened Partition
  import opened PartitionLaws
  import opened Authority
  import opened Manifests

  // ----- equal shard files hold equal shards

  lemma LineInjective(v: Value, w: Value)
    requires Dump(v) + [0x0A] == Dump(w) + [0x0A]
    ensures v == w
  {
    hide Dump;
    assert Dump(v) == (Dump(v) + [0x0A])[..|Dump(v)|];
    assert Dump(w) == (Dump(w) + [0x0A])[..|Dump(w)|];
    DumpInjective(v, w);
  }

  lemma ShardValueInjective(s: Shard, t: Shard)
    requires ShardValue(s) == ShardValue(t)
    ensures s == t
  {
    assert ShardValue(s).entries[2].value.n == s.start && ShardValue(s).entries[3].value.n == s.count;
    assert ShardValue(s).entries[4].value.items == s.vectors;
    assert ShardValue(t).entries[2].value.n == t.start && ShardValue(t).entries[3].value.n == t.count;
    assert ShardValue(t).entries[4].value.items == t.vectors;
  }

  lemma ShardBytesInjective(s: Shard, t: Shard)
    requires ShardBytes(s) == ShardBytes(t)
    ensures s == t
  {
    hide Dump, ShardValue;
    LineInjective(ShardValue(s), ShardValue(t));
    ShardValueInjective(s, t);
  }

  // ----- every shard that is opened is the listed one

  /** The file the manifest lists at k is there, with the digest, length, place, count and first and last identity listed. */
  predicate Listed(h: Hash, m: Manifest, files: Files, k: nat)
    requires k < |m.shards|
  {
    var e := m.shards[k];
    && e.path in files
    && var s := files[e.path];
       && Sha(h, ShardBytes(s)) == e.sha
       && |ShardBytes(s)| == e.bytes <= m.maxBytes && e.bytes <= 10_485_760
       && s.start == e.start && s.count == e.count == |s.vectors| && e.count >= 1
       && e.firstId == Get(s.vectors[0], "id") && e.lastId == Get(s.vectors[e.count - 1], "id")
  }

  /** The shards from k to n follow one another, and no file is listed twice. */
  predicate Chained(m: Manifest, k: nat, n: nat, start: nat)
    requires k <= n <= |m.shards|
  {
    && (k < n ==> m.shards[k].start == start)
    && (forall i, j :: k <= i && j == i + 1 < n ==> m.shards[j].start == m.shards[i].start + m.shards[i].count)
    && (forall i, j :: 0 <= i < j && k <= j < n ==> m.shards[i].path != m.shards[j].path)
  }

  /** The vectors handed over from the shards k to n. */
  function Handed(h: Hash, m: Manifest, files: Files, k: nat, n: nat): seq<Value>
    requires k <= n <= |m.shards| && forall j :: k <= j < n ==> Listed(h, m, files, j)
    decreases n - k
  {
    if k == n then []
    else
      assert Listed(h, m, files, k);
      Leading(files[m.shards[k].path].vectors) + Handed(h, m, files, k + 1, n)
  }

  lemma OpensListed(h: Hash, m: Manifest, files: Files, k: nat, start: nat)
    requires k < |m.shards| && EntryOpens(h, m, files, k, start)
    ensures Listed(h, m, files, k) && m.shards[k].start == start && m.shards[k].count == files[m.shards[k].path].count
    ensures forall i :: 0 <= i < k ==> m.shards[i].path != m.shards[k].path
  {
    hide ShardBytes, Sha, Get;
  }

  lemma ChainGrows(m: Manifest, k: nat, n: nat, start: nat)
    requires k + 1 <= n <= |m.shards| && Chained(m, k + 1, n, start + m.shards[k].count) && m.shards[k].start == start
    requires forall i :: 0 <= i < k ==> m.shards[i].path != m.shards[k].path
    ensures Chained(m, k, n, start)
  {
  }

  /** What is yielded comes from the first shards, which are as listed and follow one another. */
  lemma {:induction false} YieldedFromListed(h: Hash, m: Manifest, files: Files, k: nat, start: nat) returns (n: nat)
    requires k <= |m.shards|
    ensures k <= n <= |m.shards| && Chained(m, k, n, start)
    ensures forall j :: k <= j < n ==> Listed(h, m, files, j)
    ensures Yielded(h, m, files, k, start) == Handed(h, m, files, k, n)
    decreases |m.shards| - k
  {
    hide EntryOpens, Listed, Leading, Yielded;
    n := k;
    if k == |m.shards| {
      NothingLeft(h, m, files, start);
    } else if !EntryOpens(h, m, files, k, start) {
      NotOpened(h, m, files, k, start);
    } else {
      Opened(h, m, files, k, start);
      OpensListed(h, m, files, k, start);
      ListedIsThere(h, m, files, k);
      var s := files[m.shards[k].path];
      if Leading(s.vectors) == s.vectors {
        n := YieldedFromListed(h, m, files, k + 1, start + s.count);
      } else {
        n := k + 1;
        assert Handed(h, m, files, k + 1, n) == [];
      }
      ChainGrows(m, k, n, start);
    }
  }

  lemma ListedIsThere(h: Hash, m: Manifest, files: Files, k: nat)
    requires k < |m.shards| && Listed(h, m, files, k)
    ensures m.shards[k].path in files
  {
  }

  // ----- a store that was tampered with

  /** No file of the store has the digest of the staged file of its name and other bytes. */
  predicate Told(h: Hash, files: Files, staged: Files) {
    forall f :: f in files && f in staged ==> !Collide(h, ShardBytes(files[f]), ShardBytes(staged[f]))
  }

  lemma ListedIsStaged(h: Hash, p: Pins, doc: seq<Entry>, stem: string, slices: seq<Slice>, files: Files, k: nat)
    requires IsDocument(doc) && SlicesInside(slices, |VectorsOf(doc)|) && k < |slices|
    requires Listed(h, ManifestOf(h, p, doc, stem, slices), files, k)
    ensures var f := PathOf(stem, GenerationOf(h, doc), slices, k);
      var staged := FilesOf(VectorsOf(doc), stem, GenerationOf(h, doc), slices);
      && f in files && f in staged && staged[f] == ShardOf(VectorsOf(doc), slices[k])
      && f == ManifestOf(h, p, doc, stem, slices).shards[k].path
      && Sha(h, ShardBytes(files[f])) == Sha(h, ShardBytes(staged[f]))
  {
    hide ShardBytes, Sha, IdOf, GenerationOf, ContentOf, OrderText, Negatives, NegativeText, Without, IsDocument, VectorsOf,
         ShardOf, PathOf, FirstFiles, SlicesInside;
    var vectors := VectorsOf(doc);
    FileAt(vectors, stem, GenerationOf(h, doc), slices, |slices|, k);
    PathAt(h, ManifestOf(h, p, doc, stem, slices), vectors, stem, GenerationOf(h, doc), slices, k);
  }

  lemma SliceIsRecords(vectors: seq<Value>, s: Slice)
    requires s.start < s.end <= |vectors| && forall v :: v in vectors ==> v.Object?
    ensures Leading(ShardOf(vectors, s).vectors) == vectors[s.start..s.end]
  {
    ShardMembers(vectors, s);
  }

  /** Where no two files are confused, the shards handed over hold the document's vectors in order. */
  lemma {:induction false} HandedIsPart(h: Hash, p: Pins, doc: seq<Entry>, stem: string, slices: seq<Slice>, files: Files,
                                        k: nat, n: nat, start: nat) returns (end: nat)
    requires IsDocument(doc) && SlicesInside(slices, |VectorsOf(doc)|) && k <= n <= |slices|
    requires forall v :: v in VectorsOf(doc) ==> v.Object?
    requires start <= |VectorsOf(doc)| && Tiles(slices[k..], start, |VectorsOf(doc)|)
    requires Told(h, files, FilesOf(VectorsOf(doc), stem, GenerationOf(h, doc), slices))
    requires forall j :: k <= j < n ==> Listed(h, ManifestOf(h, p, doc, stem, slices), files, j)
    ensures start <= end <= |VectorsOf(doc)|
    ensures Handed(h, ManifestOf(h, p, doc, stem, slices), files, k, n) == VectorsOf(doc)[start..end]
    decreases n - k
  {
    hide Listed, GenerationOf, FilesOf, ShardBytes, Sha, ManifestOf, IsDocument, VectorsOf, ShardOf, Leading;
    if k == n {
      end := start;
      assert VectorsOf(doc)[start..end] == [];
    } else {
      var m := ManifestOf(h, p, doc, stem, slices);
      var s := slices[k];
      ListedIsStaged(h, p, doc, stem, slices, files, k);
      var f := PathOf(stem, GenerationOf(h, doc), slices, k);
      ShardBytesInjective(files[f], ShardOf(VectorsOf(doc), s));
      SliceIsRecords(VectorsOf(doc), s);
      assert slices[k..][0] == s && slices[k..][1..] == slices[k + 1..];
      end := HandedIsPart(h, p, doc, stem, slices, files, k + 1, n, s.end);
      assert VectorsOf(doc)[s.start..end] == VectorsOf(doc)[s.start..s.end] + VectorsOf(doc)[s.end..end];
    }
  }

  lemma StagedParts(h: Hash, p: Pins, doc: seq<Entry>, stem: string, target: int) returns (slices: seq<Slice>)
    requires Staged(h, p, doc, stem, target).Some?
    ensures IsDocument(doc) && SlicesInside(slices, |VectorsOf(doc)|) && Tiles(slices, 0, |VectorsOf(doc)|)
    ensures forall v :: v in VectorsOf(doc) ==> v.Object?
    ensures Staged(h, p, doc, stem, target).value ==
      StagedTree(ManifestOf(h, p, doc, stem, slices), FilesOf(VectorsOf(doc), stem, GenerationOf(h, doc), slices))
  {
    hide Partitioned, ManifestOf, FilesOf, GenerationOf, ContentOf;
    PartitionInside(VectorsOf(doc), target);
    slices := Partitioned(VectorsOf(doc), target).value;
  }

  /**
   Whatever the store holds, a shard from which the reader of a staged manifest yields has the bytes of
   the staged shard, or collides with them; where nothing collides, what is yielded begins the document.
   */
  lemma TamperingIsRefused(h: Hash, p: Pins, doc: seq<Entry>, stem: string, target: int, files: Files) returns (n: nat)
    requires Staged(h, p, doc, stem, target).Some?
    ensures var tree := Staged(h, p, doc, stem, target).value;
      && n <= |tree.manifest.shards| && Chained(tree.manifest, 0, n, 0)
      && (forall j :: 0 <= j < n ==> Listed(h, tree.manifest, files, j))
      && Yielded(h, tree.manifest, files, 0, 0) == Handed(h, tree.manifest, files, 0, n)
      && (forall j :: 0 <= j < n ==>
           var f := tree.manifest.shards[j].path;
           f in files && f in tree.files
           && (ShardBytes(files[f]) == ShardBytes(tree.files[f]) || Collide(h, ShardBytes(files[f]), ShardBytes(tree.files[f]))))
      && (Told(h, files, tree.files) ==> Yielded(h, tree.manifest, files, 0, 0) <= VectorsOf(doc))
  {
    var slices := StagedParts(h, p, doc, stem, target);
    hide Staged, Listed, FilesOf, GenerationOf, ShardBytes, Sha, Yielded, Handed, IsDocument, VectorsOf, Told, ManifestOf;
    var m := ManifestOf(h, p, doc, stem, slices);
    n := YieldedFromListed(h, m, files, 0, 0);
    assert |m.shards| == |slices| by { ShardPerSlice(h, p, doc, stem, slices); }
    forall j | 0 <= j < n
      ensures var f := m.shards[j].path;
        var staged := FilesOf(VectorsOf(doc), stem, GenerationOf(h, doc), slices);
        f in files && f in staged && Sha(h, ShardBytes(files[f])) == Sha(h, ShardBytes(staged[f]))
    {
      ListedIsStaged(h, p, doc, stem, slices, files, j);
    }
    assert slices[0..] == slices;
    if Told(h, files, FilesOf(VectorsOf(doc), stem, GenerationOf(h, doc), slices)) {
      var end := HandedIsPart(h, p, doc, stem, slices, files, 0, n, 0);
    }
  }

  lemma ShardPerSlice(h: Hash, p: Pins, doc: seq<Entry>, stem: string, slices: seq<Slice>)
    requires IsDocument(doc) && SlicesInside(slices, |VectorsOf(doc)|)
    ensures |ManifestOf(h, p, doc, stem, slices).shards| == |slices|
  {
    hide ContentOf, GenerationOf, OrderText, NegativeText, Negatives;
  }

  // ----- what an accepted reading says

  /** The document a manifest pins: its keys, its vectors and every digest of it. */
  predicate Pinned(h: Hash, p: Pins, m: Manifest, doc: seq<Entry>) {
    && IsDocument(doc) && Keys(doc) == m.keyOrder
    && Sha(h, Dump(Object(doc)) + [0x0A]) == m.canonicalSha
    && Sha(h, Stable(Object(Without(doc, "content_sha256")))) == m.contentSha
    && ValueOf(doc, "content_sha256") == HexText(m.contentSha)
    && |VectorsOf(doc)| == m.count
    && Sha(h, OrderText(p, VectorsOf(doc))) == m.orderSha
    && |Negatives(VectorsOf(doc))| == m.negativeCount
    && Sha(h, NegativeText(VectorsOf(doc))) == m.negativeSha
  }

  lemma {:induction false} KeysOfPieces(keys: seq<string>, top: seq<Entry>, vectors: seq<Value>)
    ensures Keys(Pieces(keys, top, vectors, false)) == keys
  {
    var k := Keys(Pieces(keys, top, vectors, false));
    assert forall i :: 0 <= i < |keys| ==> k[i] == keys[i];
  }

  lemma {:induction false} ValueOfPiece(keys: seq<string>, top: seq<Entry>, vectors: seq<Value>, k: string)
    ensures ValueOf(Pieces(keys, top, vectors, false), k) == if k in keys then Piece(top, vectors, k) else Null
  {
    hide Piece;
    if keys != [] {
      assert Pieces(keys, top, vectors, false)[1..] == Pieces(keys[1..], top, vectors, false);
      ValueOfPiece(keys[1..], top, vectors, k);
      assert k in keys <==> k == keys[0] || k in keys[1..];
    }
  }

  lemma {:induction false} NoKeyNoValue(entries: seq<Entry>, k: string)
    requires k !in Keys(entries)
    ensures ValueOf(entries, k) == Null
  {
    if entries != [] {
      assert Keys(entries)[0] == entries[0].key && Keys(entries)[0] in Keys(entries);
      assert forall x :: x in Keys(entries[1..]) ==> x in Keys(entries);
      NoKeyNoValue(entries[1..], k);
    }
  }

  /** The parts of an accepted manifest. */
  lemma ReassembledParts(m: Manifest, vectors: seq<Value>)
    requires ManifestOk(m)
    ensures var doc := Reassembled(m, vectors);
      && IsDocument(doc) && VectorsOf(doc) == vectors && Keys(doc) == m.keyOrder
      && forall k :: k != "vectors" ==> ValueOf(m.top, k) == ValueOf(doc, k)
  {
    hide ValueOf, Keys, Without, ExpandedFormat;
    var doc := Reassembled(m, vectors);
    KeysOfPieces(m.keyOrder, m.top, vectors);
    forall k ensures ValueOf(doc, k) == if k in m.keyOrder then Piece(m.top, vectors, k) else Null {
      ValueOfPiece(m.keyOrder, m.top, vectors, k);
    }
    forall k | k != "vectors" ensures ValueOf(m.top, k) == ValueOf(doc, k) {
      if k !in m.keyOrder {
        NoKeyNoValue(m.top, k);
      }
    }
    assert forall i :: 0 <= i < |doc| ==> doc[i].key == Keys(doc)[i];
  }

  /** The content keys of the top level are those of the document put together. */
  lemma SameContentKeys(m: Manifest, doc: seq<Entry>)
    requires ManifestOk(m) && UniqueKeys(m.top) && IsDocument(doc) && Keys(doc) == m.keyOrder
    ensures TopContentKeys(m.top) == ContentKeys(doc)
  {
    hide Before, ValueOf, SortKeys, UniqueKeys, Without, Keys, ExpandedFormat;
    var a := Keys(Without(m.top, "content_sha256")) + ["vectors"];
    var b := Keys(Without(doc, "content_sha256"));
    WithoutUnique(m.top, "content_sha256");
    WithoutUnique(doc, "content_sha256");
    UniqueDistinct(Without(m.top, "content_sha256"));
    UniqueDistinct(Without(doc, "content_sha256"));
    KeyWithout(m.top, "content_sha256", "vectors");
    forall x ensures x in a <==> x in b {
      KeyWithout(m.top, "content_sha256", x);
      KeyWithout(doc, "content_sha256", x);
    }
    ContentIsNotVectors();
    SortKeysOfSameKeys(a, b);
  }

  lemma ContentIsNotVectors()
    ensures "content_sha256" != "vectors"
  {
    assert |"content_sha256"| != |"vectors"|;
  }

  lemma KeyWithout(entries: seq<Entry>, key: string, x: string)
    ensures x in Keys(Without(entries, key)) <==> x in Keys(entries) && x != key
  {
    hide Without, Keys;
    KeysOfMember(entries, x);
    KeysOfMember(Without(entries, key), x);
  }

  /** An accepted document has the digests, counts and keys the manifest pins, and its vectors are the listed shards'. */
  lemma LoadedIsPinned(h: Hash, p: Pins, m: Manifest, files: Files)
    requires UniqueKeys(m.top) && Load(h, p, m, files).Some?
    ensures Pinned(h, p, m, Load(h, p, m, files).value)
    ensures VectorsOf(Load(h, p, m, files).value) == Yielded(h, m, files, 0, 0)
  {
    hide Gather, Yielded, ManifestOk, Dump, Sha, Stable, ValueOf, Without, OrderText, Negatives, NegativeText, Pieces,
         IsDocument, TopContentKeys, ContentKeys, UniqueKeys;
    var vectors := ReadVectors(h, p, m, files).value;
    YieldedIsGathered(h, m, files, 0, 0);
    var doc := Reassembled(m, vectors);
    ReassembledParts(m, vectors);
    SameContentKeys(m, doc);
    PiecesAreSorted(doc, m.top);
    StableObject(Without(doc, "content_sha256"));
    hide SortEntries, SortedValues;
  }

  /** One manifest stands for one document, whatever the stores hold, unless two canonical texts collide. */
  lemma OneDocumentPerManifest(h: Hash, p: Pins, m: Manifest, a: Files, b: Files)
    requires UniqueKeys(m.top) && Load(h, p, m, a).Some? && Load(h, p, m, b).Some?
    ensures var x, y := Load(h, p, m, a).value, Load(h, p, m, b).value;
      x == y || Collide(h, Dump(Object(x)) + [0x0A], Dump(Object(y)) + [0x0A])
  {
    hide Load, Dump, Sha, Stable, ValueOf, Without, OrderText, Negatives, NegativeText, IsDocument;
    LoadedIsPinned(h, p, m, a);
    LoadedIsPinned(h, p, m, b);
    var x, y := Load(h, p, m, a).value, Load(h, p, m, b).value;
    if Dump(Object(x)) + [0x0A] == Dump(Object(y)) + [0x0A] {
      LineInjective(Object(x), Object(y));
    }
  }

  /** A staged manifest loads as its document or not at all, where no file is confused with the staged one. */
  lemma StagedLoadsOrFails(h: Hash, p: Pins, doc: seq<Entry>, stem: string, target: int, files: Files)
    requires Staged(h, p, doc, stem, target).Some? && Told(h, files, Staged(h, p, doc, stem, target).value.files)
    ensures var r := Load(h, p, Staged(h, p, doc, stem, target).value.manifest, files); r == Some(doc) || r == None
  {
    hide Staged, Load, Told, Yielded, IsDocument, VectorsOf;
    var slices := StagedParts(h, p, doc, stem, target);
    var n := TamperingIsRefused(h, p, doc, stem, target, files);
    var m := Staged(h, p, doc, stem, target).value.manifest;
    if Load(h, p, m, files).Some? {
      var r := Load(h, p, m, files).value;
      StagedUnique(h, p, doc, stem, slices);
      LoadedIsPinned(h, p, m, files);
      LoadedFromVectors(h, p, m, files, doc);
    }
  }

  lemma StagedUnique(h: Hash, p: Pins, doc: seq<Entry>, stem: string, slices: seq<Slice>)
    requires IsDocument(doc) && SlicesInside(slices, |VectorsOf(doc)|)
    ensures var m := ManifestOf(h, p, doc, stem, slices);
      && UniqueKeys(m.top) && m.count == |VectorsOf(doc)| && m.top == Without(doc, "vectors") && m.keyOrder == Keys(doc)
  {
    hide ContentOf, GenerationOf, OrderText, NegativeText, Negatives, EntriesOf, Without;
    WithoutUnique(doc, "vectors");
  }

  lemma LoadedFromVectors(h: Hash, p: Pins, m: Manifest, files: Files, doc: seq<Entry>)
    requires IsDocument(doc) && m.top == Without(doc, "vectors") && m.keyOrder == Keys(doc) && m.count == |VectorsOf(doc)|
    requires Load(h, p, m, files).Some? && Yielded(h, m, files, 0, 0) <= VectorsOf(doc)
    ensures Load(h, p, m, files) == Some(doc)
  {
    hide Gather, Yielded, ManifestOk, Dump, Sha, Stable, ValueOf, Without, OrderText, Negatives, NegativeText, Pieces,
         IsDocument, TopContentKeys, VectorsOf;
    YieldedIsGathered(h, m, files, 0, 0);
    var vectors := ReadVectors(h, p, m, files).value;
    assert vectors == VectorsOf(doc);
    PiecesAreDocument(doc);
  }

  // ----- the text of the order pin

  /** Rows with a line feed between two. */
  function Lines(rows: seq<Octets>): Octets {
    if rows == [] then []
    else if |rows| == 1 then rows[0]
    else rows[0] + [0x0A] + Lines(rows[1..])
  }

  function OrderRows(p: Pins, vectors: seq<Value>): (r: seq<Octets>)
    ensures |r| == |vectors|
  {
    seq(|vectors|, i requires 0 <= i < |vectors| => p.row(i, vectors[i]))
  }

  lemma {:induction false} LinesSnoc(rows: seq<Octets>, row: Octets)
    ensures Lines(rows + [row]) == Lines(rows) + (if rows == [] then [] else [0x0A]) + row
  {
    if rows == [] {
      assert [] + [row] == [row];
    } else {
      assert (rows + [row])[1..] == rows[1..] + [row];
      LinesSnoc(rows[1..], row);
      if |rows| == 1 {
        assert rows[1..] == [];
      }
    }
  }

  /** The order digest is fed one line a vector, each with its own number. */
  lemma {:induction false} OrderIsLines(p: Pins, vectors: seq<Value>)
    ensures OrderText(p, vectors) == Lines(OrderRows(p, vectors))
  {
    hide Lines;
    if vectors == [] {
      NoLines();
    } else {
      var n := |vectors| - 1;
      OrderIsLines(p, vectors[..n]);
      assert OrderRows(p, vectors) == OrderRows(p, vectors[..n]) + [p.row(n, vectors[n])];
      LinesSnoc(OrderRows(p, vectors[..n]), p.row(n, vectors[n]));
    }
  }

  lemma NoLines()
    ensures Lines([]) == []
  {
  }

  // ----- the text of the negative list

  predicate IsAscii(b: Octets) {
    forall i :: 0 <= i < |b| ==> b[i] < 0x80
  }

  lemma AsciiJoined(a: Octets, b: Octets)
    requires IsAscii(a) && IsAscii(b)
    ensures IsAscii(a + b)
  {
  }

  lemma UnitIsAscii(v: nat)
    requires v < 0x1_0000
    ensures IsAscii(Unit(v))
  {
  }

  lemma CharIsAscii(c: char)
    ensures IsAscii(AsciiEscaped(c))
  {
    var v := c as int;
    if 0x7F <= v < 0x1_0000 {
      UnitIsAscii(v);
    } else if v >= 0x1_0000 {
      UnitIsAscii(0xD800 + (v - 0x1_0000) / 0x400 % 0x400);
      UnitIsAscii(0xDC00 + (v - 0x1_0000) % 0x400);
    }
    hide Unit;
  }

  lemma {:induction false} CharsAreAscii(s: string)
    ensures IsAscii(AsciiEscapedAll(s))
  {
    hide AsciiEscaped, IsAscii;
    if s == "" {
      NothingIsAscii();
    } else {
      CharIsAscii(s[0]);
      CharsAreAscii(s[1..]);
      AsciiJoined(AsciiEscaped(s[0]), AsciiEscapedAll(s[1..]));
    }
  }

  lemma NothingIsAscii()
    ensures IsAscii([]) && IsAscii([0x22]) && IsAscii([0x5B]) && IsAscii([0x5D]) && IsAscii([0x7B]) && IsAscii([0x7D])
    ensures IsAscii([COMMA]) && IsAscii([0x3A]) && IsAscii(NULL) && IsAscii(TRUE) && IsAscii(FALSE)
  {
  }

  lemma QuoteIsAscii(s: string)
    ensures IsAscii(AsciiQuote(s))
  {
    hide IsAscii, AsciiEscapedAll;
    NothingIsAscii();
    CharsAreAscii(s);
    AsciiJoined([0x22], AsciiEscapedAll(s));
    AsciiJoined([0x22] + AsciiEscapedAll(s), [0x22]);
  }

  lemma {:induction false} DigitsAreAscii(n: nat)
    ensures IsAscii(Digits(n))
  {
    if n >= 10 {
      DigitsAreAscii(n / 10);
      AsciiJoined(Digits(n / 10), [48 + n % 10]);
    }
  }

  lemma NumberIsAscii(n: int)
    ensures IsAscii(Decimal(n))
  {
    DigitsAreAscii(if n < 0 then -n else n);
    hide Digits;
  }

  /** Text written in ASCII is ASCII. */
  lemma {:induction false} DumpIsAscii(v: Value)
    ensures IsAscii(AsciiDump(v))
    decreases v, 1
  {
    hide IsAscii, AsciiItems, AsciiEntries, AsciiQuote, Decimal;
    NothingIsAscii();
    match v {
      case Text(s) => QuoteIsAscii(s);
      case List(items) =>
        ItemsAreAscii(items);
        AsciiJoined([0x5B], AsciiItems(items));
        AsciiJoined([0x5B] + AsciiItems(items), [0x5D]);
      case Object(entries) =>
        EntriesAreAscii(entries);
        AsciiJoined([0x7B], AsciiEntries(entries));
        AsciiJoined([0x7B] + AsciiEntries(entries), [0x7D]);
      case Number(n) => NumberIsAscii(n);
      case _ =>
    }
  }

  lemma {:induction false} ItemsAreAscii(items: seq<Value>)
    ensures IsAscii(AsciiItems(items))
    decreases items, 0
  {
    hide IsAscii, AsciiDump;
    NothingIsAscii();
    if items != [] {
      DumpIsAscii(items[0]);
      if |items| > 1 {
        ItemsAreAscii(items[1..]);
        AsciiJoined([COMMA], AsciiItems(items[1..]));
        AsciiJoined(AsciiDump(items[0]), [COMMA] + AsciiItems(items[1..]));
      } else {
        AsciiJoined(AsciiDump(items[0]), []);
      }
    }
  }

  lemma {:induction false} EntriesAreAscii(entries: seq<Entry>)
    ensures IsAscii(AsciiEntries(entries))
    decreases entries, 0
  {
    hide IsAscii, AsciiDump, AsciiQuote;
    NothingIsAscii();
    if entries != [] {
      var e := entries[0];
      QuoteIsAscii(e.key);
      DumpIsAscii(e.value);
      AsciiJoined(AsciiQuote(e.key), [0x3A]);
      AsciiJoined(AsciiQuote(e.key) + [0x3A], AsciiDump(e.value));
      if |entries| > 1 {
        EntriesAreAscii(entries[1..]);
        AsciiJoined([COMMA], AsciiEntries(entries[1..]));
        AsciiJoined(AsciiQuote(e.key) + [0x3A] + AsciiDump(e.value), [COMMA] + AsciiEntries(entries[1..]));
      } else {
        AsciiJoined(AsciiQuote(e.key) + [0x3A] + AsciiDump(e.value), []);
      }
    }
  }

  /** The negative digest is fed ASCII that reads back as the list of projections, keys sorted. */
  lemma NegativeTextReads(vectors: seq<Value>)
    ensures IsAscii(NegativeText(vectors))
    ensures ReadValue(NegativeText(vectors)) == Got(Sorted(List(Negatives(vectors))), [])
  {
    hide AsciiDump, ReadValue, Sorted, Negatives, IsAscii;
    var v := Sorted(List(Negatives(vectors)));
    DumpIsAscii(v);
    ValueReads(true, v, []);
    assert AsciiDump(v) + [] == AsciiDump(v);
  }

  /** The negatives are the vectors whose field says false, in their order. */
  lemma {:induction false} NegativesAreThose(vectors: seq<Value>, k: nat)
    requires k < |vectors|
    ensures Get(vectors[k], "positive") == Flag(false) ==>
      && |Negatives(vectors[..k])| < |Negatives(vectors)|
      && Negatives(vectors)[|Negatives(vectors[..k])|] == Projection(vectors[k])
    ensures |Negatives(vectors[..k + 1])| == |Negatives(vectors[..k])| + (if Get(vectors[k], "positive") == Flag(false) then 1 else 0)
    decreases |vectors|
  {
    hide Projection, Get;
    var n := |vectors| - 1;
    assert vectors[..k + 1][..k] == vectors[..k] && vectors[..k + 1][k] == vectors[k];
    if k < n {
      assert vectors[..n][..k] == vectors[..k] && vectors[..n][..k + 1] == vectors[..k + 1];
      NegativesAreThose(vectors[..n], k);
    } else {
      assert vectors[..k + 1] == vectors;
    }
  }

  // ----- what is pinned of a negative vector

  function Digit(d: nat): char
    requires d < 16
  {
    "0123456789abcdef"[d]
  }

  lemma HexDigitIs(d: nat)
    requires d < 16
    ensures HexDigit(d) as char == Digit(d)
  {
  }

  /** A digest is written as two lower-case digits a byte. */
  lemma {:induction false} HexSays(d: Octets, i: nat)
    requires i < |d|
    ensures |Hex(d)| == 2 * |d|
    ensures Hex(d)[2 * i] == Digit(d[i] / 16) && Hex(d)[2 * i + 1] == Digit(d[i] % 16)
  {
    HexDigitIs(d[0] / 16);
    HexDigitIs(d[0] % 16);
    hide HexDigit, Digit;
    if i > 0 {
      HexSays(d[1..], i - 1);
    } else if |d| > 1 {
      HexSays(d[1..], 0);
    } else {
      assert d[1..] == [];
    }
  }

  lemma FieldNamesDiffer()
    ensures Distinct(["id", "kind", "mode", "negative_base", "declared_mutation_fields", "first_reason", "faults"])
  {
    assert |"id"| == 2 && |"kind"| == |"mode"| == 4 && "kind"[0] != "mode"[0] && |"negative_base"| == 13;
    assert |"declared_mutation_fields"| == 24 && |"first_reason"| == 12 && |"faults"| == 6;
  }

  lemma KeysGivenUnique(e: seq<Entry>, names: seq<string>)
    requires |e| == |names| && Distinct(names) && forall i :: 0 <= i < |e| ==> e[i].key == names[i]
    ensures UniqueKeys(e)
    ensures forall i :: 0 <= i < |e| ==> ValueOf(e, names[i]) == e[i].value
  {
    hide ValueOf;
    assert UniqueKeys(e);
    forall i | 0 <= i < |e| ensures ValueOf(e, names[i]) == e[i].value {
      ValueAt(e, i);
    }
  }

  /** A negative vector is pinned by five fields of its own, its first expected reason and its faults. */
  lemma ProjectionSays(v: Value)
    ensures var e := Projection(v).entries;
      && |e| == 7
      && ValueOf(e, "id") == Get(v, "id") && ValueOf(e, "kind") == Get(v, "kind") && ValueOf(e, "mode") == Get(v, "mode")
      && ValueOf(e, "negative_base") == Get(v, "negative_base")
      && ValueOf(e, "declared_mutation_fields") == Get(v, "declared_mutation_fields")
      && ValueOf(e, "first_reason") == Get(Get(v, "expected"), "d3s4_first_reason")
      && ValueOf(e, "faults") == if Get(v, "faults").List? then Get(v, "faults") else List([])
  {
    hide Get, ValueOf, Distinct;
    var names := ["id", "kind", "mode", "negative_base", "declared_mutation_fields", "first_reason", "faults"];
    FieldNamesDiffer();
    KeysGivenUnique(Projection(v).entries, names);
    assert names[0] == "id" && names[1] == "kind" && names[2] == "mode" && names[3] == "negative_base"
        && names[4] == "declared_mutation_fields" && names[5] == "first_reason" && names[6] == "faults";
  }
}
