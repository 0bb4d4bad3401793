/**
 The sharded authority: a manifest and content-addressed shards that stand for one JSON
 document. Digests are fed piece by piece; what they are fed is the whole document's text.
 */
module Authority {
  import opened Octets
  import opened Json

  const LF: Byte := 0x0A

  // ----- text grows at its end

  lemma {:induction false} ItemsSnoc(items: seq<Value>, v: Value)
    ensures DumpItems(items + [v]) == DumpItems(items) + (if items == [] then [] else [COMMA]) + Dump(v)
  {
    hide Dump;
    if items == [] {
      assert [] + [v] == [v];
      OneItem(v);
    } else {
      assert (items + [v])[1..] == items[1..] + [v];
      ItemsSnoc(items[1..], v);
    }
  }

  lemma OneItem(v: Value)
    ensures DumpItems([v]) == Dump(v)
  {
    assert [v][1..] == [];
    hide Dump;
  }

  function EntryText(e: Entry): Octets {
    Quote(e.key) + [0x3A] + Dump(e.value)
  }

  lemma {:induction false} EntriesSnoc(entries: seq<Entry>, e: Entry)
    ensures DumpEntries(entries + [e]) == DumpEntries(entries) + (if entries == [] then [] else [COMMA]) + EntryText(e)
  {
    hide Dump, Quote;
    if entries == [] {
      assert [] + [e] == [e] && [e][1..] == [];
    } else {
      assert (entries + [e])[1..] == entries[1..] + [e];
      EntriesSnoc(entries[1..], e);
    }
  }

  lemma {:induction false} SortedItemsSnoc(items: seq<Value>, v: Value)
    ensures SortedItems(items + [v]) == SortedItems(items) + [Sorted(v)]
  {
    hide Sorted;
    if items == [] {
      assert [] + [v] == [v] && [v][1..] == [];
    } else {
      assert (items + [v])[1..] == items[1..] + [v];
      SortedItemsSnoc(items[1..], v);
    }
  }

  // ----- feeding a digest with a document

  function Shown(sorted: bool, v: Value): Value {
    if sorted then Sorted(v) else v
  }

  function ShownItems(sorted: bool, items: seq<Value>): seq<Value> {
    if sorted then SortedItems(items) else items
  }

  /** The document's value under a key; the vectors come from elsewhere. */
  function Piece(top: seq<Entry>, vectors: seq<Value>, key: string): Value {
    if key == "vectors" then List(vectors) else ValueOf(top, key)
  }

  function Pieces(keys: seq<string>, top: seq<Entry>, vectors: seq<Value>, sorted: bool): (p: seq<Entry>)
    ensures |p| == |keys|
    ensures forall i :: 0 <= i < |keys| ==> p[i] == Entry(keys[i], Shown(sorted, Piece(top, vectors, keys[i])))
  {
    if keys == [] then []
    else [Entry(keys[0], Shown(sorted, Piece(top, vectors, keys[0])))] + Pieces(keys[1..], top, vectors, sorted)
  }

  /** The text a digest is fed for a document. */
  function ObjectText(entries: seq<Entry>, lf: bool): Octets {
    Dump(Object(entries)) + (if lf then [LF] else [])
  }

  lemma ShownSnoc(sorted: bool, items: seq<Value>, v: Value)
    ensures DumpItems(ShownItems(sorted, items + [v])) ==
      DumpItems(ShownItems(sorted, items)) + (if items == [] then [] else [COMMA]) + Dump(Shown(sorted, v))
  {
    hide Dump, DumpItems, Sorted;
    ItemsSnoc(ShownItems(sorted, items), Shown(sorted, v));
    SortedItemsSnoc(items, v);
  }

  lemma NoItems(sorted: bool)
    ensures DumpItems(ShownItems(sorted, [])) == []
  {
  }

  method FeedItems(fed: Octets, items: seq<Value>, sorted: bool) returns (r: Octets)
    ensures r == fed + Dump(Shown(sorted, List(items)))
  {
    hide Dump, DumpItems, Shown, ShownItems;
    r := fed + [0x5B];
    NoItems(sorted);
    for i := 0 to |items|
      invariant r == fed + [0x5B] + DumpItems(ShownItems(sorted, items[..i]))
    {
      assert items[..i + 1] == items[..i] + [items[i]];
      ShownSnoc(sorted, items[..i], items[i]);
      if i > 0 {
        r := r + [COMMA];
      }
      r := r + Dump(Shown(sorted, items[i]));
    }
    assert items[..|items|] == items;
    ListText(sorted, items);
    r := r + [0x5D];
  }

  lemma ListText(sorted: bool, items: seq<Value>)
    ensures Dump(Shown(sorted, List(items))) == [0x5B] + DumpItems(ShownItems(sorted, items)) + [0x5D]
  {
  }

  /** Feeds key by key, and the vectors one by one. */
  method StreamObject(keys: seq<string>, top: seq<Entry>, vectors: seq<Value>, sorted: bool, lf: bool)
    returns (fed: Octets)
    ensures fed == ObjectText(Pieces(keys, top, vectors, sorted), lf)
  {
    hide Dump, Sorted, Quote, ValueOf, DumpEntries, Shown;
    fed := [0x7B];
    NoEntries();
    ghost var all := Pieces(keys, top, vectors, sorted);
    for i := 0 to |keys|
      invariant fed == [0x7B] + DumpEntries(all[..i])
    {
      assert all[..i + 1] == all[..i] + [all[i]];
      EntriesSnoc(all[..i], all[i]);
      ghost var start := fed + (if i > 0 then [COMMA] else []) + Quote(keys[i]) + [0x3A];
      if i > 0 {
        fed := fed + [COMMA];
      }
      fed := fed + Quote(keys[i]);
      fed := fed + [0x3A];
      if keys[i] == "vectors" {
        fed := FeedItems(fed, vectors, sorted);
      } else {
        fed := fed + Dump(Shown(sorted, ValueOf(top, keys[i])));
      }
      assert fed == start + Dump(all[i].value);
    }
    assert all[..|keys|] == all;
    ObjectIs(all);
    fed := fed + [0x7D];
    if lf {
      fed := fed + [LF];
    }
  }

  lemma NoEntries()
    ensures DumpEntries([]) == []
  {
  }

  lemma ObjectIs(entries: seq<Entry>)
    ensures Dump(Object(entries)) == [0x7B] + DumpEntries(entries) + [0x7D]
  {
  }

  // ----- the document and its parts

  function Without(doc: seq<Entry>, key: string): (r: seq<Entry>)
    ensures forall e :: e in r <==> e in doc && e.key != key
  {
    if doc == [] then []
    else if doc[0].key == key then Without(doc[1..], key)
    else [doc[0]] + Without(doc[1..], key)
  }

  lemma {:induction false} WithoutUnique(doc: seq<Entry>, key: string)
    requires UniqueKeys(doc)
    ensures UniqueKeys(Without(doc, key))
  {
    if doc != [] {
      assert UniqueKeys(doc[1..]);
      WithoutUnique(doc[1..], key);
      var rest := Without(doc[1..], key);
      forall j | 0 <= j < |rest| ensures rest[j].key != doc[0].key {
        assert rest[j] in doc[1..];
      }
    }
  }

  lemma {:induction false} ValueWithout(doc: seq<Entry>, key: string, k: string)
    requires k != key
    ensures ValueOf(Without(doc, key), k) == ValueOf(doc, k)
  {
    if doc != [] {
      ValueWithout(doc[1..], key, k);
    }
  }

  /** A document with a list of vectors. */
  predicate IsDocument(doc: seq<Entry>) {
    UniqueKeys(doc) && "vectors" in Keys(doc) && ValueOf(doc, "vectors").List?
  }

  function VectorsOf(doc: seq<Entry>): seq<Value>
    requires IsDocument(doc)
  {
    ValueOf(doc, "vectors").items
  }

  /** In the document's own key order the pieces are the document. */
  lemma PiecesAreDocument(doc: seq<Entry>)
    requires IsDocument(doc)
    ensures Pieces(Keys(doc), Without(doc, "vectors"), VectorsOf(doc), false) == doc
  {
    hide ValueOf;
    var p := Pieces(Keys(doc), Without(doc, "vectors"), VectorsOf(doc), false);
    forall i | 0 <= i < |doc| ensures p[i] == doc[i] {
      ValueAt(doc, i);
      if doc[i].key != "vectors" {
        ValueWithout(doc, "vectors", doc[i].key);
      }
    }
  }

  function ContentKeys(doc: seq<Entry>): seq<string> {
    SortKeys(Keys(Without(doc, "content_sha256")))
  }

  /** What the sorted document holds at a place is the piece streamed for the key there. */
  lemma SortedPiece(doc: seq<Entry>, top: seq<Entry>, e: Entry)
    requires IsDocument(doc)
    requires forall k :: k != "vectors" ==> ValueOf(top, k) == ValueOf(doc, k)
    requires e in SortEntries(SortedValues(Without(doc, "content_sha256")))
    ensures e.value == Sorted(Piece(top, VectorsOf(doc), e.key))
  {
    hide ValueOf, Before, Sorted, SortEntries, UniqueKeys;
    var part := Without(doc, "content_sha256");
    WithoutUnique(doc, "content_sha256");
    SortedHolds(part, e);
    SortedMembers(SortedValues(part), e);
    var j :| 0 <= j < |part| && SortedValues(part)[j] == e;
    assert part[j] in part;
    ValueWithout(doc, "content_sha256", e.key);
  }

  /** Over its sorted keys the pieces are the sorted document. */
  lemma PiecesAreSorted(doc: seq<Entry>, top: seq<Entry>)
    requires IsDocument(doc)
    requires forall k :: k != "vectors" ==> ValueOf(top, k) == ValueOf(doc, k)
    ensures Pieces(ContentKeys(doc), top, VectorsOf(doc), true)
         == SortEntries(SortedValues(Without(doc, "content_sha256")))
  {
    hide ValueOf, Before, Sorted, SortEntries, SortKeys, Without, Piece, IsDocument;
    var part := Without(doc, "content_sha256");
    var s := SortEntries(SortedValues(part));
    KeysOfSorted(SortedValues(part));
    assert Keys(SortedValues(part)) == Keys(part);
    var p := Pieces(ContentKeys(doc), top, VectorsOf(doc), true);
    forall i | 0 <= i < |s| ensures p[i] == s[i] {
      assert s[i].key == ContentKeys(doc)[i];
      SortedPiece(doc, top, s[i]);
    }
  }

  /** The content digest: every key but its own, sorted. */
  method FeedContent(doc: seq<Entry>) returns (fed: Octets)
    requires IsDocument(doc)
    ensures fed == Stable(Object(Without(doc, "content_sha256")))
  {
    PiecesAreSorted(doc, doc);
    StableObject(Without(doc, "content_sha256"));
    fed := StreamObject(ContentKeys(doc), doc, VectorsOf(doc), true, false);
  }

  lemma StableObject(entries: seq<Entry>)
    ensures Stable(Object(entries)) == ObjectText(SortEntries(SortedValues(entries)), false)
  {
    assert Sorted(Object(entries)) == Object(SortEntries(SortedValues(entries)));
    hide Dump;
  }

  /** The canonical digest: the document as it is, and a line feed. */
  method FeedCanonical(doc: seq<Entry>) returns (fed: Octets)
    requires IsDocument(doc)
    ensures fed == Dump(Object(doc)) + [LF]
  {
    PiecesAreDocument(doc);
    fed := StreamObject(Keys(doc), Without(doc, "vectors"), VectorsOf(doc), false, true);
  }
}
