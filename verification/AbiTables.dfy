/** The catalogue tables: bounded arrays searched from the front, used as maps. */
module AbiTables {
  const SYMBOL_LEN := 96
  const MAX_MACROS := 450
  const MAX_TYPEDEFS := 96
  const MAX_STRUCTS := 80
  const MAX_CALLBACKS := 16
  const MAX_FUNCTIONS := 64
  const VALUE_LEN := 256
  const SIG_LEN := 1024

  datatype Row<T> = Row(name: string, item: T)

  datatype Answer = Added | Present | Conflict | Overflow

  /** A name as the fixed-size field holds it. */
  function Stored(name: string): string {
    if |name| >= SYMBOL_LEN then name[..SYMBOL_LEN - 1] else name
  }

  /** A name of up to 95 characters is held whole, of a longer one the first 95. */
  lemma StoredIs(name: string)
    ensures |name| <= 95 ==> Stored(name) == name
    ensures |name| >= 95 ==> Stored(name) == name[..95]
  {
  }

  /** The first row with the name, or -1. */
  function Index<T>(rows: seq<Row<T>>, name: string): (r: int)
    ensures -1 <= r < |rows|
    ensures r >= 0 ==> rows[r].name == name
    ensures forall j :: 0 <= j < (if r < 0 then |rows| else r) ==> rows[j].name != name
  {
    if rows == [] then -1
    else if rows[0].name == name then 0
    else
      var rest := Index(rows[1..], name);
      assert forall j :: 1 <= j < |rows| ==> rows[j] == rows[1..][j - 1];
      if rest < 0 then -1 else rest + 1
  }

  function Offer<T(==)>(rows: seq<Row<T>>, cap: nat, name: string, item: T): Answer {
    if Index(rows, name) >= 0 then
      if rows[Index(rows, name)].item == item then Present else Conflict
    else if |rows| >= cap then Overflow
    else Added
  }

  function After<T(==)>(rows: seq<Row<T>>, cap: nat, name: string, item: T): seq<Row<T>> {
    if Offer(rows, cap, name, item).Added? then rows + [Row(Stored(name), item)] else rows
  }

  /** Adding row after row, stopping at the first that is refused. */
  function Merged<T(==)>(rows: seq<Row<T>>, cap: nat, more: seq<Row<T>>, norm: T -> T): (seq<Row<T>>, bool) {
    if more == [] then (rows, true)
    else
      var last := more[|more| - 1];
      var (r, ok) := Merged(rows, cap, more[..|more| - 1], norm);
      var answer := Offer(r, cap, last.name, norm(last.item));
      if !ok then (r, false)
      else (After(r, cap, last.name, norm(last.item)), answer.Added? || answer.Present?)
  }

  // ----- tables as maps

  predicate Unique<T>(rows: seq<Row<T>>) {
    forall i, j :: 0 <= i < j < |rows| ==> rows[i].name != rows[j].name
  }

  function View<T>(rows: seq<Row<T>>): map<string, T> {
    if rows == [] then map[]
    else View(rows[..|rows| - 1])[rows[|rows| - 1].name := rows[|rows| - 1].item]
  }

  /** The maps give no name two meanings. */
  predicate Agree<T(==)>(a: map<string, T>, b: map<string, T>) {
    forall k :: k in a && k in b ==> a[k] == b[k]
  }

  /** Rows as a table holds them: names that fit their field, no name twice. */
  predicate Tidy<T>(rows: seq<Row<T>>) {
    Unique(rows) && forall i :: 0 <= i < |rows| ==> |rows[i].name| < SYMBOL_LEN
  }

  /** The rows as they are offered to another table, which normalises them again. */
  function Normed<T>(rows: seq<Row<T>>, norm: T -> T): (r: seq<Row<T>>)
    ensures |r| == |rows|
    ensures forall i :: 0 <= i < |rows| ==> r[i] == Row(rows[i].name, norm(rows[i].item))
  {
    if rows == [] then []
    else Normed(rows[..|rows| - 1], norm) + [Row(rows[|rows| - 1].name, norm(rows[|rows| - 1].item))]
  }

  /** Every item normalises to itself. */
  predicate Fixed<T(==)>(rows: seq<Row<T>>, norm: T -> T) {
    forall i :: 0 <= i < |rows| ==> norm(rows[i].item) == rows[i].item
  }

  lemma FixedIsNormed<T>(rows: seq<Row<T>>, norm: T -> T)
    ensures Normed(rows, norm) == rows <==> Fixed(rows, norm)
  {
    if Normed(rows, norm) == rows {
      forall i | 0 <= i < |rows| ensures norm(rows[i].item) == rows[i].item {
        assert Normed(rows, norm)[i] == rows[i];
      }
    }
  }

  lemma ViewGrows<T>(rows: seq<Row<T>>, row: Row<T>)
    ensures View(rows + [row]) == View(rows)[row.name := row.item]
  {
    assert (rows + [row])[..|rows|] == rows;
  }

  lemma {:induction false} ViewNames<T>(rows: seq<Row<T>>, name: string)
    ensures name in View(rows) <==> Index(rows, name) >= 0
  {
    if rows != [] {
      var n := |rows| - 1;
      ViewNames(rows[..n], name);
      var i, j := Index(rows, name), Index(rows[..n], name);
      if j >= 0 {
        assert rows[j].name == name;
      }
      if 0 <= i < n {
        assert rows[..n][i].name == name;
      }
      assert rows[n].name == name ==> i >= 0;
    }
  }

  /** The linear search finds what the map holds. */
  lemma {:induction false} ViewFinds<T>(rows: seq<Row<T>>, i: nat)
    requires Unique(rows) && i < |rows|
    ensures rows[i].name in View(rows) && View(rows)[rows[i].name] == rows[i].item
    ensures Index(rows, rows[i].name) == i
  {
    hide Index;
    var n := |rows| - 1;
    if i < n {
      ViewFinds(rows[..n], i);
      assert rows[i].name != rows[n].name;
    }
  }

  lemma LastIsNew<T>(rows: seq<Row<T>>)
    requires Unique(rows) && rows != []
    ensures Index(rows[..|rows| - 1], rows[|rows| - 1].name) < 0
  {
    hide Index;
    assert forall i :: 0 <= i < |rows| - 1 ==> rows[i].name != rows[|rows| - 1].name;
  }

  lemma {:induction false} ViewSize<T>(rows: seq<Row<T>>)
    requires Unique(rows)
    ensures |View(rows).Keys| == |rows|
  {
    if rows == [] {
    } else {
      var n := |rows| - 1;
      ViewSize(rows[..n]);
      ViewNames(rows[..n], rows[n].name);
      LastIsNew(rows);
      assert View(rows).Keys == View(rows[..n]).Keys + {rows[n].name};
    }
  }

  // ----- adding

  /** What the answer to an offer means for the map. */
  lemma OfferMeans<T>(rows: seq<Row<T>>, cap: nat, name: string, item: T)
    requires Unique(rows)
    ensures var v := View(rows);
      && (Offer(rows, cap, name, item).Present? <==> name in v && v[name] == item)
      && (Offer(rows, cap, name, item).Conflict? <==> name in v && v[name] != item)
      && (Offer(rows, cap, name, item).Overflow? <==> name !in v && |v.Keys| >= cap)
  {
    hide View, Index;
    ViewNames(rows, name);
    ViewSize(rows);
    if Index(rows, name) >= 0 {
      ViewFinds(rows, Index(rows, name));
    }
  }

  /** Adding keeps names unique exactly when the shortened name is not taken by another. */
  lemma AddKeepsUniqueIff<T>(rows: seq<Row<T>>, cap: nat, name: string, item: T)
    requires Unique(rows)
    ensures Unique(After(rows, cap, name, item)) <==>
      !Offer(rows, cap, name, item).Added? || Index(rows, Stored(name)) < 0
  {
    hide Stored;
    var next := After(rows, cap, name, item);
    if Offer(rows, cap, name, item).Added? {
      var j := Index(rows, Stored(name));
      if j >= 0 {
        assert next[j].name == next[|rows|].name;
      }
    }
  }

  /** A name too long for its field is not found again: adding it twice makes two rows of one name. */
  lemma LongNameIsAddedTwice<T>(cap: nat, name: string, item: T)
    requires |name| >= SYMBOL_LEN && cap >= 2
    ensures !Unique(After(After([], cap, name, item), cap, name, item))
  {
    var once := After([], cap, name, item);
    assert once == [Row(Stored(name), item)];
    assert |Stored(name)| < |name|;
    var twice := After(once, cap, name, item);
    assert twice == once + [Row(Stored(name), item)];
    assert twice[0].name == twice[1].name;
  }

  // ----- merging

  lemma TidyPart<T>(rows: seq<Row<T>>, norm: T -> T)
    requires Tidy(rows) && rows != []
    ensures Tidy(rows[..|rows| - 1])
    ensures rows[|rows| - 1].name !in View(Normed(rows[..|rows| - 1], norm))
  {
    hide View, Index;
    var n := |rows| - 1;
    var part := Normed(rows[..n], norm);
    ViewNames(part, rows[n].name);
    assert forall i :: 0 <= i < n ==> part[i].name == rows[i].name != rows[n].name;
  }

  /** Merging only appends, and keeps names unique, whether or not it succeeds. */
  lemma {:induction false} MergeAppends<T>(rows: seq<Row<T>>, cap: nat, more: seq<Row<T>>, norm: T -> T)
    requires Unique(rows) && |rows| <= cap
    requires forall i :: 0 <= i < |more| ==> |more[i].name| < SYMBOL_LEN
    ensures var r := Merged(rows, cap, more, norm).0;
      rows <= r && Unique(r) && |r| <= cap
  {
    hide Index;
    if more != [] {
      var n := |more| - 1;
      MergeAppends(rows, cap, more[..n], norm);
      var (r, ok) := Merged(rows, cap, more[..n], norm);
      AddKeepsUniqueIff(r, cap, more[n].name, norm(more[n].item));
    }
  }

  ghost predicate Fits<T>(a: map<string, T>, b: map<string, T>, cap: nat) {
    Agree(a, b) && |a.Keys + b.Keys| <= cap
  }

  lemma AgreeGrows<T>(a: map<string, T>, b: map<string, T>, name: string, item: T)
    requires name !in b
    ensures Agree(a, b[name := item]) <==> Agree(a, b) && (name in a ==> a[name] == item)
  {
    var c := b[name := item];
    assert c[name] == item;
    assert forall k :: k in b ==> k in c && c[k] == b[k];
  }

  lemma KeysGrow<T>(a: map<string, T>, b: map<string, T>, name: string, item: T)
    requires name !in b
    ensures |a.Keys + b[name := item].Keys| == |a.Keys + b.Keys| + (if name in a then 0 else 1)
  {
    assert a.Keys + b[name := item].Keys == (a.Keys + b.Keys) + {name};
    if name in a {
      assert a.Keys + b[name := item].Keys == a.Keys + b.Keys;
    }
  }

  lemma UnionGrows<T>(a: map<string, T>, b: map<string, T>, name: string, item: T)
    ensures name in a && a[name] == item && name !in b ==> a + b[name := item] == a + b
    ensures name !in a ==> a + b[name := item] == (a + b)[name := item]
  {
  }

  lemma FitsGrows<T>(a: map<string, T>, b: map<string, T>, cap: nat, name: string, item: T)
    requires name !in b
    ensures Fits(a, b[name := item], cap) <==>
      && Fits(a, b, cap) && (name in a ==> a[name] == item) && (name !in a ==> |a.Keys + b.Keys| < cap)
    ensures name in a && a[name] == item ==> a + b[name := item] == (a + b)
    ensures name !in a ==> a + b[name := item] == (a + b)[name := item]
  {
    hide Agree;
    AgreeGrows(a, b, name, item);
    KeysGrow(a, b, name, item);
    UnionGrows(a, b, name, item);
  }

  /**
   A merge succeeds exactly when no name has two meanings and the names together fit the
   table; the table is then the union of its map and the map that was offered.
   */
  lemma {:induction false} MergeIsUnion<T>(rows: seq<Row<T>>, cap: nat, more: seq<Row<T>>, norm: T -> T)
    requires Unique(rows) && |rows| <= cap && Tidy(more)
    ensures Merged(rows, cap, more, norm).1 <==> Fits(View(rows), View(Normed(more, norm)), cap)
    ensures Merged(rows, cap, more, norm).1 ==>
      View(Merged(rows, cap, more, norm).0) == View(rows) + View(Normed(more, norm))
  {
    hide Fits, Unique, Offer, View;
    if more == [] {
      NothingFits(rows, cap);
      NothingViewed<T>();
    } else {
      var n := |more| - 1;
      var name, item := more[n].name, norm(more[n].item);
      TidyPart(more, norm);
      MergeIsUnion(rows, cap, more[..n], norm);
      MergeAppends(rows, cap, more[..n], norm);
      var part := View(Normed(more[..n], norm));
      ViewGrows(Normed(more[..n], norm), Row(name, item));
      FitsGrows(View(rows), part, cap, name, item);
      var r := Merged(rows, cap, more[..n], norm).0;
      OfferMeans(r, cap, name, item);
      if Offer(r, cap, name, item).Added? {
        ViewGrows(r, Row(name, item));
      }
      UnionKeys(View(rows), part);
      assert Stored(name) == name;
    }
  }

  lemma NothingViewed<T>()
    ensures View<T>([]) == map[]
  {
  }

  lemma UnionKeys<T>(a: map<string, T>, b: map<string, T>)
    ensures (a + b).Keys == a.Keys + b.Keys
  {
  }

  lemma NothingFits<T>(rows: seq<Row<T>>, cap: nat)
    requires Unique(rows) && |rows| <= cap
    ensures Fits(View(rows), map[], cap) && View(rows) + map[] == View(rows)
  {
    ViewSize(rows);
    assert View(rows).Keys + {} == View(rows).Keys;
  }

  /** Merging the same two tables in either order succeeds together and gives the same map. */
  lemma MergeOrderIrrelevant<T>(rows: seq<Row<T>>, cap: nat, a: seq<Row<T>>, b: seq<Row<T>>, norm: T -> T)
    requires Unique(rows) && |rows| <= cap && Tidy(a) && Tidy(b)
    ensures var (ra, oka) := Merged(rows, cap, a, norm); var (rab, okab) := Merged(ra, cap, b, norm);
      var (rb, okb) := Merged(rows, cap, b, norm); var (rba, okba) := Merged(rb, cap, a, norm);
      && (oka && okab <==> okb && okba)
      && (oka && okab ==> View(rab) == View(rba))
  {
    hide View, Merged, Unique, Agree, Tidy;
    BothWays(rows, cap, a, b, norm);
    BothWays(rows, cap, b, a, norm);
    ThreeWays(View(rows), View(Normed(a, norm)), View(Normed(b, norm)));
  }

  lemma ThreeWays<T>(v: map<string, T>, x: map<string, T>, y: map<string, T>)
    ensures v.Keys + x.Keys + y.Keys == v.Keys + y.Keys + x.Keys
    ensures Agree(x, y) <==> Agree(y, x)
    ensures Agree(x, y) ==> v + x + y == v + y + x
  {
  }

  /** Two merges in a row succeed exactly when all three agree and their names fit together. */
  lemma BothWays<T>(rows: seq<Row<T>>, cap: nat, a: seq<Row<T>>, b: seq<Row<T>>, norm: T -> T)
    requires Unique(rows) && |rows| <= cap && Tidy(a) && Tidy(b)
    ensures var (ra, oka) := Merged(rows, cap, a, norm); var (rab, okab) := Merged(ra, cap, b, norm);
      var v, x, y := View(rows), View(Normed(a, norm)), View(Normed(b, norm));
      && (oka && okab <==> Agree(v, x) && Agree(v, y) && Agree(x, y) && |v.Keys + x.Keys + y.Keys| <= cap)
      && (oka && okab ==> View(rab) == v + x + y)
  {
    hide View, Merged, Unique, Tidy;
    TidyNames(a);
    MergeIsUnion(rows, cap, a, norm);
    MergeAppends(rows, cap, a, norm);
    var ra := Merged(rows, cap, a, norm).0;
    MergeIsUnion(ra, cap, b, norm);
    var v, x, y := View(rows), View(Normed(a, norm)), View(Normed(b, norm));
    UnionKeys(v, x);
    SubsetSize(v.Keys + x.Keys, v.Keys + x.Keys + y.Keys);
    if Agree(v, x) {
      AgreeUnion(v, x, y);
    }
  }

  lemma AgreeUnion<T>(v: map<string, T>, x: map<string, T>, y: map<string, T>)
    requires Agree(v, x)
    ensures Agree(v + x, y) <==> Agree(v, y) && Agree(x, y)
  {
    forall k | k in v && k in y && Agree(v + x, y) ensures v[k] == y[k] {
      assert k in v + x;
    }
    forall k | k in x && k in y && Agree(v + x, y) ensures x[k] == y[k] {
      assert k in v + x;
    }
  }

  lemma TidyNames<T>(rows: seq<Row<T>>)
    requires Tidy(rows)
    ensures Unique(rows) && forall i :: 0 <= i < |rows| ==> |rows[i].name| < SYMBOL_LEN
  {
  }

  /**
   A table can be merged into a copy of itself exactly when all its items normalise to
   themselves; then nothing changes.
   */
  lemma SelfMergeIff<T>(rows: seq<Row<T>>, cap: nat, norm: T -> T)
    requires Tidy(rows) && |rows| <= cap
    ensures Merged(rows, cap, rows, norm).1 <==> Fixed(rows, norm)
    ensures Fixed(rows, norm) ==> Merged(rows, cap, rows, norm) == (rows, true)
  {
    hide View, Merged, Tidy, Fixed;
    TidyNames(rows);
    hide Unique;
    MergeIsUnion(rows, cap, rows, norm);
    FixedIsNormed(rows, norm);
    SameNames(rows, Normed(rows, norm));
    ViewSize(rows);
    SelfAgrees(rows, norm);
    SelfFits(View(rows), View(Normed(rows, norm)), cap);
    if Fixed(rows, norm) {
      MergeAppends(rows, cap, rows, norm);
      ViewSize(Merged(rows, cap, rows, norm).0);
      SamePrefix(rows, Merged(rows, cap, rows, norm).0);
    }
  }

  lemma SelfFits<T>(v: map<string, T>, x: map<string, T>, cap: nat)
    requires v.Keys == x.Keys && |v.Keys| <= cap
    ensures Fits(v, x, cap) <==> Agree(v, x)
    ensures v == x ==> v + x == v
  {
    assert v.Keys + x.Keys == v.Keys;
  }

  lemma {:induction false} SameNames<T>(a: seq<Row<T>>, b: seq<Row<T>>)
    requires |a| == |b| && forall i :: 0 <= i < |a| ==> a[i].name == b[i].name
    ensures View(a).Keys == View(b).Keys
    decreases |a|
  {
    if a != [] {
      SameNames(a[..|a| - 1], b[..|b| - 1]);
      assert View(a).Keys == View(a[..|a| - 1]).Keys + {a[|a| - 1].name};
      assert View(b).Keys == View(b[..|b| - 1]).Keys + {b[|b| - 1].name};
    }
  }

  lemma SelfAgrees<T>(rows: seq<Row<T>>, norm: T -> T)
    requires Unique(rows)
    ensures Agree(View(rows), View(Normed(rows, norm))) <==> Fixed(rows, norm)
  {
    hide View, Index;
    var other := Normed(rows, norm);
    forall i | 0 <= i < |rows| && Agree(View(rows), View(other)) ensures norm(rows[i].item) == rows[i].item {
      ViewFinds(rows, i);
      ViewFinds(other, i);
    }
    if Fixed(rows, norm) {
      FixedIsNormed(rows, norm);
    }
  }

  lemma SamePrefix<T>(a: seq<T>, b: seq<T>)
    requires a <= b && |a| == |b|
    ensures a == b
  {
    assert b[..|a|] == b;
  }

  lemma {:induction false} SubsetSize<T>(a: set<T>, b: set<T>)
    requires a <= b
    ensures |a| <= |b|
    decreases |a|
  {
    if a != {} {
      var x :| x in a;
      SubsetSize(a - {x}, b - {x});
    }
  }

  // ----- comparing

  predicate RowKept<T(==)>(doc: seq<Row<T>>, header: seq<Row<T>>, i: nat)
    requires i < |doc|
  {
    Index(header, doc[i].name) >= 0 && header[Index(header, doc[i].name)].item == doc[i].item
  }

  predicate RowKnown<T>(doc: seq<Row<T>>, header: seq<Row<T>>, i: nat)
    requires i < |header|
  {
    Index(doc, header[i].name) >= 0
  }

  /** Every documented row is in the header with the same item, and the header has no other names. */
  predicate Matches<T(==)>(doc: seq<Row<T>>, header: seq<Row<T>>) {
    && (forall i :: 0 <= i < |doc| ==> RowKept(doc, header, i))
    && (forall i :: 0 <= i < |header| ==> RowKnown(doc, header, i))
  }

  /** The comparison passes exactly when the two tables are the same map. */
  lemma MatchesIff<T>(doc: seq<Row<T>>, header: seq<Row<T>>)
    requires Unique(doc) && Unique(header)
    ensures Matches(doc, header) <==> View(doc) == View(header)
  {
    hide View, Index;
    if View(doc) == View(header) {
      SameMapMatches(doc, header);
    }
    if Matches(doc, header) {
      MatchingMaps(doc, header);
    }
  }

  lemma SameMapMatches<T>(doc: seq<Row<T>>, header: seq<Row<T>>)
    requires Unique(doc) && Unique(header) && View(doc) == View(header)
    ensures Matches(doc, header)
  {
    hide View, Index;
    forall i | 0 <= i < |doc| ensures RowKept(doc, header, i) {
      ViewFinds(doc, i);
      ViewNames(header, doc[i].name);
      ViewFinds(header, Index(header, doc[i].name));
    }
    forall i | 0 <= i < |header| ensures RowKnown(doc, header, i) {
      ViewFinds(header, i);
      ViewNames(doc, header[i].name);
    }
  }

  lemma MatchingMaps<T>(doc: seq<Row<T>>, header: seq<Row<T>>)
    requires Unique(doc) && Unique(header) && Matches(doc, header)
    ensures View(doc) == View(header)
  {
    hide View, Index;
    forall k ensures k in View(doc) <==> k in View(header) {
      ViewNames(doc, k);
      ViewNames(header, k);
      if Index(doc, k) >= 0 {
        assert RowKept(doc, header, Index(doc, k));
      }
      if Index(header, k) >= 0 {
        assert RowKnown(doc, header, Index(header, k));
      }
    }
    forall k | k in View(doc) ensures View(doc)[k] == View(header)[k] {
      ViewNames(doc, k);
      var i := Index(doc, k);
      assert RowKept(doc, header, i);
      ViewFinds(doc, i);
      ViewFinds(header, Index(header, k));
    }
  }
}
