/** The catalogue as the tool keeps it: tables in fixed arrays, filled, merged and compared in place. */
module AbiCatalog {
  import opened AbiText
  import opened AbiTables
  import AbiTypes
  import AbiTypeLaws
  import AbiTypeRuns

  datatype MacroKind = OBJECT | FUNCTION

  datatype Macro = Macro(kind: MacroKind, value: string)

  datatype Typedef = Typedef(text: string, opaqueStruct: bool)

  datatype Field = Field(name: string, kind: string)

  function NormalMacro(m: Macro): Macro {
    Macro(m.kind, Normalized(m.value, VALUE_LEN))
  }

  function NormalSignature(s: string): string {
    Normalized(s, SIG_LEN)
  }

  function NormalTypedef(t: Typedef): Typedef {
    Typedef(AbiTypes.NormalType(t.text), t.opaqueStruct)
  }

  /** Struct entries are stored as they come. */
  function AsIs(fields: seq<Field>): seq<Field> {
    fields
  }

  class Table<T(==)> {
    const cap: nat
    const rows: array<Row<T>>
    var count: nat

    ghost predicate Valid()
      reads this
    {
      rows.Length == cap && count <= cap
    }

    ghost function Rows(): seq<Row<T>>
      reads this, rows
      requires Valid()
    {
      rows[..count]
    }

    constructor (cap: nat, blank: Row<T>)
      ensures Valid() && fresh(rows) && this.cap == cap && Rows() == []
    {
      this.cap := cap;
      rows := new Row<T>[cap](_ => blank);
      count := 0;
    }

    /** The linear search every operation starts with. */
    method Find(name: string) returns (r: int)
      requires Valid()
      ensures r == Index(Rows(), name)
    {
      for i := 0 to count
        invariant forall j :: 0 <= j < i ==> rows[j].name != name
      {
        if rows[i].name == name {
          assert Rows()[i].name == name;
          return i;
        }
      }
      return -1;
    }

    method Add(name: string, item: T) returns (answer: Answer)
      requires Valid()
      modifies this`count, rows
      ensures Valid()
      ensures answer == Offer(old(Rows()), cap, name, item)
      ensures Rows() == After(old(Rows()), cap, name, item)
    {
      hide Index;
      var existing := Find(name);
      if existing >= 0 {
        return if rows[existing].item == item then Present else Conflict;
      }
      if count >= cap {
        return Overflow;
      }
      rows[count] := Row(Stored(name), item);
      count := count + 1;
      assert Rows() == old(Rows()) + [Row(Stored(name), item)];
      return Added;
    }

    /** Reports every difference and answers whether there was none. */
    method Compare(header: Table<T>) returns (same: bool)
      requires Valid() && header.Valid()
      ensures same == Matches(Rows(), header.Rows())
    {
      hide Index;
      same := true;
      ghost var d, h := Rows(), header.Rows();
      for i := 0 to count
        invariant same <==> forall j :: 0 <= j < i ==> RowKept(d, h, j)
      {
        assert rows[i] == d[i];
        var k := header.Find(rows[i].name);
        assert k >= 0 ==> header.rows[k] == h[k];
        assert RowKept(d, h, i) <==> k >= 0 && header.rows[k].item == rows[i].item;
        if k < 0 || header.rows[k].item != rows[i].item {
          same := false;
        }
      }
      ghost var first := same;
      for i := 0 to header.count
        invariant same <==> first && forall j :: 0 <= j < i ==> RowKnown(d, h, j)
      {
        assert header.rows[i] == h[i];
        var k := Find(header.rows[i].name);
        assert RowKnown(d, h, i) <==> k >= 0;
        if k < 0 {
          same := false;
        }
      }
    }
  }

  lemma MergedOne<T>(rows: seq<Row<T>>, cap: nat, more: seq<Row<T>>, i: nat, norm: T -> T)
    requires i < |more|
    ensures var (r, ok) := Merged(rows, cap, more[..i], norm);
      var answer := Offer(r, cap, more[i].name, norm(more[i].item));
      Merged(rows, cap, more[..i + 1], norm) ==
        if ok then (After(r, cap, more[i].name, norm(more[i].item)), answer.Added? || answer.Present?) else (r, false)
  {
    hide Offer, After;
    assert more[..i + 1][..i] == more[..i];
  }

  lemma {:induction false} MergedStops<T>(rows: seq<Row<T>>, cap: nat, more: seq<Row<T>>, i: nat, norm: T -> T)
    requires i <= |more| && !Merged(rows, cap, more[..i], norm).1
    ensures Merged(rows, cap, more, norm) == Merged(rows, cap, more[..i], norm)
    decreases |more| - i
  {
    hide Offer, After, Merged;
    if i < |more| {
      MergedOne(rows, cap, more, i, norm);
      MergedStops(rows, cap, more, i + 1, norm);
    } else {
      assert more[..i] == more;
    }
  }

  method AddMacro(t: Table<Macro>, name: string, kind: MacroKind, value: string) returns (answer: Answer)
    requires t.Valid()
    modifies t`count, t.rows
    ensures t.Valid()
    ensures answer == Offer(old(t.Rows()), t.cap, name, NormalMacro(Macro(kind, value)))
    ensures t.Rows() == After(old(t.Rows()), t.cap, name, NormalMacro(Macro(kind, value)))
  {
    var text := NormalizeValue(value, VALUE_LEN);
    answer := t.Add(name, Macro(kind, text));
  }

  method AddSignature(t: Table<string>, name: string, signature: string) returns (answer: Answer)
    requires t.Valid()
    modifies t`count, t.rows
    ensures t.Valid()
    ensures answer == Offer(old(t.Rows()), t.cap, name, NormalSignature(signature))
    ensures t.Rows() == After(old(t.Rows()), t.cap, name, NormalSignature(signature))
  {
    var text := NormalizeValue(signature, SIG_LEN);
    answer := t.Add(name, text);
  }

  method AddTypedef(t: Table<Typedef>, name: string, text: string, opaqueStruct: bool) returns (answer: Answer)
    requires t.Valid()
    modifies t`count, t.rows
    ensures t.Valid()
    ensures answer == Offer(old(t.Rows()), t.cap, name, NormalTypedef(Typedef(text, opaqueStruct)))
    ensures t.Rows() == After(old(t.Rows()), t.cap, name, NormalTypedef(Typedef(text, opaqueStruct)))
  {
    answer := t.Add(name, Typedef(AbiTypes.NormalType(text), opaqueStruct));
  }

  method MergeTypedefs(dest: Table<Typedef>, src: Table<Typedef>) returns (ok: bool)
    requires dest.Valid() && src.Valid() && dest != src && dest.rows != src.rows
    modifies dest`count, dest.rows
    ensures dest.Valid()
    ensures (dest.Rows(), ok) == Merged(old(dest.Rows()), dest.cap, src.Rows(), NormalTypedef)
  {
    hide NormalTypedef, Offer, After, Merged;
    ghost var was, more := dest.Rows(), src.Rows();
    NothingMerged(was, dest.cap, more, NormalTypedef);
    for i := 0 to src.count
      invariant dest.Valid() && src.Rows() == more
      invariant (dest.Rows(), true) == Merged(was, dest.cap, more[..i], NormalTypedef)
    {
      MergedOne(was, dest.cap, more, i, NormalTypedef);
      var row := src.rows[i];
      assert row == more[i];
      var answer := AddTypedef(dest, row.name, row.item.text, row.item.opaqueStruct);
      if !answer.Added? && !answer.Present? {
        MergedStops(was, dest.cap, more, i + 1, NormalTypedef);
        return false;
      }
    }
    assert more[..src.count] == more;
    return true;
  }

  method MergeMacros(dest: Table<Macro>, src: Table<Macro>) returns (ok: bool)
    requires dest.Valid() && src.Valid() && dest != src && dest.rows != src.rows
    modifies dest`count, dest.rows
    ensures dest.Valid()
    ensures (dest.Rows(), ok) == Merged(old(dest.Rows()), dest.cap, src.Rows(), NormalMacro)
  {
    hide NormalMacro, Offer, After, Merged;
    ghost var was, more := dest.Rows(), src.Rows();
    NothingMerged(was, dest.cap, more, NormalMacro);
    for i := 0 to src.count
      invariant dest.Valid() && src.Rows() == more
      invariant (dest.Rows(), true) == Merged(was, dest.cap, more[..i], NormalMacro)
    {
      MergedOne(was, dest.cap, more, i, NormalMacro);
      var row := src.rows[i];
      assert row == more[i];
      var answer := AddMacro(dest, row.name, row.item.kind, row.item.value);
      if !answer.Added? && !answer.Present? {
        MergedStops(was, dest.cap, more, i + 1, NormalMacro);
        return false;
      }
    }
    assert more[..src.count] == more;
    return true;
  }

  method MergeStructs(dest: Table<seq<Field>>, src: Table<seq<Field>>) returns (ok: bool)
    requires dest.Valid() && src.Valid() && dest != src && dest.rows != src.rows
    modifies dest`count, dest.rows
    ensures dest.Valid()
    ensures (dest.Rows(), ok) == Merged(old(dest.Rows()), dest.cap, src.Rows(), AsIs)
  {
    hide Offer, After, Merged;
    ghost var was, more := dest.Rows(), src.Rows();
    NothingMerged(was, dest.cap, more, AsIs);
    for i := 0 to src.count
      invariant dest.Valid() && src.Rows() == more
      invariant (dest.Rows(), true) == Merged(was, dest.cap, more[..i], AsIs)
    {
      MergedOne(was, dest.cap, more, i, AsIs);
      assert src.rows[i] == more[i];
      var answer := dest.Add(src.rows[i].name, src.rows[i].item);
      if !answer.Added? && !answer.Present? {
        MergedStops(was, dest.cap, more, i + 1, AsIs);
        return false;
      }
    }
    assert more[..src.count] == more;
    return true;
  }

  method MergeSignatures(dest: Table<string>, src: Table<string>) returns (ok: bool)
    requires dest.Valid() && src.Valid() && dest != src && dest.rows != src.rows
    modifies dest`count, dest.rows
    ensures dest.Valid()
    ensures (dest.Rows(), ok) == Merged(old(dest.Rows()), dest.cap, src.Rows(), NormalSignature)
  {
    hide NormalSignature, Offer, After, Merged;
    ghost var was, more := dest.Rows(), src.Rows();
    NothingMerged(was, dest.cap, more, NormalSignature);
    for i := 0 to src.count
      invariant dest.Valid() && src.Rows() == more
      invariant (dest.Rows(), true) == Merged(was, dest.cap, more[..i], NormalSignature)
    {
      MergedOne(was, dest.cap, more, i, NormalSignature);
      assert src.rows[i] == more[i];
      var answer := AddSignature(dest, src.rows[i].name, src.rows[i].item);
      if !answer.Added? && !answer.Present? {
        MergedStops(was, dest.cap, more, i + 1, NormalSignature);
        return false;
      }
    }
    assert more[..src.count] == more;
    return true;
  }

  lemma NothingMerged<T>(rows: seq<Row<T>>, cap: nat, more: seq<Row<T>>, norm: T -> T)
    ensures Merged(rows, cap, more[..0], norm) == (rows, true)
  {
  }

  // ----- the whole catalogue

  datatype Tables = Tables(
    macros: seq<Row<Macro>>, typedefs: seq<Row<Typedef>>, structs: seq<Row<seq<Field>>>,
    callbacks: seq<Row<string>>, functions: seq<Row<string>>)

  const NO_TABLES: Tables := Tables([], [], [], [], [])

  /** Table by table, in the source's order, leaving the rest alone after a refusal. */
  function AllMerged(d: Tables, s: Tables): (Tables, bool) {
    var (m, mok) := Merged(d.macros, MAX_MACROS, s.macros, NormalMacro);
    var (y, yok) := Merged(d.typedefs, MAX_TYPEDEFS, s.typedefs, NormalTypedef);
    var (t, tok) := Merged(d.structs, MAX_STRUCTS, s.structs, AsIs);
    var (c, cok) := Merged(d.callbacks, MAX_CALLBACKS, s.callbacks, NormalSignature);
    var (f, fok) := Merged(d.functions, MAX_FUNCTIONS, s.functions, NormalSignature);
    if !mok then (d.(macros := m), false)
    else if !yok then (d.(macros := m, typedefs := y), false)
    else if !tok then (d.(macros := m, typedefs := y, structs := t), false)
    else if !cok then (d.(macros := m, typedefs := y, structs := t, callbacks := c), false)
    else (Tables(m, y, t, c, f), fok)
  }

  class Catalog {
    const macros: Table<Macro>
    const typedefs: Table<Typedef>
    const structs: Table<seq<Field>>
    const callbacks: Table<string>
    const functions: Table<string>

    ghost predicate Valid()
      reads this, macros, typedefs, structs, callbacks, functions
    {
      && macros.Valid() && typedefs.Valid() && structs.Valid() && callbacks.Valid() && functions.Valid()
      && macros.cap == MAX_MACROS && typedefs.cap == MAX_TYPEDEFS && structs.cap == MAX_STRUCTS
      && callbacks.cap == MAX_CALLBACKS && functions.cap == MAX_FUNCTIONS
      && callbacks != functions && callbacks.rows != functions.rows
    }

    ghost function Value(): Tables
      reads this, macros, typedefs, structs, callbacks, functions
      reads macros.rows, typedefs.rows, structs.rows, callbacks.rows, functions.rows
      requires Valid()
    {
      Tables(macros.Rows(), typedefs.Rows(), structs.Rows(), callbacks.Rows(), functions.Rows())
    }

    /** No table is shared with the other catalogue. */
    ghost predicate Apart(other: Catalog)
    {
      && macros != other.macros && macros.rows != other.macros.rows
      && typedefs != other.typedefs && typedefs.rows != other.typedefs.rows
      && structs != other.structs && structs.rows != other.structs.rows
      && {callbacks, functions} !! {other.callbacks, other.functions}
      && {callbacks.rows, functions.rows} !! {other.callbacks.rows, other.functions.rows}
    }

    constructor ()
      ensures Valid() && Value() == NO_TABLES
    {
      macros := new Table<Macro>(MAX_MACROS, Row("", Macro(OBJECT, "")));
      typedefs := new Table<Typedef>(MAX_TYPEDEFS, Row("", Typedef("", false)));
      structs := new Table<seq<Field>>(MAX_STRUCTS, Row("", []));
      callbacks := new Table<string>(MAX_CALLBACKS, Row("", ""));
      functions := new Table<string>(MAX_FUNCTIONS, Row("", ""));
    }

    method Merge(src: Catalog) returns (ok: bool)
      requires Valid() && src.Valid() && Apart(src)
      modifies macros, typedefs, structs, callbacks, functions
      modifies macros.rows, typedefs.rows, structs.rows, callbacks.rows, functions.rows
      ensures Valid() && (Value(), ok) == AllMerged(old(Value()), old(src.Value()))
    {
      hide Merged, NormalMacro, NormalTypedef, NormalSignature, AsIs;
      ok := MergeMacros(macros, src.macros);
      if !ok {
        return;
      }
      ok := MergeTypedefs(typedefs, src.typedefs);
      if !ok {
        return;
      }
      ok := MergeStructs(structs, src.structs);
      if !ok {
        return;
      }
      ok := MergeSignatures(callbacks, src.callbacks);
      if !ok {
        return;
      }
      ok := MergeSignatures(functions, src.functions);
    }

    method Compare(header: Catalog) returns (same: bool)
      requires Valid() && header.Valid()
      ensures same == AllMatch(Value(), header.Value())
    {
      hide Matches;
      var m := macros.Compare(header.macros);
      var y := typedefs.Compare(header.typedefs);
      var t := structs.Compare(header.structs);
      var c := callbacks.Compare(header.callbacks);
      var f := functions.Compare(header.functions);
      return m && y && t && c && f;
    }
  }

  predicate AllMatch(doc: Tables, header: Tables) {
    && Matches(doc.macros, header.macros) && Matches(doc.typedefs, header.typedefs)
    && Matches(doc.structs, header.structs)
    && Matches(doc.callbacks, header.callbacks) && Matches(doc.functions, header.functions)
  }

  datatype Maps = Maps(
    macros: map<string, Macro>, typedefs: map<string, Typedef>, structs: map<string, seq<Field>>,
    callbacks: map<string, string>, functions: map<string, string>)

  function ViewAll(t: Tables): Maps {
    Maps(View(t.macros), View(t.typedefs), View(t.structs), View(t.callbacks), View(t.functions))
  }

  function Union(a: Maps, b: Maps): Maps {
    Maps(a.macros + b.macros, a.typedefs + b.typedefs, a.structs + b.structs,
         a.callbacks + b.callbacks, a.functions + b.functions)
  }

  ghost predicate FitAll(a: Maps, b: Maps) {
    && Fits(a.macros, b.macros, MAX_MACROS) && Fits(a.typedefs, b.typedefs, MAX_TYPEDEFS)
    && Fits(a.structs, b.structs, MAX_STRUCTS)
    && Fits(a.callbacks, b.callbacks, MAX_CALLBACKS) && Fits(a.functions, b.functions, MAX_FUNCTIONS)
  }

  /**
   What a catalogue filled by adding looks like: no name twice and every table within its bound.
   All items but the typedefs' normalise to themselves.
   */
  ghost predicate Built(t: Tables) {
    && Tidy(t.macros) && Fixed(t.macros, NormalMacro) && |t.macros| <= MAX_MACROS
    && Tidy(t.typedefs) && |t.typedefs| <= MAX_TYPEDEFS
    && Tidy(t.structs) && Fixed(t.structs, AsIs) && |t.structs| <= MAX_STRUCTS
    && Tidy(t.callbacks) && Fixed(t.callbacks, NormalSignature) && |t.callbacks| <= MAX_CALLBACKS
    && Tidy(t.functions) && Fixed(t.functions, NormalSignature) && |t.functions| <= MAX_FUNCTIONS
  }

  // ----- filling

  datatype Addition =
    | OfMacro(name: string, macro: Macro)
    | OfTypedef(name: string, typedef: Typedef)
    | OfStruct(name: string, fields: seq<Field>)
    | OfCallback(name: string, signature: string)
    | OfFunction(name: string, signature: string)

  /** One addition; a refused one leaves the catalogue as it is. */
  function Added(t: Tables, a: Addition): Tables {
    match a
    case OfMacro(name, m) => t.(macros := After(t.macros, MAX_MACROS, name, NormalMacro(m)))
    case OfTypedef(name, y) => t.(typedefs := After(t.typedefs, MAX_TYPEDEFS, name, NormalTypedef(y)))
    case OfStruct(name, fields) => t.(structs := After(t.structs, MAX_STRUCTS, name, AsIs(fields)))
    case OfCallback(name, s) => t.(callbacks := After(t.callbacks, MAX_CALLBACKS, name, NormalSignature(s)))
    case OfFunction(name, s) => t.(functions := After(t.functions, MAX_FUNCTIONS, name, NormalSignature(s)))
  }

  function Filled(t: Tables, additions: seq<Addition>): Tables {
    if additions == [] then t
    else Added(Filled(t, additions[..|additions| - 1]), additions[|additions| - 1])
  }

  lemma AddKeepsTidy<T>(rows: seq<Row<T>>, cap: nat, name: string, item: T)
    requires Tidy(rows) && |rows| <= cap && |name| < SYMBOL_LEN
    ensures Tidy(After(rows, cap, name, item)) && |After(rows, cap, name, item)| <= cap
  {
    hide Index, Unique;
    TidyNames(rows);
    AddKeepsUniqueIff(rows, cap, name, item);
    assert Stored(name) == name;
  }

  lemma AddKeepsFixed<T>(rows: seq<Row<T>>, cap: nat, name: string, item: T, norm: T -> T)
    requires Fixed(rows, norm) && norm(norm(item)) == norm(item)
    ensures Fixed(After(rows, cap, name, norm(item)), norm)
  {
    hide Index;
  }

  lemma MacrosAreIdempotent(m: Macro)
    ensures NormalMacro(NormalMacro(m)) == NormalMacro(m)
  {
    hide Normalized;
    NormalIff(m.value, VALUE_LEN);
  }

  lemma SignaturesAreIdempotent(s: string)
    ensures NormalSignature(NormalSignature(s)) == NormalSignature(s)
  {
    hide Normalized;
    NormalIff(s, SIG_LEN);
  }

  lemma AddKeepsBuilt(t: Tables, a: Addition)
    requires Built(t) && |a.name| < SYMBOL_LEN
    ensures Built(Added(t, a))
  {
    hide Tidy, Fixed, After, NormalMacro, NormalTypedef, NormalSignature;
    match a
    case OfMacro(name, m) =>
      MacrosAreIdempotent(m);
      AddKeepsTidy(t.macros, MAX_MACROS, name, NormalMacro(m));
      AddKeepsFixed(t.macros, MAX_MACROS, name, m, NormalMacro);
    case OfTypedef(name, y) =>
      AddKeepsTidy(t.typedefs, MAX_TYPEDEFS, name, NormalTypedef(y));
    case OfStruct(name, fields) =>
      AddKeepsTidy(t.structs, MAX_STRUCTS, name, AsIs(fields));
      AddKeepsFixed(t.structs, MAX_STRUCTS, name, fields, AsIs);
    case OfCallback(name, s) =>
      SignaturesAreIdempotent(s);
      AddKeepsTidy(t.callbacks, MAX_CALLBACKS, name, NormalSignature(s));
      AddKeepsFixed(t.callbacks, MAX_CALLBACKS, name, s, NormalSignature);
    case OfFunction(name, s) =>
      SignaturesAreIdempotent(s);
      AddKeepsTidy(t.functions, MAX_FUNCTIONS, name, NormalSignature(s));
      AddKeepsFixed(t.functions, MAX_FUNCTIONS, name, s, NormalSignature);
  }

  lemma NothingIsBuilt()
    ensures Built(NO_TABLES)
  {
  }

  /** Whatever is added, with names as identifiers are read, the catalogue is a set of maps. */
  lemma {:induction false} FilledIsBuilt(additions: seq<Addition>)
    requires forall a :: a in additions ==> |a.name| < SYMBOL_LEN
    ensures Built(Filled(NO_TABLES, additions))
  {
    hide Built, Added;
    if additions == [] {
      NothingIsBuilt();
    } else {
      FilledIsBuilt(additions[..|additions| - 1]);
      AddKeepsBuilt(Filled(NO_TABLES, additions[..|additions| - 1]), additions[|additions| - 1]);
    }
  }

  // ----- merging

  /** The tables as a merge offers them; only the typedefs' text may change. */
  function Offered(s: Tables): Tables {
    s.(typedefs := Normed(s.typedefs, NormalTypedef))
  }

  lemma {:induction false} MergeKeepsTidy<T>(rows: seq<Row<T>>, cap: nat, more: seq<Row<T>>, norm: T -> T)
    requires Tidy(rows) && |rows| <= cap && Tidy(more)
    ensures Tidy(Merged(rows, cap, more, norm).0) && |Merged(rows, cap, more, norm).0| <= cap
  {
    hide Offer, After, Tidy;
    if more != [] {
      var n := |more| - 1;
      TidyPart(more, norm);
      MergeKeepsTidy(rows, cap, more[..n], norm);
      TidyNames(more);
      AddKeepsTidy(Merged(rows, cap, more[..n], norm).0, cap, more[n].name, norm(more[n].item));
    }
  }

  lemma {:induction false} MergeKeepsFixed<T>(rows: seq<Row<T>>, cap: nat, more: seq<Row<T>>, norm: T -> T)
    requires Fixed(rows, norm) && Fixed(more, norm)
    ensures Fixed(Merged(rows, cap, more, norm).0, norm)
  {
    hide Offer, After;
    if more != [] {
      var n := |more| - 1;
      MergeKeepsFixed(rows, cap, more[..n], norm);
      AddKeepsFixed(Merged(rows, cap, more[..n], norm).0, cap, more[n].name, more[n].item, norm);
    }
  }

  lemma TableMerge<T>(rows: seq<Row<T>>, cap: nat, more: seq<Row<T>>, norm: T -> T)
    requires Tidy(rows) && |rows| <= cap && Tidy(more)
    ensures Merged(rows, cap, more, norm).1 <==> Fits(View(rows), View(Normed(more, norm)), cap)
    ensures Merged(rows, cap, more, norm).1 ==>
      View(Merged(rows, cap, more, norm).0) == View(rows) + View(Normed(more, norm))
    ensures Tidy(Merged(rows, cap, more, norm).0) && |Merged(rows, cap, more, norm).0| <= cap
  {
    hide Merged, View, Tidy, Fits;
    TidyNames(rows);
    MergeIsUnion(rows, cap, more, norm);
    MergeKeepsTidy(rows, cap, more, norm);
  }

  lemma FixedTableMerge<T>(rows: seq<Row<T>>, cap: nat, more: seq<Row<T>>, norm: T -> T)
    requires Tidy(rows) && |rows| <= cap && Tidy(more) && Fixed(rows, norm) && Fixed(more, norm)
    ensures Merged(rows, cap, more, norm).1 <==> Fits(View(rows), View(more), cap)
    ensures Merged(rows, cap, more, norm).1 ==> View(Merged(rows, cap, more, norm).0) == View(rows) + View(more)
    ensures Tidy(Merged(rows, cap, more, norm).0) && |Merged(rows, cap, more, norm).0| <= cap
    ensures Fixed(Merged(rows, cap, more, norm).0, norm)
  {
    hide Merged, View, Tidy, Fits, Fixed;
    FixedIsNormed(more, norm);
    TableMerge(rows, cap, more, norm);
    MergeKeepsFixed(rows, cap, more, norm);
  }

  /**
   Merging two catalogues succeeds exactly when what is offered agrees with what is there and
   fits; then the result is their union, and in every case it can be merged again.
   */
  lemma CatalogMergeIff(d: Tables, s: Tables)
    requires Built(d) && Built(s)
    ensures AllMerged(d, s).1 <==> FitAll(ViewAll(d), ViewAll(Offered(s)))
    ensures AllMerged(d, s).1 ==> ViewAll(AllMerged(d, s).0) == Union(ViewAll(d), ViewAll(Offered(s)))
    ensures Built(AllMerged(d, s).0)
  {
    hide Merged, View, Tidy, Fixed, Fits, NormalMacro, NormalTypedef, NormalSignature, AsIs;
    FixedTableMerge(d.macros, MAX_MACROS, s.macros, NormalMacro);
    TableMerge(d.typedefs, MAX_TYPEDEFS, s.typedefs, NormalTypedef);
    FixedTableMerge(d.structs, MAX_STRUCTS, s.structs, AsIs);
    FixedTableMerge(d.callbacks, MAX_CALLBACKS, s.callbacks, NormalSignature);
    FixedTableMerge(d.functions, MAX_FUNCTIONS, s.functions, NormalSignature);
  }

  lemma TableOrder<T>(rows: seq<Row<T>>, cap: nat, a: seq<Row<T>>, b: seq<Row<T>>, norm: T -> T)
    requires Tidy(rows) && |rows| <= cap && Tidy(a) && Tidy(b)
    ensures var (ra, oka) := Merged(rows, cap, a, norm); var (rab, okab) := Merged(ra, cap, b, norm);
      var (rb, okb) := Merged(rows, cap, b, norm); var (rba, okba) := Merged(rb, cap, a, norm);
      && (oka && okab <==> okb && okba)
      && (oka && okab ==> View(rab) == View(rba))
  {
    hide Merged, View, Tidy;
    TidyNames(rows);
    MergeOrderIrrelevant(rows, cap, a, b, norm);
  }

  /** The order in which two catalogues are merged does not matter. */
  lemma CatalogOrderIrrelevant(d: Tables, a: Tables, b: Tables)
    requires Built(d) && Built(a) && Built(b)
    ensures var (da, oka) := AllMerged(d, a); var (dab, okab) := AllMerged(da, b);
      var (db, okb) := AllMerged(d, b); var (dba, okba) := AllMerged(db, a);
      && (oka && okab <==> okb && okba)
      && (oka && okab ==> ViewAll(dab) == ViewAll(dba))
  {
    hide Merged, View, Tidy, Fixed, NormalMacro, NormalTypedef, NormalSignature, AsIs;
    TableOrder(d.macros, MAX_MACROS, a.macros, b.macros, NormalMacro);
    TableOrder(d.typedefs, MAX_TYPEDEFS, a.typedefs, b.typedefs, NormalTypedef);
    TableOrder(d.structs, MAX_STRUCTS, a.structs, b.structs, AsIs);
    TableOrder(d.callbacks, MAX_CALLBACKS, a.callbacks, b.callbacks, NormalSignature);
    TableOrder(d.functions, MAX_FUNCTIONS, a.functions, b.functions, NormalSignature);
  }

  lemma TypedefsFixedIff(rows: seq<Row<Typedef>>)
    ensures Fixed(rows, NormalTypedef) <==> forall i :: 0 <= i < |rows| ==> AbiTypeLaws.TypeNormal(rows[i].item.text)
  {
    hide AbiTypes.NormalType, AbiTypeLaws.TypeNormal;
    forall i | 0 <= i < |rows|
      ensures NormalTypedef(rows[i].item) == rows[i].item <==> AbiTypeLaws.TypeNormal(rows[i].item.text)
    {
      AbiTypeLaws.TypeNormalIff(rows[i].item.text);
    }
  }

  /** A catalogue can be merged with an equal one exactly when its typedefs are in normal form. */
  lemma CatalogSelfMergeIff(d: Tables)
    requires Built(d)
    ensures AllMerged(d, d).1 <==>
      forall i :: 0 <= i < |d.typedefs| ==> AbiTypeLaws.TypeNormal(d.typedefs[i].item.text)
    ensures AllMerged(d, d).1 ==> AllMerged(d, d).0 == d
  {
    hide Merged, Tidy, Fixed, NormalMacro, NormalTypedef, NormalSignature, AsIs, AbiTypeLaws.TypeNormal;
    TypedefsFixedIff(d.typedefs);
    SelfMergeIff(d.macros, MAX_MACROS, NormalMacro);
    SelfMergeIff(d.typedefs, MAX_TYPEDEFS, NormalTypedef);
    SelfMergeIff(d.structs, MAX_STRUCTS, AsIs);
    SelfMergeIff(d.callbacks, MAX_CALLBACKS, NormalSignature);
    SelfMergeIff(d.functions, MAX_FUNCTIONS, NormalSignature);
  }

  /** A type as written that fits, glues no qualifier to a word and does not end with two. */
  predicate Settles(text: string) {
    var b := Normalized(text, AbiTypes.TYPE_LEN);
    && AbiTypeRuns.Roomy(text)
    && !AbiTypeRuns.EndsTwice(b)
    && forall k :: 0 <= k <= |b| ==> !AbiTypeRuns.GluesAt(b, k)
  }

  lemma AddKeepsTypedefs(t: Tables, a: Addition)
    requires Fixed(t.typedefs, NormalTypedef) && (a.OfTypedef? ==> Settles(a.typedef.text))
    ensures Fixed(Added(t, a).typedefs, NormalTypedef)
  {
    hide Fixed, After, AbiTypes.NormalType, AbiTypeRuns.Roomy, AbiTypeRuns.EndsTwice, AbiTypeRuns.GluesAt, Normalized;
    if a.OfTypedef? {
      AbiTypeRuns.SettledIff(a.typedef.text);
      AddKeepsFixed(t.typedefs, MAX_TYPEDEFS, a.name, a.typedef, NormalTypedef);
    }
  }

  /** A catalogue filled with such types only can be merged with an equal one. */
  lemma SettledTypesMerge(additions: seq<Addition>)
    requires forall a :: a in additions ==> |a.name| < SYMBOL_LEN && (a.OfTypedef? ==> Settles(a.typedef.text))
    ensures var d := Filled(NO_TABLES, additions); AllMerged(d, d) == (d, true)
  {
    hide AllMerged, Fixed, AbiTypeLaws.TypeNormal, Built, Settles, NormalTypedef;
    var d := Filled(NO_TABLES, additions);
    FilledIsBuilt(additions);
    FilledTypedefs(additions);
    TypedefsFixedIff(d.typedefs);
    CatalogSelfMergeIff(d);
  }

  lemma {:induction false} FilledTypedefs(additions: seq<Addition>)
    requires forall a :: a in additions ==> a.OfTypedef? ==> Settles(a.typedef.text)
    ensures Fixed(Filled(NO_TABLES, additions).typedefs, NormalTypedef)
  {
    hide Added, Settles, NormalTypedef;
    if additions != [] {
      FilledTypedefs(additions[..|additions| - 1]);
      AddKeepsTypedefs(Filled(NO_TABLES, additions[..|additions| - 1]), additions[|additions| - 1]);
    }
  }

  /** One typedef of a pointer to a constant pointer, as it is stored, cannot be merged with itself. */
  lemma QualifiedTypedefCannotBeMerged()
    ensures var d := Filled(NO_TABLES, [OfTypedef("alias", Typedef(AbiTypes.Qualified(), false))]);
      Built(d) && !AllMerged(d, d).1
  {
    var a := OfTypedef("alias", Typedef(AbiTypes.Qualified(), false));
    FilledIsBuilt([a]);
    AbiTypes.TypeNormalisingIsNotIdempotent();
    hide AbiTypes.Qualified, AbiTypes.StoredOnce, AbiTypes.StoredAgain, AbiTypes.NormalType;
    var d := Filled(NO_TABLES, [a]);
    assert [a][..0] == [];
    assert d.typedefs == [Row("alias", Typedef(AbiTypes.StoredOnce(), false))];
    AbiTypeLaws.TypeNormalIff(AbiTypes.StoredOnce());
    hide AbiTypeLaws.TypeNormal;
    assert !AbiTypeLaws.TypeNormal(d.typedefs[0].item.text);
    CatalogSelfMergeIff(d);
  }

  /** The drift comparison passes exactly when the two catalogues are the same maps. */
  lemma CatalogMatchIff(doc: Tables, header: Tables)
    requires Built(doc) && Built(header)
    ensures AllMatch(doc, header) <==> ViewAll(doc) == ViewAll(header)
  {
    hide Matches, View, Fixed, NormalMacro, NormalTypedef, NormalSignature, AsIs;
    MatchesIff(doc.macros, header.macros);
    MatchesIff(doc.typedefs, header.typedefs);
    MatchesIff(doc.structs, header.structs);
    MatchesIff(doc.callbacks, header.callbacks);
    MatchesIff(doc.functions, header.functions);
  }
}
