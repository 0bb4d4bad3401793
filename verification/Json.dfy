/** Compact JSON text as UTF-8 bytes: in the order given, or with sorted keys. */
module Json {
  import opened Octets

  datatype Value =
    | Null | Flag(b: bool) | Number(n: int) | Text(s: string)
    | List(items: seq<Value>) | Object(entries: seq<Entry>)

  datatype Entry = Entry(key: string, value: Value)

  // ----- scalars

  function Utf8(c: char): Octets {
    var v := c as int;
    if v < 0x80 then [v]
    else if v < 0x800 then [0xC0 + v / 64, 0x80 + v % 64]
    else if v < 0x1_0000 then [0xE0 + v / 4096, 0x80 + v / 64 % 64, 0x80 + v % 64]
    else [0xF0 + v / 262144 % 8, 0x80 + v / 4096 % 64, 0x80 + v / 64 % 64, 0x80 + v % 64]
  }

  function HexDigit(d: nat): Byte
    requires d < 16
  {
    if d < 10 then 48 + d else 87 + d
  }

  /** A character inside a string literal. */
  function Escaped(c: char): (b: Octets)
    ensures |b| >= 1
  {
    var v := c as int;
    if c == '\"' || c == '\\' then [0x5C, v]
    else if v == 8 then [0x5C, 0x62]
    else if v == 9 then [0x5C, 0x74]
    else if v == 10 then [0x5C, 0x6E]
    else if v == 12 then [0x5C, 0x66]
    else if v == 13 then [0x5C, 0x72]
    else if v < 0x20 then [0x5C, 0x75, 0x30, 0x30, HexDigit(v / 16), HexDigit(v % 16)]
    else Utf8(c)
  }

  function EscapedAll(s: string): Octets {
    if s == [] then [] else Escaped(s[0]) + EscapedAll(s[1..])
  }

  function Quote(s: string): (b: Octets)
    ensures |b| >= 2
  {
    [0x22] + EscapedAll(s) + [0x22]
  }

  function Digits(n: nat): (b: Octets)
    ensures |b| >= 1
  {
    if n < 10 then [48 + n] else Digits(n / 10) + [48 + n % 10]
  }

  function Decimal(n: int): (b: Octets)
    ensures |b| >= 1
  {
    if n < 0 then [0x2D] + Digits(-n) else Digits(n)
  }

  /** The bytes of text that needs no escaping. */
  function Plain(s: string): (b: Octets)
    ensures |b| == |s|
  {
    if s == [] then [] else [s[0] as int % 128] + Plain(s[1..])
  }

  predicate IsPlain(s: string) {
    forall i :: 0 <= i < |s| ==> 0x20 <= s[i] as int < 0x80 && s[i] != '\"' && s[i] != '\\'
  }

  lemma {:induction false} PlainIsUnescaped(s: string)
    requires IsPlain(s)
    ensures EscapedAll(s) == Plain(s)
  {
    if s != [] {
      assert forall i :: 0 <= i < |s| - 1 ==> s[1..][i] == s[i + 1];
      PlainIsUnescaped(s[1..]);
    }
  }

  // ----- whole values

  const TRUE: Octets := [0x74, 0x72, 0x75, 0x65]
  const FALSE: Octets := [0x66, 0x61, 0x6C, 0x73, 0x65]
  const NULL: Octets := [0x6E, 0x75, 0x6C, 0x6C]
  const COMMA: Byte := 0x2C

  /** Compact text, keys in the order given. */
  function Dump(v: Value): (b: Octets)
    ensures |b| >= 1
    decreases v, 1
  {
    match v
    case Null => NULL
    case Flag(b) => if b then TRUE else FALSE
    case Number(n) => Decimal(n)
    case Text(s) => Quote(s)
    case List(items) => [0x5B] + DumpItems(items) + [0x5D]
    case Object(entries) => [0x7B] + DumpEntries(entries) + [0x7D]
  }

  function DumpItems(items: seq<Value>): Octets
    decreases items, 0
  {
    if items == [] then []
    else Dump(items[0]) + (if |items| == 1 then [] else [COMMA] + DumpItems(items[1..]))
  }

  function DumpEntries(entries: seq<Entry>): Octets
    decreases entries, 0
  {
    if entries == [] then []
    else
      Quote(entries[0].key) + [0x3A] + Dump(entries[0].value)
        + (if |entries| == 1 then [] else [COMMA] + DumpEntries(entries[1..]))
  }

  // ----- text in ASCII only

  /** Four hexadecimal digits after a backslash. */
  function Unit(v: nat): (b: Octets)
    requires v < 0x1_0000
    ensures |b| == 6
  {
    [0x5C, 0x75, HexDigit(v / 4096), HexDigit(v / 256 % 16), HexDigit(v / 16 % 16), HexDigit(v % 16)]
  }

  /** A character inside a string literal; one above the basic plane is two units. */
  function AsciiEscaped(c: char): Octets {
    var v := c as int;
    if v < 0x7F then Escaped(c)
    else if v < 0x1_0000 then Unit(v)
    else Unit(0xD800 + (v - 0x1_0000) / 0x400 % 0x400) + Unit(0xDC00 + (v - 0x1_0000) % 0x400)
  }

  function AsciiEscapedAll(s: string): Octets {
    if s == [] then [] else AsciiEscaped(s[0]) + AsciiEscapedAll(s[1..])
  }

  function AsciiQuote(s: string): Octets {
    [0x22] + AsciiEscapedAll(s) + [0x22]
  }

  /** Compact text in ASCII, keys in the order given. */
  function AsciiDump(v: Value): Octets
    decreases v, 1
  {
    match v
    case Text(s) => AsciiQuote(s)
    case List(items) => [0x5B] + AsciiItems(items) + [0x5D]
    case Object(entries) => [0x7B] + AsciiEntries(entries) + [0x7D]
    case _ => Dump(v)
  }

  function AsciiItems(items: seq<Value>): Octets
    decreases items, 0
  {
    if items == [] then []
    else AsciiDump(items[0]) + (if |items| == 1 then [] else [COMMA] + AsciiItems(items[1..]))
  }

  function AsciiEntries(entries: seq<Entry>): Octets
    decreases entries, 0
  {
    if entries == [] then []
    else
      AsciiQuote(entries[0].key) + [0x3A] + AsciiDump(entries[0].value)
        + (if |entries| == 1 then [] else [COMMA] + AsciiEntries(entries[1..]))
  }

  // ----- sorted keys

  /** Order of strings by code point. */
  predicate Before(a: string, b: string) {
    if b == [] then false
    else if a == [] then true
    else a[0] < b[0] || (a[0] == b[0] && Before(a[1..], b[1..]))
  }

  function InsertEntry(e: Entry, entries: seq<Entry>): (r: seq<Entry>)
    ensures |r| == |entries| + 1
  {
    if entries == [] || !Before(entries[0].key, e.key) then [e] + entries
    else [entries[0]] + InsertEntry(e, entries[1..])
  }

  function SortEntries(entries: seq<Entry>): (r: seq<Entry>)
    ensures |r| == |entries|
  {
    if entries == [] then [] else InsertEntry(entries[0], SortEntries(entries[1..]))
  }

  /** The value with the keys of every object in it sorted. */
  function Sorted(v: Value): Value
    decreases v, 1
  {
    match v
    case List(items) => List(SortedItems(items))
    case Object(entries) => Object(SortEntries(SortedValues(entries)))
    case _ => v
  }

  function SortedItems(items: seq<Value>): (r: seq<Value>)
    ensures |r| == |items|
    decreases items, 0
  {
    if items == [] then [] else [Sorted(items[0])] + SortedItems(items[1..])
  }

  function SortedValues(entries: seq<Entry>): (r: seq<Entry>)
    ensures |r| == |entries|
    ensures forall i :: 0 <= i < |entries| ==> r[i].key == entries[i].key
    decreases entries, 0
  {
    if entries == [] then []
    else [Entry(entries[0].key, Sorted(entries[0].value))] + SortedValues(entries[1..])
  }

  /** Compact text with sorted keys. */
  function Stable(v: Value): Octets {
    Dump(Sorted(v))
  }

  // ----- documents

  function Keys(entries: seq<Entry>): (k: seq<string>)
    ensures |k| == |entries|
    ensures forall i :: 0 <= i < |entries| ==> k[i] == entries[i].key
  {
    if entries == [] then [] else [entries[0].key] + Keys(entries[1..])
  }

  predicate UniqueKeys(entries: seq<Entry>) {
    forall i, j :: 0 <= i < j < |entries| ==> entries[i].key != entries[j].key
  }

  /** The value of a key; Null if the key is not there. */
  function ValueOf(entries: seq<Entry>, key: string): Value {
    if entries == [] then Null
    else if entries[0].key == key then entries[0].value
    else ValueOf(entries[1..], key)
  }

  lemma {:induction false} ValueAt(entries: seq<Entry>, i: nat)
    requires UniqueKeys(entries) && i < |entries|
    ensures ValueOf(entries, entries[i].key) == entries[i].value
  {
    if i > 0 {
      assert UniqueKeys(entries[1..]);
      ValueAt(entries[1..], i - 1);
    }
  }

  function InsertKey(k: string, keys: seq<string>): (r: seq<string>)
    ensures |r| == |keys| + 1
  {
    if keys == [] || !Before(keys[0], k) then [k] + keys
    else [keys[0]] + InsertKey(k, keys[1..])
  }

  function SortKeys(keys: seq<string>): (r: seq<string>)
    ensures |r| == |keys|
  {
    if keys == [] then [] else InsertKey(keys[0], SortKeys(keys[1..]))
  }

  lemma {:induction false} KeysOfInsert(e: Entry, entries: seq<Entry>)
    ensures Keys(InsertEntry(e, entries)) == InsertKey(e.key, Keys(entries))
  {
    if entries != [] && Before(entries[0].key, e.key) {
      KeysOfInsert(e, entries[1..]);
    }
  }

  /** Sorting entries and sorting keys agree. */
  lemma {:induction false} KeysOfSorted(entries: seq<Entry>)
    ensures Keys(SortEntries(entries)) == SortKeys(Keys(entries))
  {
    if entries != [] {
      KeysOfSorted(entries[1..]);
      KeysOfInsert(entries[0], SortEntries(entries[1..]));
    }
  }

  lemma {:induction false} InsertedMembers(e: Entry, entries: seq<Entry>, x: Entry)
    ensures x in InsertEntry(e, entries) <==> x == e || x in entries
  {
    if entries != [] && Before(entries[0].key, e.key) {
      InsertedMembers(e, entries[1..], x);
    }
  }

  lemma {:induction false} SortedMembers(entries: seq<Entry>, x: Entry)
    ensures x in SortEntries(entries) <==> x in entries
  {
    if entries != [] {
      SortedMembers(entries[1..], x);
      InsertedMembers(entries[0], SortEntries(entries[1..]), x);
    }
  }

  lemma {:induction false} SortedValueAt(entries: seq<Entry>, i: nat)
    requires i < |entries|
    ensures SortedValues(entries)[i] == Entry(entries[i].key, Sorted(entries[i].value))
  {
    if i > 0 {
      SortedValueAt(entries[1..], i - 1);
    }
  }

  /** A sorted entry holds what the document holds under its key. */
  lemma SortedHolds(entries: seq<Entry>, e: Entry)
    requires UniqueKeys(entries) && e in SortEntries(SortedValues(entries))
    ensures e.value == Sorted(ValueOf(entries, e.key))
  {
    hide Before, Sorted, SortEntries, ValueOf;
    var v := SortedValues(entries);
    SortedMembers(v, e);
    var j :| 0 <= j < |v| && v[j] == e;
    SortedValueAt(entries, j);
    ValueAt(entries, j);
  }

  // ----- sorting keys does not depend on the order they come in

  lemma {:induction false} BeforeIrreflexive(a: string)
    ensures !Before(a, a)
  {
    if a != [] { BeforeIrreflexive(a[1..]); }
  }

  lemma {:induction false} BeforeTransitive(a: string, b: string, c: string)
    requires Before(a, b) && Before(b, c)
    ensures Before(a, c)
  {
    if a != [] && b != [] && c != [] && a[0] == b[0] == c[0] {
      BeforeTransitive(a[1..], b[1..], c[1..]);
    }
  }

  lemma {:induction false} BeforeTotal(a: string, b: string)
    ensures Before(a, b) || a == b || Before(b, a)
  {
    if a != [] && b != [] && a[0] == b[0] {
      BeforeTotal(a[1..], b[1..]);
      if a[1..] == b[1..] {
        assert a == [a[0]] + a[1..] && b == [b[0]] + b[1..];
      }
    }
  }

  /** The first place in which two strings differ decides, or the shorter one comes first. */
  predicate DiffersAt(a: string, b: string, k: nat) {
    && k <= |a| && k < |b| && a[..k] == b[..k]
    && (k == |a| || a[k] < b[k])
  }

  lemma {:induction false} BeforeIff(a: string, b: string)
    ensures Before(a, b) <==> exists k: nat :: DiffersAt(a, b, k)
  {
    if Before(a, b) {
      if a == [] {
        assert DiffersAt(a, b, 0);
      } else if a[0] < b[0] {
        assert DiffersAt(a, b, 0);
      } else {
        BeforeIff(a[1..], b[1..]);
        var k: nat :| DiffersAt(a[1..], b[1..], k);
        assert a[..k + 1] == [a[0]] + a[1..][..k] && b[..k + 1] == [b[0]] + b[1..][..k];
        assert DiffersAt(a, b, k + 1);
      }
    }
    if exists k: nat :: DiffersAt(a, b, k) {
      var k: nat :| DiffersAt(a, b, k);
      if k > 0 {
        assert a[0] == a[..k][0] == b[..k][0] == b[0];
        assert a[1..][..k - 1] == a[..k][1..] && b[1..][..k - 1] == b[..k][1..];
        assert DiffersAt(a[1..], b[1..], k - 1);
        BeforeIff(a[1..], b[1..]);
      }
    }
  }

  predicate Increasing(keys: seq<string>) {
    forall i, j :: 0 <= i < j < |keys| ==> Before(keys[i], keys[j])
  }

  lemma {:induction false} InsertKeeps(k: string, keys: seq<string>)
    requires Increasing(keys) && k !in keys
    ensures Increasing(InsertKey(k, keys))
    ensures forall x :: x in InsertKey(k, keys) <==> x == k || x in keys
  {
    hide Before;
    if keys != [] {
      if Before(keys[0], k) {
        InsertKeeps(k, keys[1..]);
        var r := InsertKey(k, keys[1..]);
        assert forall x :: x in keys <==> x == keys[0] || x in keys[1..];
        forall j | 0 <= j < |r| ensures Before(keys[0], r[j]) {
          assert r[j] in r;
          if r[j] != k {
            var i :| 0 <= i < |keys[1..]| && keys[1..][i] == r[j];
            assert keys[1..][i] == keys[i + 1];
          }
        }
        assert forall i :: 1 <= i < |r| + 1 ==> ([keys[0]] + r)[i] == r[i - 1];
      } else {
        BeforeTotal(keys[0], k);
        forall j | 0 <= j < |keys| ensures Before(k, keys[j]) {
          if j > 0 { BeforeTransitive(k, keys[0], keys[j]); }
        }
        assert forall i :: 1 <= i < |keys| + 1 ==> ([k] + keys)[i] == keys[i - 1];
      }
    }
  }

  predicate Distinct(keys: seq<string>) {
    forall i, j :: 0 <= i < j < |keys| ==> keys[i] != keys[j]
  }

  lemma {:induction false} SortedIncreasing(keys: seq<string>)
    requires Distinct(keys)
    ensures Increasing(SortKeys(keys))
    ensures forall x :: x in SortKeys(keys) <==> x in keys
  {
    hide Before, InsertKey;
    if keys != [] {
      assert Distinct(keys[1..]);
      SortedIncreasing(keys[1..]);
      assert keys[0] !in keys[1..];
      InsertKeeps(keys[0], SortKeys(keys[1..]));
      assert forall x :: x in keys <==> x == keys[0] || x in keys[1..];
    }
  }

  lemma HeadIsLeast(a: seq<string>, b: seq<string>)
    requires Increasing(a) && Increasing(b) && a != [] && b != []
    requires forall x :: x in a <==> x in b
    ensures a[0] == b[0]
  {
    hide Before;
    assert a[0] in b && b[0] in a;
    var i :| 0 <= i < |b| && b[i] == a[0];
    var j :| 0 <= j < |a| && a[j] == b[0];
    if i > 0 && j > 0 {
      BeforeTransitive(a[0], b[0], a[0]);
      BeforeIrreflexive(a[0]);
    }
  }

  /** An increasing sequence is determined by its members. */
  lemma {:induction false} IncreasingUnique(a: seq<string>, b: seq<string>)
    requires Increasing(a) && Increasing(b)
    requires forall x :: x in a <==> x in b
    ensures a == b
    decreases |a|
  {
    hide Before;
    if b != [] { HeadIsMember(b); }
    if a != [] { HeadIsMember(a); }
    if a != [] && b != [] {
      HeadIsLeast(a, b);
      forall x ensures x in a[1..] <==> x in b[1..] {
        TailMember(a, x);
        TailMember(b, x);
      }
      IncreasingUnique(a[1..], b[1..]);
      assert a == [a[0]] + a[1..] && b == [b[0]] + b[1..];
    }
  }

  lemma HeadIsMember(a: seq<string>)
    requires a != []
    ensures exists x :: x in a
  {
    assert a[0] in a;
  }

  lemma TailMember(a: seq<string>, x: string)
    requires Increasing(a) && a != []
    ensures x in a[1..] <==> x in a && x != a[0]
  {
    hide Before;
    BeforeIrreflexive(a[0]);
    if x in a[1..] {
      var i :| 0 <= i < |a[1..]| && a[1..][i] == x;
      assert a[i + 1] == x && Before(a[0], a[i + 1]);
    }
  }

  /** The sorted keys depend on the set of keys only. */
  lemma SortKeysOfSameKeys(a: seq<string>, b: seq<string>)
    requires Distinct(a) && Distinct(b)
    requires forall x :: x in a <==> x in b
    ensures SortKeys(a) == SortKeys(b)
  {
    hide Before, SortKeys;
    SortedIncreasing(a);
    SortedIncreasing(b);
    IncreasingUnique(SortKeys(a), SortKeys(b));
  }
}
