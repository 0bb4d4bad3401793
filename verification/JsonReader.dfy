/** Reading JSON text back: the partner of the two ways it is written. */
module JsonReader {
  import opened Octets
  import opened Json

  datatype Read<T> = Fail | Got(value: T, rest: Octets)

  // ----- characters

  function CharOf(v: int): Option<char> {
    if 0 <= v < 0xD800 || 0xE000 <= v < 0x11_0000 then Some(v as char) else None
  }

  function GotChar(v: int, rest: Octets): (r: Read<char>)
    ensures r.Got? ==> r.rest == rest
  {
    match CharOf(v)
    case None => Fail
    case Some(c) => Got(c, rest)
  }

  /** The six low bits of a continuation byte; something negative for any other byte. */
  function Tail(b: Byte): int {
    if 0x80 <= b < 0xC0 then b - 0x80 else -0x100_0000
  }

  /** One character in UTF-8, in its shortest form. */
  function ReadUtf8(b: Octets): (r: Read<char>)
    ensures r.Got? ==> |r.rest| < |b|
  {
    if b == [] then Fail
    else if b[0] < 0x80 then GotChar(b[0], b[1..])
    else if 0xC2 <= b[0] < 0xE0 && |b| >= 2 then GotChar((b[0] - 0xC0) * 64 + Tail(b[1]), b[2..])
    else if 0xE0 <= b[0] < 0xF0 && |b| >= 3 then
      var v := (b[0] - 0xE0) * 4096 + Tail(b[1]) * 64 + Tail(b[2]);
      if v < 0x800 then Fail else GotChar(v, b[3..])
    else if 0xF0 <= b[0] < 0xF5 && |b| >= 4 then
      var v := (b[0] - 0xF0) * 262144 + Tail(b[1]) * 4096 + Tail(b[2]) * 64 + Tail(b[3]);
      if v < 0x1_0000 then Fail else GotChar(v, b[4..])
    else Fail
  }

  /** The value of a hexadecimal digit of either case. */
  function HexValue(b: Byte): Option<nat> {
    if '0' as int <= b <= '9' as int then Some(b - '0' as int)
    else if 'a' as int <= b <= 'f' as int then Some(b - 'a' as int + 10)
    else if 'A' as int <= b <= 'F' as int then Some(b - 'A' as int + 10)
    else None
  }

  /** Four hexadecimal digits. */
  function ReadUnit(b: Octets): (r: Read<nat>)
    ensures r.Got? ==> |r.rest| + 4 == |b| && r.value < 0x1_0000
  {
    if |b| < 4 then Fail
    else
      match (HexValue(b[0]), HexValue(b[1]), HexValue(b[2]), HexValue(b[3]))
      case (Some(x), Some(y), Some(z), Some(w)) =>
        var v := x * 4096 + y * 256 + z * 16 + w;
        if v < 0x1_0000 then Got(v, b[4..]) else Fail
      case _ => Fail
  }

  /** What follows a backslash and the letter u: one unit, or two for a character above the basic plane. */
  function ReadUnits(b: Octets): (r: Read<char>)
    ensures r.Got? ==> |r.rest| < |b|
  {
    match ReadUnit(b)
    case Fail => Fail
    case Got(high, rest) =>
      if high < 0xD800 || high >= 0xDC00 then GotChar(high, rest)
      else if |rest| < 2 || rest[0] != '\\' as int || rest[1] != 'u' as int then Fail
      else
        match ReadUnit(rest[2..])
        case Fail => Fail
        case Got(low, after) =>
          if 0xDC00 <= low < 0xE000 then GotChar(0x1_0000 + (high - 0xD800) * 0x400 + (low - 0xDC00), after) else Fail
  }

  /** One character of a string literal, written out or escaped. */
  function ReadChar(b: Octets): (r: Read<char>)
    ensures r.Got? ==> |r.rest| < |b|
  {
    if b == [] || b[0] < 0x20 then Fail
    else if b[0] != '\\' as int then ReadUtf8(b)
    else if |b| < 2 then Fail
    else
      var e := b[1] as char;
      if e == '\"' || e == '\\' || e == '/' then Got(e, b[2..])
      else if e == 'b' then Got(8 as char, b[2..])
      else if e == 't' then Got(9 as char, b[2..])
      else if e == 'n' then Got(10 as char, b[2..])
      else if e == 'f' then Got(12 as char, b[2..])
      else if e == 'r' then Got(13 as char, b[2..])
      else if e == 'u' then ReadUnits(b[2..])
      else Fail
  }

  /** The characters up to the closing quote. */
  function ReadChars(b: Octets): (r: Read<string>)
    ensures r.Got? ==> |r.rest| < |b|
    decreases |b|
  {
    if b == [] then Fail
    else if b[0] == '\"' as int then Got("", b[1..])
    else
      match ReadChar(b)
      case Fail => Fail
      case Got(c, after) =>
        match ReadChars(after)
        case Fail => Fail
        case Got(s, rest) => Got([c] + s, rest)
  }

  // ----- numbers

  predicate IsDigit(b: Byte) {
    '0' as int <= b <= '9' as int
  }

  /** The decimal digits from here on, after those already read. */
  function ReadDigits(b: Octets, soFar: nat): (r: Read<nat>)
    ensures r.Got? && |r.rest| <= |b|
    decreases |b|
  {
    if b == [] || !IsDigit(b[0]) then Got(soFar, b) else ReadDigits(b[1..], soFar * 10 + (b[0] - '0' as int))
  }

  function ReadNumber(b: Octets): (r: Read<int>)
    ensures r.Got? ==> |r.rest| < |b|
  {
    if b == [] then Fail
    else if b[0] == '-' as int && |b| >= 2 && IsDigit(b[1]) then
      var d := ReadDigits(b[1..], 0);
      var n: int := d.value;
      Got(-n, d.rest)
    else if IsDigit(b[0]) then
      var d := ReadDigits(b[1..], b[0] - '0' as int);
      Got(d.value, d.rest)
    else Fail
  }

  // ----- values

  function ReadWord(b: Octets, word: Octets, v: Value): (r: Read<Value>)
    requires word != []
    ensures r.Got? ==> |r.rest| < |b|
  {
    if word <= b then Got(v, b[|word|..]) else Fail
  }

  function ReadValue(b: Octets): (r: Read<Value>)
    ensures r.Got? ==> |r.rest| < |b|
    decreases |b|, 0
  {
    if b == [] then Fail
    else if b[0] == 'n' as int then ReadWord(b, ['n' as int, 'u' as int, 'l' as int, 'l' as int], Null)
    else if b[0] == 't' as int then ReadWord(b, ['t' as int, 'r' as int, 'u' as int, 'e' as int], Flag(true))
    else if b[0] == 'f' as int then ReadWord(b, ['f' as int, 'a' as int, 'l' as int, 's' as int, 'e' as int], Flag(false))
    else if b[0] == '\"' as int then
      match ReadChars(b[1..])
      case Fail => Fail
      case Got(s, rest) => Got(Text(s), rest)
    else if b[0] == '[' as int then
      if |b| >= 2 && b[1] == ']' as int then Got(List([]), b[2..])
      else
        match ReadItems(b[1..])
        case Fail => Fail
        case Got(items, rest) => Got(List(items), rest)
    else if b[0] == '{' as int then
      if |b| >= 2 && b[1] == '}' as int then Got(Object([]), b[2..])
      else
        match ReadEntries(b[1..])
        case Fail => Fail
        case Got(entries, rest) => Got(Object(entries), rest)
    else
      match ReadNumber(b)
      case Fail => Fail
      case Got(n, rest) => Got(Number(n), rest)
  }

  /** One item or more, up to the closing bracket. */
  function ReadItems(b: Octets): (r: Read<seq<Value>>)
    ensures r.Got? ==> |r.rest| < |b|
    decreases |b|, 1
  {
    match ReadValue(b)
    case Fail => Fail
    case Got(v, after) =>
      if after == [] then Fail
      else if after[0] == ']' as int then Got([v], after[1..])
      else if after[0] != ',' as int then Fail
      else
        match ReadItems(after[1..])
        case Fail => Fail
        case Got(items, rest) => Got([v] + items, rest)
  }

  function ReadEntries(b: Octets): (r: Read<seq<Entry>>)
    ensures r.Got? ==> |r.rest| < |b|
    decreases |b|, 1
  {
    if b == [] || b[0] != '\"' as int then Fail
    else
      match ReadChars(b[1..])
      case Fail => Fail
      case Got(key, colon) =>
        if colon == [] || colon[0] != ':' as int then Fail
        else
          match ReadValue(colon[1..])
          case Fail => Fail
          case Got(v, after) =>
            if after == [] then Fail
            else if after[0] == '}' as int then Got([Entry(key, v)], after[1..])
            else if after[0] != ',' as int then Fail
            else
              match ReadEntries(after[1..])
              case Fail => Fail
              case Got(entries, rest) => Got([Entry(key, v)] + entries, rest)
  }

  // ----- characters read back

  lemma CharOfChar(c: char)
    ensures CharOf(c as int) == Some(c)
  {
  }

  lemma TwoBytes(v: nat)
    requires 0x80 <= v < 0x800
    ensures 0xC2 <= 0xC0 + v / 64 < 0xE0 && (v / 64) * 64 + v % 64 == v
  {
  }

  lemma ThreeBytes(v: nat)
    requires 0x800 <= v < 0x1_0000
    ensures 0xE0 <= 0xE0 + v / 4096 < 0xF0 && (v / 4096) * 4096 + (v / 64 % 64) * 64 + v % 64 == v
  {
    assert v / 4096 == v / 64 / 64;
  }

  lemma FourBytes(v: nat)
    requires 0x1_0000 <= v < 0x11_0000
    ensures v / 262144 % 8 == v / 262144 && 0xF0 <= 0xF0 + v / 262144 < 0xF5
    ensures (v / 262144) * 262144 + (v / 4096 % 64) * 4096 + (v / 64 % 64) * 64 + v % 64 == v
  {
    assert v / 4096 == v / 64 / 64 && v / 262144 == v / 4096 / 64;
  }

  lemma TailRead(d: nat)
    requires d < 64
    ensures Tail(0x80 + d) == d
  {
  }

  lemma Utf8Read(c: char, rest: Octets)
    ensures ReadUtf8(Utf8(c) + rest) == Got(c, rest)
    ensures Utf8(c) != [] && (c as int >= 0x80 ==> Utf8(c)[0] >= 0x80)
  {
    var v := c as int;
    CharOfChar(c);
    hide CharOf, Tail;
    var b := Utf8(c) + rest;
    assert b[|Utf8(c)|..] == rest;
    if v >= 0x80 {
      TailRead(v % 64);
      TailRead(v / 64 % 64);
      TailRead(v / 4096 % 64);
    }
    if v >= 0x1_0000 {
      FourBytes(v);
    } else if v >= 0x800 {
      ThreeBytes(v);
    } else if v >= 0x80 {
      TwoBytes(v);
    }
  }

  lemma HexRead(d: nat)
    requires d < 16
    ensures HexValue(HexDigit(d)) == Some(d)
  {
  }

  lemma DigitsBase16(v: nat)
    ensures v == v / 4096 * 4096 + v / 256 % 16 * 256 + v / 16 % 16 * 16 + v % 16
  {
    assert v / 256 == v / 16 / 16 && v / 4096 == v / 256 / 16;
  }

  lemma UnitRead(v: nat, rest: Octets)
    requires v < 0x1_0000
    ensures Unit(v)[..2] == ['\\' as int, 'u' as int]
    ensures ReadUnit(Unit(v)[2..] + rest) == Got(v, rest)
  {
    var b := Unit(v)[2..] + rest;
    HexRead(v / 4096);
    HexRead(v / 256 % 16);
    HexRead(v / 16 % 16);
    HexRead(v % 16);
    DigitsBase16(v);
    hide HexDigit, HexValue;
    assert b[4..] == rest;
  }

  /** A written character reads back as itself and is never the closing quote. */
  lemma EscapedReads(c: char, rest: Octets)
    ensures ReadChar(Escaped(c) + rest) == Got(c, rest)
    ensures Escaped(c)[0] != '\"' as int
  {
    var v := c as int;
    var b := Escaped(c) + rest;
    if c == '\"' || c == '\\' || v == 8 || v == 9 || v == 10 || v == 12 || v == 13 {
      assert b[2..] == rest;
    } else if v < 0x20 {
      HexRead(v / 16);
      HexRead(v % 16);
      CharOfChar(c);
      assert b[2..] == [0x30, 0x30, HexDigit(v / 16), HexDigit(v % 16)] + rest;
      assert b[2..][4..] == rest;
      hide HexDigit, CharOf;
    } else {
      Utf8Read(c, rest);
      if v < 0x80 {
        assert b[0] == v;
      }
      hide ReadUtf8;
    }
  }

  lemma UnitsRead(v: nat, rest: Octets)
    requires v < 0x1_0000 && !(0xD800 <= v < 0xE000)
    ensures ReadUnits(Unit(v)[2..] + rest) == Got(v as char, rest)
  {
    UnitRead(v, rest);
    hide Unit, ReadUnit;
  }

  lemma PairRead(high: nat, low: nat, rest: Octets)
    requires 0xD800 <= high < 0xDC00 && 0xDC00 <= low < 0xE000
    ensures ReadUnits(Unit(high)[2..] + (Unit(low) + rest)) ==
      GotChar(0x1_0000 + (high - 0xD800) * 0x400 + (low - 0xDC00), rest)
  {
    UnitRead(high, Unit(low) + rest);
    UnitRead(low, rest);
    var after := Unit(low) + rest;
    assert after[0] == Unit(low)[..2][0] && after[1] == Unit(low)[..2][1];
    assert after[2..] == Unit(low)[2..] + rest;
    hide Unit, ReadUnit, GotChar;
  }

  lemma UnitEscapes(b: Octets, after: Octets)
    requires |b| >= 2 && b[0] == '\\' as int && b[1] == 'u' as int && b[2..] == after
    ensures ReadChar(b) == ReadUnits(after)
  {
    hide ReadUnits;
  }

  lemma UnitStarts(v: nat, rest: Octets)
    requires v < 0x1_0000
    ensures ReadChar(Unit(v) + rest) == ReadUnits(Unit(v)[2..] + rest) && Unit(v)[0] == '\\' as int
  {
    hide ReadUnits;
    UnitRead(v, rest);
    var b := Unit(v) + rest;
    assert b[0] == Unit(v)[..2][0] && b[1] == Unit(v)[..2][1];
    assert b[2..] == Unit(v)[2..] + rest;
    hide Unit;
    UnitEscapes(b, b[2..]);
  }

  lemma PairOf(v: nat)
    requires 0x1_0000 <= v < 0x11_0000
    ensures var high, low := 0xD800 + (v - 0x1_0000) / 0x400 % 0x400, 0xDC00 + (v - 0x1_0000) % 0x400;
      && 0xD800 <= high < 0xDC00 && 0xDC00 <= low < 0xE000
      && 0x1_0000 + (high - 0xD800) * 0x400 + (low - 0xDC00) == v
  {
  }

  lemma AsciiEscapedReads(c: char, rest: Octets)
    ensures ReadChar(AsciiEscaped(c) + rest) == Got(c, rest)
    ensures AsciiEscaped(c) != [] && AsciiEscaped(c)[0] != '\"' as int
  {
    hide Escaped, ReadChar, ReadUnits, Unit;
    var v := c as int;
    if v < 0x7F {
      EscapedReads(c, rest);
    } else if v < 0x1_0000 {
      UnitStarts(v, rest);
      UnitsRead(v, rest);
    } else {
      PairOf(v);
      var high, low := 0xD800 + (v - 0x1_0000) / 0x400 % 0x400, 0xDC00 + (v - 0x1_0000) % 0x400;
      UnitStarts(high, Unit(low) + rest);
      PairRead(high, low, rest);
      assert AsciiEscaped(c) + rest == Unit(high) + (Unit(low) + rest);
      CharOfChar(c);
    }
  }

  // ----- either way of writing

  function CharText(ascii: bool, c: char): Octets {
    if ascii then AsciiEscaped(c) else Escaped(c)
  }

  function CharsText(ascii: bool, s: string): Octets {
    if ascii then AsciiEscapedAll(s) else EscapedAll(s)
  }

  function ValueText(ascii: bool, v: Value): Octets {
    if ascii then AsciiDump(v) else Dump(v)
  }

  function ItemsText(ascii: bool, items: seq<Value>): Octets {
    if ascii then AsciiItems(items) else DumpItems(items)
  }

  function EntriesText(ascii: bool, entries: seq<Entry>): Octets {
    if ascii then AsciiEntries(entries) else DumpEntries(entries)
  }

  function QuoteText(ascii: bool, s: string): Octets {
    ['\"' as int] + CharsText(ascii, s) + ['\"' as int]
  }

  lemma CharReads(ascii: bool, c: char, rest: Octets)
    ensures ReadChar(CharText(ascii, c) + rest) == Got(c, rest)
    ensures CharText(ascii, c) != [] && CharText(ascii, c)[0] != '\"' as int
  {
    hide ReadChar, Escaped, AsciiEscaped;
    EscapedReads(c, rest);
    AsciiEscapedReads(c, rest);
  }

  lemma CharsStep(ascii: bool, s: string)
    ensures CharsText(ascii, s) == if s == [] then [] else CharText(ascii, s[0]) + CharsText(ascii, s[1..])
  {
    hide Escaped, AsciiEscaped;
  }

  /** A string literal reads back up to its closing quote. */
  lemma {:induction false} CharsRead(ascii: bool, s: string, rest: Octets)
    ensures ReadChars(CharsText(ascii, s) + (['\"' as int] + rest)) == Got(s, rest)
    decreases |s|
  {
    hide ReadChar, CharsText, CharText;
    CharsStep(ascii, s);
    var end := ['\"' as int] + rest;
    var b := CharsText(ascii, s) + end;
    if s == [] {
      assert b == end && end[1..] == rest;
    } else {
      var after := CharsText(ascii, s[1..]) + end;
      CharReads(ascii, s[0], after);
      assert b == CharText(ascii, s[0]) + after && b[0] == CharText(ascii, s[0])[0];
      CharsRead(ascii, s[1..], rest);
      assert s == [s[0]] + s[1..];
    }
  }

  lemma QuoteRead(ascii: bool, s: string, rest: Octets)
    ensures var b := QuoteText(ascii, s) + rest;
      b[0] == '\"' as int && ReadChars(b[1..]) == Got(s, rest)
  {
    hide ReadChars, CharsText;
    CharsRead(ascii, s, rest);
    var b := QuoteText(ascii, s) + rest;
    assert b[1..] == CharsText(ascii, s) + (['\"' as int] + rest);
  }

  // ----- numbers read back

  /** What may follow a value in a text. */
  predicate Delimited(rest: Octets) {
    rest != [] ==> !IsDigit(rest[0])
  }

  function Pow10(n: nat): nat {
    if n == 0 then 1 else 10 * Pow10(n - 1)
  }

  lemma {:induction false} DigitsRead(n: nat, soFar: nat, rest: Octets)
    ensures Digits(n) != [] && IsDigit(Digits(n)[0])
    ensures ReadDigits(Digits(n) + rest, soFar) == ReadDigits(rest, soFar * Pow10(|Digits(n)|) + n)
    decreases n
  {
    if n < 10 {
      var b := Digits(n) + rest;
      assert b[1..] == rest;
      assert Pow10(1) == 10;
    } else {
      var last := [48 + n % 10] + rest;
      DigitsRead(n / 10, soFar, last);
      assert Digits(n) + rest == Digits(n / 10) + last;
      assert last[1..] == rest;
      var k := |Digits(n / 10)|;
      assert Pow10(k + 1) == 10 * Pow10(k);
      TenTimes(soFar, Pow10(k), n / 10, n % 10);
      hide Digits, Pow10;
    }
  }

  lemma TenTimes(a: nat, p: nat, q: nat, r: nat)
    ensures (a * p + q) * 10 + r == a * (10 * p) + (q * 10 + r)
  {
  }

  lemma DigitsStop(m: nat, rest: Octets)
    requires Delimited(rest)
    ensures ReadDigits(Digits(m) + rest, 0) == Got(m, rest)
    ensures Digits(m) != [] && IsDigit(Digits(m)[0])
  {
    hide Digits, Pow10;
    DigitsRead(m, 0, rest);
  }

  lemma FirstDigit(b: Octets)
    requires b != [] && IsDigit(b[0])
    ensures ReadNumber(b) == Got(ReadDigits(b, 0).value, ReadDigits(b, 0).rest)
  {
    assert ReadDigits(b, 0) == ReadDigits(b[1..], b[0] - 48);
    hide ReadDigits;
  }

  lemma FirstMinus(b: Octets)
    requires |b| >= 2 && b[0] == '-' as int && IsDigit(b[1])
    ensures var n: int := ReadDigits(b[1..], 0).value; ReadNumber(b) == Got(-n, ReadDigits(b[1..], 0).rest)
  {
    hide ReadDigits;
  }

  lemma NumberRead(n: int, rest: Octets)
    requires Delimited(rest)
    ensures ReadNumber(Decimal(n) + rest) == Got(n, rest)
    ensures Decimal(n)[0] == '-' as int || IsDigit(Decimal(n)[0])
  {
    hide Digits, ReadDigits, ReadNumber;
    var m: nat := if n < 0 then -n else n;
    var b := Decimal(n) + rest;
    DigitsStop(m, rest);
    if n < 0 {
      assert b[1..] == Digits(m) + rest;
      FirstMinus(b);
    } else {
      assert b == Digits(m) + rest;
      FirstDigit(b);
    }
  }

  // ----- values read back

  lemma WordsDiffer()
    ensures NULL == ['n' as int, 'u' as int, 'l' as int, 'l' as int]
    ensures TRUE == ['t' as int, 'r' as int, 'u' as int, 'e' as int]
    ensures FALSE == ['f' as int, 'a' as int, 'l' as int, 's' as int, 'e' as int]
  {
  }

  lemma WordRead(word: Octets, v: Value, rest: Octets)
    requires word != []
    ensures ReadWord(word + rest, word, v) == Got(v, rest)
  {
    assert (word + rest)[|word|..] == rest;
  }

  lemma ScalarRead(ascii: bool, v: Value, rest: Octets)
    requires v.Null? || v.Flag? || v.Number? || v.Text?
    requires Delimited(rest)
    ensures ReadValue(ValueText(ascii, v) + rest) == Got(v, rest)
    ensures ValueText(ascii, v) != [] && ValueText(ascii, v)[0] != ']' as int
  {
    hide ReadChars, ReadNumber, ReadItems, ReadEntries, Decimal, ReadWord, CharsText;
    WordsDiffer();
    match v
    case Null => WordRead(NULL, v, rest);
    case Flag(f) => WordRead(if f then TRUE else FALSE, v, rest);
    case Number(n) =>
      NumberRead(n, rest);
    case Text(s) =>
      QuoteRead(ascii, s, rest);
      assert ValueText(ascii, v) == QuoteText(ascii, s) by { QuoteIs(ascii, s); }
  }

  lemma QuoteIs(ascii: bool, s: string)
    ensures ValueText(ascii, Text(s)) == QuoteText(ascii, s)
    ensures (if ascii then AsciiQuote(s) else Quote(s)) == QuoteText(ascii, s)
  {
  }

  /** The texts of items and entries, one and the rest. */
  lemma ItemsStep(ascii: bool, items: seq<Value>)
    requires items != []
    ensures ItemsText(ascii, items) ==
      ValueText(ascii, items[0]) + (if |items| == 1 then [] else [',' as int] + ItemsText(ascii, items[1..]))
  {
    hide Dump, AsciiDump;
  }

  lemma EntriesStep(ascii: bool, entries: seq<Entry>)
    requires entries != []
    ensures EntriesText(ascii, entries) ==
      QuoteText(ascii, entries[0].key) + [':' as int] + ValueText(ascii, entries[0].value)
        + (if |entries| == 1 then [] else [',' as int] + EntriesText(ascii, entries[1..]))
  {
    QuoteIs(ascii, entries[0].key);
    hide Dump, AsciiDump, Quote, AsciiQuote, QuoteText;
  }

  lemma ListIs(ascii: bool, items: seq<Value>)
    ensures ValueText(ascii, List(items)) == ['[' as int] + ItemsText(ascii, items) + [']' as int]
  {
  }

  lemma ObjectIs(ascii: bool, entries: seq<Entry>)
    ensures ValueText(ascii, Object(entries)) == ['{' as int] + EntriesText(ascii, entries) + ['}' as int]
  {
  }

  lemma ItemsReadOn(b: Octets, v: Value, after: Octets)
    requires ReadValue(b) == Got(v, after) && after != []
    ensures after[0] == ']' as int ==> ReadItems(b) == Got([v], after[1..])
    ensures after[0] == ',' as int && ReadItems(after[1..]).Got? ==>
      ReadItems(b) == Got([v] + ReadItems(after[1..]).value, ReadItems(after[1..]).rest)
  {
    hide ReadValue;
  }

  lemma {:induction false} ItemsRead(ascii: bool, items: seq<Value>, rest: Octets)
    requires items != []
    ensures ReadItems(ItemsText(ascii, items) + ([']' as int] + rest)) == Got(items, rest)
    ensures ItemsText(ascii, items) != [] && ItemsText(ascii, items)[0] != ']' as int
    decreases items, 0
  {
    hide ReadValue, ReadItems, ValueText, ItemsText;
    ItemsStep(ascii, items);
    var end := [']' as int] + rest;
    var b := ItemsText(ascii, items) + end;
    if |items| == 1 {
      ValueReads(ascii, items[0], end);
      assert b == ValueText(ascii, items[0]) + end && end[1..] == rest;
      ItemsReadOn(b, items[0], end);
      assert items == [items[0]];
    } else {
      var more := ItemsText(ascii, items[1..]) + end;
      var after := [',' as int] + more;
      ValueReads(ascii, items[0], after);
      ItemsRead(ascii, items[1..], rest);
      assert b == ValueText(ascii, items[0]) + after && after[1..] == more;
      ItemsReadOn(b, items[0], after);
      assert items == [items[0]] + items[1..];
    }
  }

  lemma EntriesReadOn(b: Octets, key: string, colon: Octets, v: Value, after: Octets)
    requires b != [] && b[0] == '\"' as int && ReadChars(b[1..]) == Got(key, colon)
    requires colon != [] && colon[0] == ':' as int && ReadValue(colon[1..]) == Got(v, after) && after != []
    ensures after[0] == '}' as int ==> ReadEntries(b) == Got([Entry(key, v)], after[1..])
    ensures after[0] == ',' as int && ReadEntries(after[1..]).Got? ==>
      ReadEntries(b) == Got([Entry(key, v)] + ReadEntries(after[1..]).value, ReadEntries(after[1..]).rest)
  {
    hide ReadValue, ReadChars;
  }

  lemma {:induction false} EntriesRead(ascii: bool, entries: seq<Entry>, rest: Octets)
    requires entries != []
    ensures ReadEntries(EntriesText(ascii, entries) + (['}' as int] + rest)) == Got(entries, rest)
    ensures EntriesText(ascii, entries) != [] && EntriesText(ascii, entries)[0] == '\"' as int
    decreases entries, 0
  {
    hide ReadValue, ReadChars, ReadEntries, ValueText, EntriesText, CharsText;
    EntriesStep(ascii, entries);
    var e := entries[0];
    var end := ['}' as int] + rest;
    var b := EntriesText(ascii, entries) + end;
    var more := EntriesText(ascii, entries[1..]) + end;
    var after := if |entries| == 1 then end else [',' as int] + more;
    var colon := [':' as int] + (ValueText(ascii, e.value) + after);
    assert b == QuoteText(ascii, e.key) + colon;
    QuoteRead(ascii, e.key, colon);
    assert colon[1..] == ValueText(ascii, e.value) + after;
    ValueReads(ascii, e.value, after);
    EntriesReadOn(b, e.key, colon, e.value, after);
    if |entries| == 1 {
      assert after[1..] == rest && entries == [e];
    } else {
      EntriesRead(ascii, entries[1..], rest);
      assert after[1..] == more && entries == [e] + entries[1..];
    }
  }

  /** Whatever is written, in either way, reads back as itself, whatever follows it. */
  lemma {:induction false} ValueReads(ascii: bool, v: Value, rest: Octets)
    requires Delimited(rest)
    ensures ReadValue(ValueText(ascii, v) + rest) == Got(v, rest)
    ensures ValueText(ascii, v) != [] && ValueText(ascii, v)[0] != ']' as int
    decreases v, 1
  {
    hide ReadChars, ReadItems, ReadEntries, ReadNumber, ItemsText, EntriesText, ValueText, ReadWord;
    match v {
      case List(items) =>
        ListIs(ascii, items);
        var b := ValueText(ascii, v) + rest;
        if items == [] {
          NoText(ascii);
          assert b[2..] == rest;
        } else {
          ItemsRead(ascii, items, rest);
          assert b[1..] == ItemsText(ascii, items) + ([']' as int] + rest);
        }
      case Object(entries) =>
        ObjectIs(ascii, entries);
        var b := ValueText(ascii, v) + rest;
        if entries == [] {
          NoText(ascii);
          assert b[2..] == rest;
        } else {
          EntriesRead(ascii, entries, rest);
          assert b[1..] == EntriesText(ascii, entries) + (['}' as int] + rest);
        }
      case _ =>
        ScalarRead(ascii, v, rest);
    }
  }

  lemma NoText(ascii: bool)
    ensures ItemsText(ascii, []) == [] && EntriesText(ascii, []) == []
  {
  }

  // ----- what the text determines

  /** The text of a value, with or without a line feed after it, determines the value. */
  lemma DumpInjective(v: Value, w: Value)
    requires Dump(v) == Dump(w) || AsciiDump(v) == AsciiDump(w)
    ensures v == w
  {
    hide Dump, AsciiDump, ReadValue;
    assert Dump(v) + [] == Dump(v) && Dump(w) + [] == Dump(w);
    assert AsciiDump(v) + [] == AsciiDump(v) && AsciiDump(w) + [] == AsciiDump(w);
    ValueReads(false, v, []);
    ValueReads(false, w, []);
    ValueReads(true, v, []);
    ValueReads(true, w, []);
  }
}
