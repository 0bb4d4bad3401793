/** The normal form of typedef types, and the reading of identifiers. */
module AbiTypes {
  import opened AbiText

  const TYPE_LEN := 512

  predicate IsAlpha(c: char) {
    'a' <= c <= 'z' || 'A' <= c <= 'Z'
  }

  predicate IsIdentStart(c: char) {
    c == '_' || IsAlpha(c)
  }

  predicate IsIdentChar(c: char) {
    IsIdentStart(c) || '0' <= c <= '9'
  }

  /** Where the identifier characters from a position on end. */
  function IdentEnd(text: string, pos: nat): (end: nat)
    requires pos <= |text|
    ensures pos <= end <= |text|
    ensures forall i :: pos <= i < end ==> IsIdentChar(text[i])
    ensures end < |text| ==> !IsIdentChar(text[end])
    decreases |text| - pos
  {
    if pos < |text| && IsIdentChar(text[pos]) then IdentEnd(text, pos + 1) else pos
  }

  datatype Identifier = Unread | Read(name: string, next: nat)

  /** Reads a whole identifier and keeps as much of it as the buffer holds. */
  method ReadIdentifier(text: string, pos: nat, size: nat) returns (r: Identifier)
    requires pos <= |text|
    ensures r.Read? <==> pos < |text| && IsIdentStart(text[pos]) && size >= 2
    ensures r.Read? ==> var end := IdentEnd(text, pos);
      r.next == end && r.name == text[pos..if end < pos + size then end else pos + size - 1]
    ensures r.Read? ==> 0 < |r.name| < size
    ensures r.Read? ==> text[pos] == '_' || 'a' <= text[pos] <= 'z' || 'A' <= text[pos] <= 'Z'
    ensures pos < |text| && text[pos] == '_' && size >= 2 ==> r.Read?
  {
    if pos >= |text| || !IsIdentStart(text[pos]) {
      return Unread;
    }
    var name: string := "";
    var i := pos;
    while i < |text| && IsIdentChar(text[i])
      invariant pos <= i <= |text| && IdentEnd(text, i) == IdentEnd(text, pos)
      invariant name == if size == 0 then "" else text[pos..if i < pos + size then i else pos + size - 1]
      invariant i == pos ==> IsIdentChar(text[i])
    {
      if |name| + 1 < size {
        name := name + [text[i]];
      }
      i := i + 1;
    }
    if name == "" {
      return Unread;
    }
    return Read(name, i);
  }

  // ----- types

  function Qualifier(): (q: string)
    ensures |q| == 5
    ensures forall i :: 0 <= i < 5 ==> IsAlpha(q[i])
    ensures q[0] == 'c' && q[1] != 'c' && q[2] != 'c' && q[3] != 'c' && q[4] != 'c'
  {
    "const"
  }

  /** A qualifier that stands as a word of its own. */
  predicate ConstAt(b: string, i: nat)
    requires i <= |b|
  {
    && i + 5 <= |b| && b[i..i + 5] == Qualifier()
    && (i == 0 || IsSpace(b[i - 1]))
    && (i + 5 == |b| || IsSpace(b[i + 5]) || b[i + 5] == '*')
  }

  function PastBlanks(b: string, i: nat): (j: nat)
    requires i <= |b|
    ensures i <= j <= |b|
    decreases |b| - i
  {
    if i < |b| && b[i] == ' ' then PastBlanks(b, i + 1) else i
  }

  function WithStar(out: string): string {
    var o := DropSpacesAtEnd(out);
    if |o| + 2 < TYPE_LEN then o + [' ', '*'] else o
  }

  function WithConst(out: string): string {
    (if out == "" then "" else out + [' ']) + Qualifier()
  }

  /** Rebuilds a collapsed type from position i on: stars apart, a qualifier before what follows it. */
  function Rebuilt(b: string, i: nat, out: string, pending: bool): string
    requires i <= |b|
    decreases |b| - i
  {
    if i == |b| || |out| + 1 >= TYPE_LEN then out
    else if ConstAt(b, i) then Rebuilt(b, i + 5, out, true)
    else if b[i] == '*' then Rebuilt(b, PastBlanks(b, i + 1), WithStar(out), pending)
    else
      var o := if pending then WithConst(out) else out;
      if |o| + 1 < TYPE_LEN then Rebuilt(b, i + 1, o + [b[i]], false) else o
  }

  function NormalType(s: string): string {
    Collapsed(Rebuilt(Normalized(s, TYPE_LEN), 0, "", false), TYPE_LEN)
  }

  // ----- a type that changes when it is normalised again

  function Qualified(): string {
    "char const*const*"
  }

  /** What the table stores for it, and what the table would store for that. */
  function StoredOnce(): string {
    "char * constconst *"
  }

  function StoredAgain(): string {
    "char *constconst *"
  }

  lemma AtConst(b: string, i: nat, out: string, pending: bool)
    requires i <= |b| && ConstAt(b, i) && |out| + 1 < TYPE_LEN
    ensures Rebuilt(b, i, out, pending) == Rebuilt(b, i + 5, out, true)
  {
  }

  lemma AtStar(b: string, i: nat, out: string, pending: bool)
    requires i < |b| && b[i] == '*' && |out| + 1 < TYPE_LEN
    ensures Rebuilt(b, i, out, pending) == Rebuilt(b, PastBlanks(b, i + 1), WithStar(out), pending)
  {
  }

  lemma AtEnd(b: string, out: string, pending: bool)
    ensures Rebuilt(b, |b|, out, pending) == out
  {
  }

  /** A character that neither is a star nor begins a qualifier is copied after a pending one. */
  lemma AtOther(b: string, i: nat, out: string, pending: bool)
    requires i < |b| && b[i] != '*' && !ConstAt(b, i) && |out| + 8 < TYPE_LEN
    ensures Rebuilt(b, i, out, pending) == Rebuilt(b, i + 1, (if pending then WithConst(out) else out) + [b[i]], false)
  {
  }

  /** No qualifier can begin here. */
  predicate NoStart(b: string, k: nat)
    requires k < |b|
  {
    b[k] == 'c' ==> k > 0 && !IsSpace(b[k - 1])
  }

  lemma NoConstInWord(b: string, i: nat)
    requires i < |b| && NoStart(b, i)
    ensures !ConstAt(b, i)
  {
    hide IsSpace, Qualifier;
    if i + 5 <= |b| {
      assert b[i..i + 5][0] == b[i];
    }
  }

  /** A run inside a word is copied. */
  lemma {:induction false} Copies(b: string, i: nat, j: nat, out: string)
    requires i <= j <= |b| && |out| + (j - i) + 8 < TYPE_LEN
    requires forall k :: i <= k < j ==> b[k] != '*' && NoStart(b, k)
    ensures Rebuilt(b, i, out, false) == Rebuilt(b, j, out + b[i..j], false)
    decreases j - i
  {
    hide Rebuilt, IsSpace, NoStart;
    if i < j {
      NoConstInWord(b, i);
      AtOther(b, i, out, false);
      Copies(b, i + 1, j, out + [b[i]]);
      assert out + [b[i]] + b[i + 1..j] == out + b[i..j];
    } else {
      assert out + b[i..j] == out;
    }
  }

  lemma FirstWord(b: string)
    requires |b| >= 5 && b[..5] == "char "
    ensures Rebuilt(b, 0, "", false) == Rebuilt(b, 5, "char ", false)
  {
    hide Rebuilt;
    assert b[0] == 'c' && b[1] == 'h' && b[2] == 'a' && b[3] == 'r' && b[4] == ' ';
    assert !ConstAt(b, 0) by {
      assert |b| >= 5 ==> b[0..5][1] != "const"[1];
    }
    AtOther(b, 0, "", false);
    assert "" + [b[0]] == "c";
    Copies(b, 1, 5, "c");
    assert b[1..5] == "har ";
    assert "c" + b[1..5] == "char ";
  }

  lemma FirstQualifier()
    ensures Rebuilt(Qualified(), 5, "char ", false) == Rebuilt(Qualified(), 11, "char *", true)
  {
    hide Rebuilt;
    var b := Qualified();
    assert b[5..10] == "const";
    AtConst(b, 5, "char ", false);
    AtStar(b, 10, "char ", true);
    assert WithStar("char ") == "char *";
  }

  lemma SecondQualifier()
    ensures Rebuilt(Qualified(), 11, "char *", true) == Rebuilt(Qualified(), 16, "char * constconst", false)
  {
    hide Rebuilt;
    var b := Qualified();
    AtOther(b, 11, "char *", true);
    assert WithConst("char *") == "char * const";
    assert WithConst("char *") + [b[11]] == "char * constc";
    Copies(b, 12, 16, "char * constc");
    assert b[11] == 'c' && b[12] == 'o' && b[13] == 'n' && b[14] == 's' && b[15] == 't';
    assert b[12..16] == "onst";
    assert "char * constc" + b[12..16] == "char * constconst";
  }

  lemma FirstPass()
    ensures Rebuilt(Qualified(), 0, "", false) == StoredOnce()
  {
    hide Rebuilt;
    var b := Qualified();
    FirstWord(b);
    FirstQualifier();
    SecondQualifier();
    AtStar(b, 16, "char * constconst", false);
    assert WithStar("char * constconst") == "char * constconst *";
    AtEnd(b, "char * constconst *", false);
  }

  lemma StoredStar()
    ensures Rebuilt(StoredOnce(), 5, "char ", false) == Rebuilt(StoredOnce(), 7, "char *", false)
  {
    hide Rebuilt;
    var b := StoredOnce();
    AtStar(b, 5, "char ", false);
    assert WithStar("char ") == "char *";
    assert PastBlanks(b, 6) == 7;
  }

  lemma StoredRun()
    ensures Rebuilt(StoredOnce(), 7, "char *", false) == Rebuilt(StoredOnce(), 18, "char *constconst ", false)
  {
    hide Rebuilt;
    var b := StoredOnce();
    assert b[7] == 'c' && b[8] == 'o' && b[9] == 'n' && b[10] == 's' && b[11] == 't' && b[12] == 'c';
    assert b[13] == 'o' && b[14] == 'n' && b[15] == 's' && b[16] == 't' && b[17] == ' ';
    AtOther(b, 7, "char *", false);
    assert "char *" + [b[7]] == "char *c";
    Copies(b, 8, 18, "char *c");
    assert b[8..18] == "onstconst ";
    assert "char *c" + b[8..18] == "char *constconst ";
  }

  lemma SecondPass()
    ensures Rebuilt(StoredOnce(), 0, "", false) == StoredAgain()
  {
    hide Rebuilt;
    var b := StoredOnce();
    FirstWord(b);
    StoredStar();
    StoredRun();
    AtStar(b, 18, "char *constconst ", false);
    assert WithStar("char *constconst ") == "char *constconst *";
    AtEnd(b, "char *constconst *", false);
  }

  lemma Written()
    ensures Normal(Qualified(), TYPE_LEN) && Normal(StoredOnce(), TYPE_LEN) && Normal(StoredAgain(), TYPE_LEN)
  {
  }

  /** A pointer to a constant pointer to constant text is not stored in normal form. */
  lemma TypeNormalisingIsNotIdempotent()
    ensures NormalType(Qualified()) == StoredOnce() && NormalType(StoredOnce()) == StoredAgain()
    ensures StoredOnce() != StoredAgain()
  {
    hide Qualified, StoredOnce, StoredAgain, Rebuilt, Normal, Normalized, Collapsed;
    Written();
    FirstPass();
    SecondPass();
    StoredDiffer();
    NormalIff(Qualified(), TYPE_LEN);
    NormalIff(StoredOnce(), TYPE_LEN);
    CollapsedNormal(StoredOnce());
    CollapsedNormal(StoredAgain());
  }

  lemma StoredDiffer()
    ensures StoredOnce() != StoredAgain()
  {
    assert StoredOnce()[6] != StoredAgain()[6];
  }

  lemma CollapsedNormal(s: string)
    requires Normal(s, TYPE_LEN)
    ensures Collapsed(s, TYPE_LEN) == s
  {
    SingleSqueezes(s);
  }
}
