/** Normalising keeps the words of a text and joins them by single blanks. */
module AbiWords {
  import opened AbiText
  import opened AbiTypes
  import opened AbiTypeLaws
  import opened AbiTypeRuns

  /** The words when one more character is read behind a text. */
  function Extend(words: seq<string>, s: string, c: char): seq<string> {
    if IsSpace(c) then words
    else if s == "" || EndsInSpace(s) || words == [] then words + [[c]]
    else words[..|words| - 1] + [words[|words| - 1] + [c]]
  }

  /** The maximal runs without whitespace, in order. */
  function Words(s: string): seq<string> {
    if s == "" then [] else Extend(Words(s[..|s| - 1]), s[..|s| - 1], s[|s| - 1])
  }

  /** Words with one blank between two. */
  function Joined(words: seq<string>): string {
    if words == [] then ""
    else
      var n := |words| - 1;
      Joined(words[..n]) + (if n == 0 then "" else [' ']) + words[n]
  }

  lemma WordsOne(s: string, c: char)
    ensures Words(s + [c]) == Extend(Words(s), s, c)
  {
    hide Extend;
    assert (s + [c])[..|s|] == s;
  }

  lemma {:induction false} SqueezedWords(s: string)
    ensures Words(Squeezed(s)) == Words(s)
  {
    hide IsSpace, Words, Squeezed;
    BlankIsSpace();
    if s == "" {
      SqueezedEnds(s);
    } else {
      var t, c := s[..|s| - 1], s[|s| - 1];
      assert s == t + [c];
      SqueezedWords(t);
      SqueezedOne(t, c);
      SqueezedSingle(t);
      SqueezedEnds(t);
      WordsOne(t, c);
      WordsOne(Squeezed(t), c);
      WordsOne(Squeezed(t), ' ');
    }
  }

  lemma {:induction false} LeadingSpace(c: char, s: string)
    requires IsSpace(c)
    ensures Words([c] + s) == Words(s)
  {
    hide IsSpace, Words;
    if s == "" {
      WordsOne("", c);
      assert [c] + "" == "" + [c];
    } else {
      var t, d := s[..|s| - 1], s[|s| - 1];
      LeadingSpace(c, t);
      assert s == t + [d] && [c] + s == ([c] + t) + [d];
      WordsOne(t, d);
      WordsOne([c] + t, d);
      assert EndsInSpace([c] + t) <==> t == "" || EndsInSpace(t) by { assert t != "" ==> ([c] + t)[|t|] == t[|t| - 1]; }
    }
  }

  lemma {:induction false} TrimStartWords(s: string)
    ensures Words(TrimStart(s)) == Words(s)
  {
    hide IsSpace, Words;
    if s != "" && IsSpace(s[0]) {
      TrimStartWords(s[1..]);
      LeadingSpace(s[0], s[1..]);
      assert s == [s[0]] + s[1..];
    }
  }

  lemma {:induction false} TrimEndWords(s: string)
    ensures Words(TrimEnd(s)) == Words(s)
  {
    hide IsSpace, Words;
    if EndsInSpace(s) {
      TrimEndWords(s[..|s| - 1]);
      WordsOne(s[..|s| - 1], s[|s| - 1]);
      assert s == s[..|s| - 1] + [s[|s| - 1]];
    }
  }

  lemma {:induction false} DropWords(s: string)
    ensures Words(DropSpacesAtEnd(s)) == Words(s)
  {
    hide Words;
    BlankIsSpace();
    hide IsSpace;
    if s != "" && s[|s| - 1] == ' ' {
      DropWords(s[..|s| - 1]);
      WordsOne(s[..|s| - 1], ' ');
      assert s == s[..|s| - 1] + [' '];
    }
  }

  lemma NormalizedWords(s: string, size: nat)
    requires |Squeezed(s)| < size
    ensures Words(Normalized(s, size)) == Words(s)
  {
    hide IsSpace, Words, Squeezed, TrimStart, TrimEnd, DropSpacesAtEnd;
    SqueezedWords(s);
    DropWords(Squeezed(s));
    TrimStartWords(Collapsed(s, size));
    TrimEndWords(TrimStart(Collapsed(s, size)));
  }

  lemma JoinedOne(words: seq<string>, w: string)
    ensures Joined(words + [w]) == Joined(words) + (if words == [] then "" else [' ']) + w
  {
    assert (words + [w])[..|words|] == words;
  }

  /** The words joined so far, up to a blank at the end. */
  predicate JoinsTo(s: string) {
    Joined(Words(s)) == DropSpacesAtEnd(s) && (s != "" ==> Words(s) != [])
  }

  lemma JoinBlank(t: string)
    requires JoinsTo(t) && t != "" && !EndsBlank(t)
    ensures JoinsTo(t + [' '])
  {
    BlankIsSpace();
    hide IsSpace, Words, Joined, DropSpacesAtEnd;
    WordsOne(t, ' ');
    DropBlank(t);
  }

  lemma JoinNewWord(t: string, c: char)
    requires JoinsTo(t) && !IsSpace(c) && (t == "" || EndsBlank(t)) && (t != "" ==> !EndsBlank(t[..|t| - 1]))
    ensures JoinsTo(t + [c])
  {
    BlankIsSpace();
    hide IsSpace, Words, Joined, DropSpacesAtEnd;
    WordsOne(t, c);
    DropNone(t + [c]);
    JoinedOne(Words(t), [c]);
    if t == "" {
      NoWords();
      NothingJoined();
    } else {
      var u := t[..|t| - 1];
      assert t == u + [' '];
      DropBlank(u);
    }
  }

  lemma JoinLetter(t: string, c: char)
    requires JoinsTo(t) && !IsSpace(c) && t != "" && !EndsInSpace(t)
    ensures JoinsTo(t + [c])
  {
    BlankIsSpace();
    var w := Words(t);
    assert t[|t| - 1] != ' ';
    hide IsSpace, Words, Joined, DropSpacesAtEnd;
    WordsOne(t, c);
    DropNone(t);
    DropNone(t + [c]);
    var front, last := w[..|w| - 1], w[|w| - 1];
    assert w == front + [last];
    JoinedOne(front, last);
    JoinedOne(front, last + [c]);
    var gap := if front == [] then "" else [' '];
    assert Joined(front) + gap + (last + [c]) == (Joined(front) + gap + last) + [c];
  }

  lemma JoinNothing()
    ensures JoinsTo("")
  {
  }

  lemma SingleEnds(t: string, c: char)
    requires Single(t + [c])
    ensures Single(t) && (IsSpace(c) ==> c == ' ') && (c == ' ' ==> !EndsBlank(t))
    ensures EndsInSpace(t) <==> EndsBlank(t)
    ensures EndsBlank(t) ==> !EndsBlank(t[..|t| - 1])
  {
    BlankIsSpace();
    var s := t + [c];
    SinglePart(s, 0, |t|);
    assert s[0..|t|] == t;
    hide IsSpace;
    assert s[|t|] == c;
    assert |t| >= 1 ==> s[|t| - 1] == t[|t| - 1];
    assert |t| >= 2 ==> t[..|t| - 1][|t| - 2] == t[|t| - 2];
    assert EndsBlank(t) ==> EndsInSpace(t);
  }

  /** Text of single blanks that does not begin with one is its words joined, up to a blank at its end. */
  lemma {:induction false} JoinedWords(s: string)
    requires Single(s) && (s != "" ==> !IsSpace(s[0]))
    ensures JoinsTo(s)
  {
    hide IsSpace, JoinsTo, Single, EndsBlank, EndsInSpace;
    if s == "" {
      JoinNothing();
    } else {
      var t, c := s[..|s| - 1], s[|s| - 1];
      assert s == t + [c];
      SingleEnds(t, c);
      JoinedWords(t);
      BlankIsSpace();
      if c == ' ' {
        assert t != "";
        JoinBlank(t);
      } else if t == "" {
        JoinNewWord(t, c);
      } else if EndsBlank(t) {
        JoinNewWord(t, c);
      } else {
        JoinLetter(t, c);
      }
    }
  }

  lemma NoWords()
    ensures Words("") == []
  {
  }

  lemma NothingJoined()
    ensures Joined([]) == ""
  {
  }

  /** Normalising a text that fits joins its words by single blanks. */
  lemma NormalizedJoins(s: string, size: nat)
    requires |Squeezed(s)| < size
    ensures Normalized(s, size) == Joined(Words(s))
  {
    hide Words, Joined, Squeezed, Normalized, Single;
    NormalizedWords(s, size);
    NormalizedIsNormal(s, size);
    var n := Normalized(s, size);
    JoinedWords(n);
    BlankIsSpace();
    DropNone(n);
  }

  // ----- types without qualifiers

  /** The characters that are no whitespace. */
  function Ink(s: string): string {
    if s == "" then ""
    else Ink(s[..|s| - 1]) + (if IsSpace(s[|s| - 1]) then "" else [s[|s| - 1]])
  }

  lemma InkOne(s: string, c: char)
    ensures Ink(s + [c]) == Ink(s) + (if IsSpace(c) then "" else [c])
  {
    assert (s + [c])[..|s|] == s;
  }

  lemma {:induction false} InkOf(a: string, b: string)
    ensures Ink(a + b) == Ink(a) + Ink(b)
  {
    hide IsSpace, Ink;
    if b == "" {
      assert a + b == a;
      NoInk();
    } else {
      var c, d := b[..|b| - 1], b[|b| - 1];
      InkOf(a, c);
      InkOne(a + c, d);
      InkOne(c, d);
      assert a + b == a + c + [d] && b == c + [d];
    }
  }

  lemma NoInk()
    ensures Ink("") == ""
  {
  }

  lemma {:induction false} SqueezedInk(s: string)
    ensures Ink(Squeezed(s)) == Ink(s)
  {
    hide IsSpace, Ink, Squeezed;
    BlankIsSpace();
    if s == "" {
      SqueezedEnds(s);
    } else {
      var t, c := s[..|s| - 1], s[|s| - 1];
      assert s == t + [c];
      SqueezedInk(t);
      SqueezedOne(t, c);
      InkOne(t, c);
      InkOne(Squeezed(t), c);
      InkOne(Squeezed(t), ' ');
      assert Ink(t) + "" == Ink(t);
    }
  }

  lemma {:induction false} DropInk(s: string)
    ensures Ink(DropSpacesAtEnd(s)) == Ink(s)
  {
    BlankIsSpace();
    hide IsSpace, Ink;
    if s != "" && s[|s| - 1] == ' ' {
      DropInk(s[..|s| - 1]);
      InkOne(s[..|s| - 1], ' ');
      assert s == s[..|s| - 1] + [' '];
      assert Ink(s[..|s| - 1]) + "" == Ink(s[..|s| - 1]);
    }
  }

  lemma {:induction false} BlanksNoInk(b: string, i: nat, j: nat)
    requires i <= j <= |b| && forall k :: i <= k < j ==> b[k] == ' '
    ensures Ink(b[i..]) == Ink(b[j..])
    decreases j - i
  {
    BlankIsSpace();
    hide IsSpace, Ink;
    if i < j {
      BlanksNoInk(b, i + 1, j);
      assert b[i..] == [' '] + b[i + 1..];
      InkOf([' '], b[i + 1..]);
      InkOne("", ' ');
      NoInk();
      assert "" + [' '] == [' '];
    }
  }

  lemma InkStep(b: string, i: nat)
    requires i < |b|
    ensures Ink(b[i..]) == Ink([b[i]]) + Ink(b[i + 1..])
  {
    hide Ink;
    assert b[i..] == [b[i]] + b[i + 1..];
    InkOf([b[i]], b[i + 1..]);
  }

  lemma {:induction false} FreeInk(b: string, i: nat, out: string)
    requires i <= |b| && forall k :: i <= k <= |b| ==> !ConstAt(b, k)
    ensures Ink(Free(b, i, out, false)) == Ink(out) + Ink(b[i..])
    decreases |b| - i
  {
    hide IsSpace, Ink, ConstAt, DropSpacesAtEnd;
    if i == |b| {
      NoInk();
      assert b[i..] == "";
    } else if b[i] == '*' {
      var j := PastBlanks(b, i + 1);
      var o := DropSpacesAtEnd(out) + [' ', '*'];
      FreeInk(b, j, o);
      InkStep(b, i);
      PastBlanksStars(b, i + 1);
      BlanksNoInk(b, i + 1, j);
      DropInk(out);
      StarInk(DropSpacesAtEnd(out));
    } else {
      FreeInk(b, i + 1, out + [b[i]]);
      InkStep(b, i);
      InkOf(out, [b[i]]);
    }
  }

  lemma StarInk(o: string)
    ensures Ink(o + [' ', '*']) == Ink(o) + Ink(['*'])
  {
    BlankIsSpace();
    hide IsSpace, Ink;
    assert o + [' ', '*'] == (o + [' ']) + ['*'];
    InkOf(o + [' '], ['*']);
    InkOne(o, ' ');
    assert Ink(o) + "" == Ink(o);
  }

  /** A type without qualifiers keeps every character that is no blank, in order. */
  lemma PlainTypeKeepsInk(s: string)
    requires Roomy(s)
    requires var b := Normalized(s, TYPE_LEN); forall k :: 0 <= k <= |b| ==> !ConstAt(b, k)
    ensures Ink(NormalType(s)) == Ink(Normalized(s, TYPE_LEN))
  {
    hide Ink, Free, Squeezed, Normalized, DropSpacesAtEnd, NormalType, ConstAt;
    var b := Normalized(s, TYPE_LEN);
    StoredFits(s);
    var f := Free(b, 0, "", false);
    DropInk(Squeezed(f));
    SqueezedInk(f);
    FreeInk(b, 0, "");
    NoInk();
    assert b[0..] == b;
  }
}
