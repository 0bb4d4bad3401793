/** Which types have a normal form that is in normal form. */
module AbiTypeRuns {
  import opened AbiText
  import opened AbiTypes
  import opened AbiTypeLaws

  /** Rebuilding in a buffer without an end. */
  function Free(b: string, i: nat, out: string, pending: bool): string
    requires i <= |b|
    decreases |b| - i
  {
    if i == |b| then out
    else if ConstAt(b, i) then Free(b, i + 5, out, true)
    else if b[i] == '*' then Free(b, PastBlanks(b, i + 1), DropSpacesAtEnd(out) + [' ', '*'], pending)
    else Free(b, i + 1, (if pending then WithConst(out) else out) + [b[i]], false)
  }

  /** The text written for a type fits the buffer. */
  predicate Roomy(s: string) {
    |Free(Normalized(s, TYPE_LEN), 0, "", false)| < TYPE_LEN
  }

  /** A qualifier followed by stars only is written right before the word that comes next. */
  predicate Glued(b: string, i: nat, pending: bool)
    requires i <= |b|
    decreases |b| - i
  {
    if i == |b| then false
    else if ConstAt(b, i) then Glued(b, i + 5, true)
    else if b[i] == '*' then Glued(b, PastBlanks(b, i + 1), pending)
    else (pending && b[i] != ' ') || Glued(b, i + 1, false)
  }

  /** The text ends with two qualifiers in a row. */
  predicate EndsTwice(b: string) {
    && |b| >= 11 && b[|b| - 6] == ' '
    && ConstAt(b, |b| - 11) && ConstAt(b, |b| - 5)
  }

  // ----- the two forms of rebuilding

  /** No blank is copied behind a blank. */
  predicate Even(b: string, i: nat, out: string, pending: bool)
    requires i <= |b|
  {
    && Plain(out)
    && (!pending && EndsBlank(out) ==> i > 0 && b[i - 1] == ' ')
  }

  lemma EvenCopy(b: string, i: nat, out: string, pending: bool)
    requires Single(b) && i < |b| && Even(b, i, out, pending)
    ensures var o := (if pending then WithConst(out) else out) + [b[i]]; Even(b, i + 1, o, false) && |o| > |out|
  {
    hide IsSpace, Plain;
    PlainConst(out);
    PlainOne(if pending then WithConst(out) else out, b[i]) by { assert i > 0 && b[i - 1] == ' ' ==> b[i] != ' '; }
  }

  lemma PlainConst(out: string)
    requires Plain(out)
    ensures Plain(WithConst(out)) && !EndsBlank(WithConst(out)) && |WithConst(out)| >= |out|
  {
    BlankIsSpace();
    hide IsSpace;
    var q := Qualifier();
    hide Qualifier;
  }

  lemma EvenStar(out: string)
    requires Plain(out)
    ensures var o := DropSpacesAtEnd(out) + [' ', '*']; Plain(o) && !EndsBlank(o) && |o| > |out|
  {
    hide Plain, DropSpacesAtEnd;
    PlainStar(out);
    SqueezedDrop(out);
  }

  lemma {:induction false} FreeGrows(b: string, i: nat, out: string, pending: bool)
    requires i <= |b| && Single(b) && Even(b, i, out, pending)
    ensures |Free(b, i, out, pending)| >= |out|
    decreases |b| - i
  {
    hide ConstAt, Single, Plain, WithConst, DropSpacesAtEnd;
    if i == |b| {
    } else if ConstAt(b, i) {
      ConstEnd(b, i);
      FreeGrows(b, i + 5, out, true);
    } else if b[i] == '*' {
      EvenStar(out);
      FreeGrows(b, PastBlanks(b, i + 1), DropSpacesAtEnd(out) + [' ', '*'], pending);
    } else {
      EvenCopy(b, i, out, pending);
      FreeGrows(b, i + 1, (if pending then WithConst(out) else out) + [b[i]], false);
    }
  }

  /** What fits the buffer is written as without one. */
  lemma {:induction false} FreeIsRebuilt(b: string, i: nat, out: string, pending: bool)
    requires i <= |b| && Single(b) && Even(b, i, out, pending)
    requires |Free(b, i, out, pending)| < TYPE_LEN
    ensures Rebuilt(b, i, out, pending) == Free(b, i, out, pending)
    decreases |b| - i
  {
    hide ConstAt, Single, Plain, WithConst, DropSpacesAtEnd;
    FreeGrows(b, i, out, pending);
    if i == |b| {
    } else if ConstAt(b, i) {
      ConstEnd(b, i);
      FreeIsRebuilt(b, i + 5, out, true);
    } else if b[i] == '*' {
      EvenStar(out);
      var j := PastBlanks(b, i + 1);
      FreeGrows(b, j, DropSpacesAtEnd(out) + [' ', '*'], pending);
      FreeIsRebuilt(b, j, DropSpacesAtEnd(out) + [' ', '*'], pending);
    } else {
      EvenCopy(b, i, out, pending);
      var o := (if pending then WithConst(out) else out) + [b[i]];
      FreeGrows(b, i + 1, o, false);
      FreeIsRebuilt(b, i + 1, o, false);
    }
  }

  // ----- a qualifier written before a word

  predicate EndsStar(s: string) {
    s != "" && s[|s| - 1] == '*'
  }

  lemma {:induction false} FreeKeeps(w: string, b: string, i: nat, out: string, pending: bool)
    requires i <= |b| && w <= out && w != "" && !EndsBlank(w)
    ensures w <= Free(b, i, out, pending)
    decreases |b| - i
  {
    hide ConstAt, DropSpacesAtEnd;
    if i == |b| {
    } else if ConstAt(b, i) {
      ConstEnd(b, i);
      FreeKeeps(w, b, i + 5, out, true);
    } else if b[i] == '*' {
      DropKeeps(w, out);
      FreeKeeps(w, b, PastBlanks(b, i + 1), DropSpacesAtEnd(out) + [' ', '*'], pending);
    } else {
      FreeKeeps(w, b, i + 1, (if pending then WithConst(out) else out) + [b[i]], false);
    }
  }

  /** The text behind a star, its blank, a qualifier and a letter of a word. */
  function GluedText(w: string, c: char): string {
    w + [' '] + Qualifier() + [c]
  }

  lemma GluedIsUnfollowed(w: string, c: char, t: string)
    requires EndsStar(w) && GluedText(w, c) <= t && c != '*' && !IsSpace(c)
    ensures !Followed(t, |w| - 1)
  {
    hide IsSpace;
    var g := GluedText(w, c);
    var k := |w| - 1;
    assert t[k + 1] == g[k + 1] == ' ';
    assert t[k + 2] == g[k + 2] == Qualifier()[0];
    assert t[k + 7] == g[k + 7] == c;
  }

  lemma SqueezedGlue(out: string, c: char)
    requires Plain(out) && EndsStar(out) && c != '*' && c != ' ' && !IsSpace(c)
    ensures Squeezed(WithConst(out) + [c]) == GluedText(Squeezed(out), c) && EndsStar(Squeezed(out))
  {
    hide IsSpace, Squeezed, Qualifier, Plain, WithConst;
    BlankIsSpace();
    SqueezedStarLast(out);
    SqueezedConst(out);
    SqueezedOne(WithConst(out), c);
  }

  lemma SqueezedStarLast(out: string)
    requires EndsStar(out)
    ensures EndsStar(Squeezed(out))
  {
    hide IsSpace, Squeezed;
    BlankIsSpace();
    SqueezedOne(out[..|out| - 1], '*');
    assert out == out[..|out| - 1] + ['*'];
  }

  lemma GluedIsWritten(out: string, c: char, f: string)
    requires Plain(out) && EndsStar(out) && c != '*' && c != ' ' && !IsSpace(c)
    requires WithConst(out) + [c] <= f
    ensures GluedText(Squeezed(out), c) <= DropSpacesAtEnd(Squeezed(f)) && EndsStar(Squeezed(out))
  {
    hide IsSpace, Squeezed, Qualifier, DropSpacesAtEnd, Plain, WithConst, EndsStar;
    SqueezedGlue(out, c);
    var g := WithConst(out) + [c];
    SqueezedGrows(g, f[|g|..]);
    assert f == g + f[|g|..];
    DropKeeps(GluedText(Squeezed(out), c), Squeezed(f));
  }

  lemma {:induction false} GluedIsSeen(b: string, i: nat, out: string, pending: bool)
    requires i <= |b| && Single(b) && Even(b, i, out, pending) && Glued(b, i, pending)
    requires pending ==> EndsStar(out) || (i >= 5 && ConstAt(b, i - 5))
    ensures !TypeNormal(DropSpacesAtEnd(Squeezed(Free(b, i, out, pending))))
    decreases |b| - i
  {
    hide ConstAt, Single, Plain, WithConst, DropSpacesAtEnd, Squeezed, TypeNormal, IsSpace;
    if ConstAt(b, i) {
      ConstEnd(b, i);
      GluedIsSeen(b, i + 5, out, true);
    } else if b[i] == '*' {
      EvenStar(out);
      GluedIsSeen(b, PastBlanks(b, i + 1), DropSpacesAtEnd(out) + [' ', '*'], pending);
    } else if pending && b[i] != ' ' {
      AfterConstIsOpen(b, i);
      EvenCopy(b, i, out, pending);
      var o := WithConst(out) + [b[i]];
      var f := Free(b, i + 1, o, false);
      FreeKeeps(o, b, i + 1, o, false);
      GluedIsWritten(out, b[i], f);
      var t := DropSpacesAtEnd(Squeezed(f));
      GluedIsUnfollowed(Squeezed(out), b[i], t);
      NotNormal(t, |Squeezed(out)| - 1);
    } else {
      EvenCopy(b, i, out, pending);
      GluedIsSeen(b, i + 1, (if pending then WithConst(out) else out) + [b[i]], false);
    }
  }

  lemma AfterConstIsOpen(b: string, i: nat)
    requires i < |b| && Single(b) && b[i] != '*' && b[i] != ' '
    ensures i >= 5 ==> !ConstAt(b, i - 5)
    ensures !IsSpace(b[i])
  {
    hide Qualifier;
  }

  lemma NotNormal(t: string, k: nat)
    requires k < |t| && t[k] == '*' && !Followed(t, k)
    ensures !TypeNormal(t)
  {
    hide Followed, Shaped, EndsQualified, Extra;
  }

  // ----- the run over a text in which no qualifier is glued

  /** What may come after a star and a blank, with more text behind it. */
  predicate Closed(w: string, k: nat)
    requires k < |w|
  {
    k + 1 < |w| && w[k + 1] == ' ' ==>
      && k + 2 < |w|
      && (w[k + 2] == '*' || (k + 7 < |w| && w[k + 7] == ' ' && w[k + 2..k + 7] == Qualifier()))
  }

  predicate AllClosed(w: string) {
    forall k :: 0 <= k < |w| && w[k] == '*' ==> Closed(w, k)
  }

  predicate Soft(w: string) {
    w == "" || EndsBlank(w) || EndsStar(w)
  }

  /** What was read where the word being copied begins. */
  predicate Behind(b: string, j: nat, x: string)
    requires 0 < j <= |b|
  {
    || (EndsBlank(x) && b[j - 1] == ' ')
    || (EndsStar(x) && (b[j - 1] == '*' || (b[j - 1] == ' ' && j > 1 && b[j - 2] == '*')) && (j < |b| ==> b[j] != ' '))
  }

  /** The last r characters were copied from inside one word, or one that is being copied. */
  predicate Run(b: string, i: nat, w: string, r: nat)
    requires i <= |b|
  {
    && r <= i && r <= |w|
    && w[|w| - r..] == b[i - r..i]
    && (forall k :: i - r <= k < i ==> b[k] != ' ' && b[k] != '*')
    && (r > 0 ==> !ConstAt(b, i - r))
    && (if r == |w| then i == r else r < i && Behind(b, i - r, w[..|w| - r]))
  }

  /** Whether the text written ends with a qualifier can be seen in what was read. */
  predicate Known(b: string, i: nat, w: string)
    requires i <= |b|
  {
    EndsQualified(DropSpacesAtEnd(w)) <==> i >= 6 && b[i - 1] == ' ' && ConstAt(b, i - 6)
  }

  predicate Waiting(b: string, i: nat, w: string)
    requires i <= |b|
  {
    && Soft(w)
    && if i >= 5 && ConstAt(b, i - 5) then Known(b, i - 5, w)
       else i > 0 && b[i - 1] != 't' && EndsStar(w) && (i < |b| ==> b[i] != ' ') && Known(b, i, w)
  }

  predicate On(b: string, i: nat, w: string, pending: bool, r: nat)
    requires i <= |b|
  {
    && Normal(b, TYPE_LEN) && Single(w) && AllClosed(w)
    && if pending then Waiting(b, i, w) else Run(b, i, w, r) && (r == 0 ==> Known(b, i, w))
  }

  lemma RunStart(b: string, i: nat, w: string, r: nat)
    requires i <= |b| && Run(b, i, w, r) && r < |w|
    ensures r < i && !IsAlpha(w[|w| - r - 1]) && !IsAlpha(b[i - r - 1])
    ensures w[|w| - r - 1] == ' ' ==> b[i - r - 1] == ' '
    ensures Soft(w[..|w| - r])
  {
    hide ConstAt;
    assert w[..|w| - r][|w| - r - 1] == w[|w| - r - 1];
  }

  /** What stands before the last five characters of a run longer than that. */
  lemma RunInside(b: string, i: nat, w: string, r: nat)
    requires i <= |b| && Run(b, i, w, r) && r > 5
    ensures w[|w| - 6] == b[i - 6] && b[i - 6] != ' '
  {
    hide ConstAt, Behind;
    assert w[|w| - r..][r - 6] == b[i - r..i][r - 6];
  }

  lemma SpaceIsBlank(s: string, k: nat)
    requires Single(s) && k < |s|
    ensures IsSpace(s[k]) ==> s[k] == ' '
  {
  }

  /** A copied word that ends here is no qualifier, neither where it was read nor where it is written. */
  lemma WordIsNoQualifier(b: string, i: nat, w: string, r: nat)
    requires Single(b) && i <= |b| && Single(w) && Run(b, i, w, r) && r > 0
    requires i == |b| || b[i] == ' ' || b[i] == '*'
    ensures !EndsQualified(w) && !(i >= 5 && ConstAt(b, i - 5))
  {
    assert r <= i && r <= |w| && (r == |w| ==> i == r);
    hide Qualifier, IsSpace, Run, Single, IsAlpha;
    BlankIsSpace();
    if r < |w| {
      RunStart(b, i, w, r);
    }
    if r < 5 {
      if i >= 5 && r < |w| {
        NoQualifier(b, i - 5, i - r - 1);
      }
      if |w| >= 5 {
        NoQualifier(w, |w| - 5, |w| - r - 1);
      }
    } else if r > 5 {
      RunInside(b, i, w, r);
      SpaceIsBlank(b, i - 6);
    } else {
      RunOfFive(b, i, w);
    }
  }

  lemma RunOfFive(b: string, i: nat, w: string)
    requires Single(b) && i <= |b| && Single(w) && Run(b, i, w, 5)
    requires i == |b| || b[i] == ' ' || b[i] == '*'
    ensures !EndsQualified(w) && !ConstAt(b, i - 5)
  {
    hide Qualifier, IsSpace, Single;
    BlankIsSpace();
    if 5 < |w| {
      RunStart(b, i, w, 5);
      SpaceIsBlank(w, |w| - 6);
    }
    hide Behind, IsAlpha;
    assert w[|w| - 5..] == w[|w| - 5..|w| - 5 + 5];
  }

  // ----- the steps of the run

  lemma GrowClosed(w: string, c: char)
    requires AllClosed(w) && c != '*' && (c == ' ' ==> !EndsStar(w))
    ensures AllClosed(w + [c])
  {
    hide Qualifier;
    var v := w + [c];
    forall k | 0 <= k < |v| && v[k] == '*' ensures Closed(v, k) {
      assert Closed(w, k);
      assert k + 7 < |w| ==> v[k + 2..k + 7] == w[k + 2..k + 7];
    }
  }

  lemma SingleOne(w: string, c: char)
    requires Single(w) && (IsSpace(c) ==> c == ' ') && (c == ' ' ==> !EndsBlank(w))
    ensures Single(w + [c])
  {
    hide IsSpace;
  }

  lemma RunLetter(b: string, i: nat, w: string, r: nat)
    requires i < |b| && Run(b, i, w, r) && !ConstAt(b, i) && b[i] != '*' && b[i] != ' '
    ensures Run(b, i + 1, w + [b[i]], r + 1)
  {
    hide ConstAt, Behind;
    var v := w + [b[i]];
    assert v[|v| - (r + 1)..] == w[|w| - r..] + [b[i]] == b[i - r..i] + [b[i]] == b[i - r..i + 1];
    assert i + 1 - (r + 1) == i - r;
    assert v[..|v| - (r + 1)] == w[..|w| - r];
  }

  /** A letter is copied. */
  lemma LetterOn(b: string, i: nat, w: string, r: nat)
    requires i < |b| && On(b, i, w, false, r) && !ConstAt(b, i) && b[i] != '*' && b[i] != ' '
    ensures On(b, i + 1, w + [b[i]], false, r + 1)
    ensures Extra(w + [b[i]]) == Extra(w)
  {
    hide ConstAt, Run, Known, AllClosed, Extra, IsSpace;
    RunLetter(b, i, w, r);
    ExtraOne(w, b[i]);
    GrowClosed(w, b[i]);
    hide Single;
    SpaceIsBlank(b, i);
    SingleOne(w, b[i]);
  }

  lemma BlankEndsWord(b: string, i: nat, w: string, r: nat)
    requires Normal(b, TYPE_LEN) && i < |b| && Single(w) && Run(b, i, w, r) && b[i] == ' '
    ensures r > 0 && !Soft(w)
    ensures !EndsQualified(w) && (i >= 5 ==> !ConstAt(b, i - 5))
  {
    BlankIsSpace();
    hide IsSpace, ConstAt, EndsQualified;
    assert w[..|w|] == w;
    assert w != "" && r > 0 ==> w[|w| - r..][r - 1] == w[|w| - 1];
    assert r > 0 ==> b[i - r..i][r - 1] == b[i - 1];
    hide Run;
    WordIsNoQualifier(b, i, w, r);
  }

  lemma GapAdds(w: string)
    requires !EndsQualified(w)
    ensures Extra(w + [' ']) == Extra(w)
  {
    hide Qualifier;
    ExtraOne(w, ' ');
    if |w| >= 5 {
      assert (w + [' '])[|w| - 5..|w|] == w[|w| - 5..|w|];
    }
  }

  /** A blank is copied. */
  lemma BlankOn(b: string, i: nat, w: string, r: nat)
    requires i < |b| && On(b, i, w, false, r) && b[i] == ' '
    ensures On(b, i + 1, w + [' '], false, 0)
    ensures Extra(w + [' ']) == Extra(w) && !EndsBlank(w)
  {
    hide ConstAt, Run, AllClosed, Extra, IsSpace, EndsQualified, Normal;
    BlankEndsWord(b, i, w, r);
    GapAdds(w);
    GrowClosed(w, ' ');
    DropBlank(w);
    hide Single;
    SingleOne(w, ' ');
    BlankRun(b, i, w);
  }

  lemma BlankRun(b: string, i: nat, w: string)
    requires i < |b| && b[i] == ' '
    ensures Run(b, i + 1, w + [' '], 0)
  {
    var v := w + [' '];
    assert v[..|v|] == v;
  }

  lemma SoftAtConst(b: string, i: nat, w: string, r: nat)
    requires Normal(b, TYPE_LEN) && i <= |b| && Run(b, i, w, r) && ConstAt(b, i)
    ensures r == 0 && Soft(w)
  {
    hide Qualifier;
    BlankIsSpace();
    hide IsSpace;
    assert w[..|w|] == w;
  }

  lemma LetterIsNoSpace(b: string, i: nat)
    requires 5 <= i <= |b| && ConstAt(b, i - 5)
    ensures b[i - 1] == 't' && !IsSpace(b[i - 1])
  {
    assert b[i - 5..i][4] == Qualifier()[4];
  }

  /** A qualifier is passed; it waits for what comes next. */
  lemma ConstOn(b: string, i: nat, w: string, pending: bool, r: nat)
    requires i <= |b| && On(b, i, w, pending, r) && ConstAt(b, i)
    ensures i + 5 <= |b| && On(b, i + 5, w, true, 0)
  {
    hide Known, AllClosed, Single, Run, Soft, IsSpace, Qualifier;
    ConstEnd(b, i);
    if pending {
      if i >= 5 && ConstAt(b, i - 5) {
        LetterIsNoSpace(b, i);
      }
    } else {
      SoftAtConst(b, i, w, r);
    }
  }

  /** The text with a star written behind it. */
  function Starry(w: string): string {
    DropSpacesAtEnd(w) + [' ', '*']
  }

  lemma DropLast(w: string)
    requires Single(w) && EndsBlank(w)
    ensures DropSpacesAtEnd(w) == w[..|w| - 1]
  {
    hide IsSpace, DropSpacesAtEnd;
    assert |w| > 1 ==> w[|w| - 2] != ' ';
    hide Single;
    DropOne(w);
    DropNone(w[..|w| - 1]);
  }

  lemma GapAndStar(w: string)
    requires EndsBlank(w)
    ensures w[..|w| - 1] + [' ', '*'] == w + ['*']
  {
  }

  lemma StarryWrites(w: string)
    requires Single(w)
    ensures Starry(w) == (if EndsBlank(w) then w else w + [' ']) + ['*']
    ensures EndsBlank(w) ==> DropSpacesAtEnd(w) == w[..|w| - 1]
  {
    hide Single, DropSpacesAtEnd, IsSpace;
    if EndsBlank(w) {
      DropLast(w);
      GapAndStar(w);
    } else {
      DropNone(w);
      assert w + [' ', '*'] == w + [' '] + ['*'];
    }
  }

  lemma StarrySingle(w: string)
    requires Single(w)
    ensures var v := (if EndsBlank(w) then w else w + [' ']) + ['*'];
      Single(v) && DropSpacesAtEnd(v) == v
  {
    hide Single, DropSpacesAtEnd, IsSpace;
    BlankIsSpace();
    if !EndsBlank(w) {
      SingleOne(w, ' ');
    }
    var g := if EndsBlank(w) then w else w + [' '];
    SingleOne(g, '*');
    DropNone(g + ['*']);
  }

  lemma StarryForm(w: string)
    requires Single(w)
    ensures Starry(w) == (if EndsBlank(w) then w else w + [' ']) + ['*']
    ensures EndsBlank(w) ==> DropSpacesAtEnd(w) == w[..|w| - 1]
    ensures Single(Starry(w)) && DropSpacesAtEnd(Starry(w)) == Starry(w)
  {
    hide Single, DropSpacesAtEnd, Starry, EndsBlank;
    StarryWrites(w);
    StarrySingle(w);
  }

  lemma StarryClosed(w: string)
    requires Single(w) && AllClosed(w)
    ensures AllClosed(Starry(w))
  {
    StarryForm(w);
    hide Qualifier, DropSpacesAtEnd, Single, Starry;
    var v := Starry(w);
    forall k | 0 <= k < |v| && v[k] == '*' ensures Closed(v, k) {
      if k < |w| {
        assert w[k] == '*' && Closed(w, k);
        assert k + 7 < |w| ==> v[k + 2..k + 7] == w[k + 2..k + 7];
      }
    }
  }

  lemma StarIsNoQualifier(w: string)
    requires EndsStar(w) || w == ""
    ensures !EndsQualified(w)
  {
    hide ConstAt;
    if |w| >= 5 {
      NoQualifier(w, |w| - 5, |w| - 1);
    }
  }

  lemma StarryAdds(b: string, i: nat, w: string, pending: bool, r: nat)
    requires i < |b| && On(b, i, w, pending, r) && b[i] == '*'
    ensures Extra(Starry(w)) == Extra(w)
  {
    hide ConstAt, AllClosed, Extra, Known, EndsQualified;
    StarryForm(w);
    hide DropSpacesAtEnd, Starry;
    if EndsBlank(w) {
      ExtraOne(w, '*');
    } else {
      ExtraOne(w + [' '], '*');
      assert w[..|w|] == w;
      if Soft(w) {
        StarIsNoQualifier(w);
      } else {
        WordIsNoQualifier(b, i, w, r);
      }
      GapAdds(w);
    }
  }

  /** What is behind a star and the blank after it. */
  lemma BehindStar(b: string, i: nat, v: string, j: nat)
    requires Normal(b, TYPE_LEN) && i < |b| && b[i] == '*' && j == PastBlanks(b, i + 1) && EndsStar(v)
    requires DropSpacesAtEnd(v) == v
    ensures Run(b, j, v, 0) && Known(b, j, v) && Waiting(b, j, v)
  {
    BlankIsSpace();
    hide IsSpace, Qualifier, DropSpacesAtEnd;
    OneBlankAhead(b, i + 1);
    hide PastBlanks, Normal;
    assert v[..|v|] == v;
    StarIsNoQualifier(v);
    hide EndsQualified;
    if j >= 6 && b[j - 1] == ' ' {
      NoQualifier(b, j - 6, j - 2);
    }
    if j >= 5 {
      NoQualifier(b, j - 5, j - 1);
    }
  }

  lemma StarOn(b: string, i: nat, w: string, pending: bool, r: nat)
    requires i < |b| && On(b, i, w, pending, r) && b[i] == '*'
    ensures On(b, PastBlanks(b, i + 1), Starry(w), pending, 0)
  {
    hide ConstAt, AllClosed, Run, Waiting, Known, PastBlanks, Normal;
    StarryForm(w);
    StarryClosed(w);
    hide Single;
    BehindStar(b, i, Starry(w), PastBlanks(b, i + 1));
  }

  /** The text with a qualifier and a blank written behind it. */
  function Qualifying(w: string): string {
    Gap(w) + Qualifier() + [' ']
  }

  lemma QualifyingClosed(w: string)
    requires AllClosed(w) && Single(w) && Soft(w)
    ensures AllClosed(Qualifying(w)) && Single(Qualifying(w))
  {
  }

  lemma QualifyingAdds(w: string)
    requires Soft(w)
    ensures Extra(Qualifying(w)) <= Extra(w) + (if EndsBlank(w) then 1 else 0)
    ensures DropSpacesAtEnd(Qualifying(w)) == Gap(w) + Qualifier()
    ensures EndsQualified(Gap(w) + Qualifier())
  {
    BlankIsSpace();
    var u := Gap(w) + Qualifier();
    assert u[|u| - 5..] == Qualifier();
    assert EndsQualified(u);
    assert !EndsBlank(u);
    hide DropSpacesAtEnd, Qualifier, IsSpace;
    DropBlank(u);
    ExtraSolid(Gap(w), Qualifier());
    ExtraOne(u, ' ');
    if EndsStar(w) {
      StarIsNoQualifier(w);
      GapAdds(w);
      assert Qualifying(w)[|w| - 1] == '*';
    }
  }

  /** A qualifier is written before a blank. */
  lemma FlushOn(b: string, i: nat, w: string, r: nat)
    requires i < |b| && On(b, i, w, true, r) && b[i] == ' '
    ensures On(b, i + 1, Qualifying(w), false, 0) && Soft(w)
  {
    hide ConstAt, AllClosed, Single, Normal, EndsQualified, Qualifier, DropSpacesAtEnd;
    QualifyingClosed(w);
    QualifyingAdds(w);
    BlankRun(b, i, Gap(w) + Qualifier());
  }

  // ----- the end of the run

  predicate Finished(b: string, f: string) {
    var w := Squeezed(f);
    && AllClosed(w) && |f| >= |w| + Extra(w)
    && (EndsQualified(DropSpacesAtEnd(w)) <==> EndsTwice(b))
  }

  lemma EndKnown(b: string, w: string, pending: bool, r: nat)
    requires On(b, |b|, w, pending, r)
    ensures EndsQualified(DropSpacesAtEnd(w)) <==> EndsTwice(b)
  {
    hide AllClosed, DropSpacesAtEnd, Single, IsSpace, Qualifier, EndsQualified;
    assert w[..|w|] == w;
    if EndsStar(w) || w == "" {
      DropNone(w);
      StarIsNoQualifier(w);
      if !pending && r == 0 && w != "" && |b| >= 5 {
        NoQualifier(b, |b| - 5, |b| - 1);
      }
    }
    if !pending && r > 0 {
      WordEnd(b, w, r);
      WordIsNoQualifier(b, |b|, w, r);
      DropNone(w);
    }
  }

  lemma WordEnd(b: string, w: string, r: nat)
    requires Run(b, |b|, w, r) && r > 0
    ensures w != "" && w[|w| - 1] != ' ' && w[|w| - 1] != '*'
  {
    hide ConstAt, Behind;
    assert w[|w| - r..][r - 1] == b[|b| - r..][r - 1];
  }

  /** What is written is no longer than its squeezed form asks for. */
  predicate Tight(out: string) {
    |out| >= |Squeezed(out)| + Extra(Squeezed(out))
  }

  lemma TightCopy(b: string, i: nat, out: string, r: nat)
    requires i < |b| && On(b, i, Squeezed(out), false, r) && !ConstAt(b, i) && b[i] != '*' && Tight(out)
    ensures Squeezed(out + [b[i]]) == Squeezed(out) + [b[i]] && Tight(out + [b[i]])
    ensures On(b, i + 1, Squeezed(out + [b[i]]), false, if b[i] == ' ' then 0 else r + 1)
  {
    hide ConstAt, On, Extra, Squeezed, IsSpace;
    var w := Squeezed(out);
    SqueezedOne(out, b[i]);
    SqueezedEnds(out);
    BlankIsSpace();
    OnSpace(b, i, w, false, r);
    if b[i] == ' ' {
      BlankOn(b, i, w, r);
    } else {
      LetterOn(b, i, w, r);
    }
  }

  lemma OnSpace(b: string, i: nat, w: string, pending: bool, r: nat)
    requires i < |b| && On(b, i, w, pending, r)
    ensures IsSpace(b[i]) ==> b[i] == ' '
    ensures Single(b) && Single(w) && AllClosed(w)
  {
    hide AllClosed, Run, Waiting, Known;
  }

  lemma TightFlush(b: string, i: nat, out: string, r: nat)
    requires i < |b| && On(b, i, Squeezed(out), true, r) && b[i] == ' ' && Tight(out)
    ensures Tight(WithConst(out) + [' ']) && Squeezed(WithConst(out) + [' ']) == Qualifying(Squeezed(out))
    ensures On(b, i + 1, Squeezed(WithConst(out) + [' ']), false, 0)
  {
    hide On, Extra, Squeezed, IsSpace, Qualifier;
    var w := Squeezed(out);
    FlushOn(b, i, w, r);
    QualifyingAdds(w);
    SqueezedConst(out);
    SqueezedEnds(out);
    var o := WithConst(out);
    hide EndsQualified;
    assert !EndsInSpace(o) by { ConstEndsInWord(out); }
    SqueezedOne(o, ' ');
    BlankIsSpace();
  }

  lemma ConstEndsInWord(out: string)
    ensures !EndsInSpace(WithConst(out))
  {
    BlankIsSpace();
    hide IsSpace;
    var q := Qualifier();
    hide Qualifier;
    var o := WithConst(out);
    assert o[|o| - 1] == q[4];
  }

  lemma TightStar(b: string, i: nat, out: string, pending: bool, r: nat)
    requires i < |b| && On(b, i, Squeezed(out), pending, r) && b[i] == '*' && Tight(out) && Plain(out)
    ensures Tight(Starry(out)) && Squeezed(Starry(out)) == Starry(Squeezed(out))
    ensures On(b, PastBlanks(b, i + 1), Squeezed(Starry(out)), pending, 0)
  {
    hide On, Extra, Squeezed, DropSpacesAtEnd, IsSpace;
    var w := Squeezed(out);
    StarOn(b, i, w, pending, r);
    StarryAdds(b, i, w, pending, r);
    SqueezedStar(out);
    SqueezedDrop(out);
  }

  lemma {:induction false} RunFinishes(b: string, i: nat, out: string, pending: bool, r: nat)
    requires i <= |b| && On(b, i, Squeezed(out), pending, r) && Tight(out)
    requires Single(b) && Even(b, i, out, pending) && !Glued(b, i, pending)
    ensures Finished(b, Free(b, i, out, pending))
    decreases |b| - i
  {
    hide On, ConstAt, Squeezed, Tight, Plain, IsSpace, WithConst, DropSpacesAtEnd, Single;
    if i == |b| {
      EndsTight(b, out, pending, r);
    } else if ConstAt(b, i) {
      ConstOn(b, i, Squeezed(out), pending, r);
      RunFinishes(b, i + 5, out, true, 0);
    } else if b[i] == '*' {
      TightStar(b, i, out, pending, r);
      EvenStar(out);
      RunFinishes(b, PastBlanks(b, i + 1), Starry(out), pending, 0);
    } else if pending {
      TightFlush(b, i, out, r);
      EvenCopy(b, i, out, pending);
      RunFinishes(b, i + 1, WithConst(out) + [' '], false, 0);
    } else {
      TightCopy(b, i, out, r);
      EvenCopy(b, i, out, pending);
      RunFinishes(b, i + 1, out + [b[i]], false, if b[i] == ' ' then 0 else r + 1);
    }
  }

  lemma EndsTight(b: string, out: string, pending: bool, r: nat)
    requires On(b, |b|, Squeezed(out), pending, r) && Tight(out)
    ensures Finished(b, out)
  {
    hide Squeezed, DropSpacesAtEnd, EndsQualified, EndsTwice, AllClosed, Extra, Run, Waiting, Known;
    EndKnown(b, Squeezed(out), pending, r);
  }

  // ----- types settled at once

  lemma StartsOn(b: string)
    requires Normal(b, TYPE_LEN)
    ensures On(b, 0, Squeezed(""), false, 0) && Tight("") && Even(b, 0, "", false)
  {
    hide ConstAt, DropSpacesAtEnd;
    DropNone("");
    assert Squeezed("") == "";
  }

  lemma ClosedIsFollowed(w: string)
    requires Single(w) && AllClosed(w)
    ensures var t := DropSpacesAtEnd(w); forall k :: 0 <= k < |t| && t[k] == '*' ==> Followed(t, k)
  {
    hide DropSpacesAtEnd, IsSpace, Qualifier;
    var t := DropSpacesAtEnd(w);
    if EndsBlank(w) {
      DropLast(w);
    } else {
      DropNone(w);
    }
    hide Single;
    BlankIsSpace();
    forall k | 0 <= k < |t| && t[k] == '*' ensures Followed(t, k) {
      assert w[k] == '*' && Closed(w, k);
      assert k + 7 <= |t| ==> t[k + 2..k + 7] == w[k + 2..k + 7];
    }
  }

  lemma FinishedIsNormal(b: string, f: string)
    requires Finished(b, f) && |f| < TYPE_LEN && Shaped(DropSpacesAtEnd(Squeezed(f)))
    ensures TypeNormal(DropSpacesAtEnd(Squeezed(f))) <==> !EndsTwice(b)
  {
    hide Squeezed, Shaped, EndsQualified, EndsTwice, DropSpacesAtEnd, Extra, Followed, Single;
    var w := Squeezed(f);
    var t := DropSpacesAtEnd(w);
    SqueezedSingle(f);
    ClosedIsFollowed(w);
    ExtraGrows(w, |t|);
  }

  lemma StoredFits(s: string)
    requires Roomy(s)
    ensures NormalType(s) == DropSpacesAtEnd(Squeezed(Free(Normalized(s, TYPE_LEN), 0, "", false)))
  {
    hide Free, Rebuilt, Squeezed, Normalized, DropSpacesAtEnd, On;
    var b := Normalized(s, TYPE_LEN);
    NormalizedIsNormal(s, TYPE_LEN);
    StartsOn(b);
    FreeIsRebuilt(b, 0, "", false);
    SqueezedShorter(Free(b, 0, "", false));
  }

  // ----- where a qualifier is glued

  /** Where stars and the blanks among them end. */
  function PastStars(b: string, i: nat): (j: nat)
    requires i <= |b|
    ensures i <= j <= |b|
    decreases |b| - i
  {
    if i < |b| && (b[i] == '*' || b[i] == ' ') then PastStars(b, i + 1) else i
  }

  /** A qualifier directly before a star, and behind the stars a word that is no qualifier. */
  predicate GluesAt(b: string, k: nat)
    requires k <= |b|
  {
    && ConstAt(b, k) && k + 5 < |b| && b[k + 5] == '*'
    && PastStars(b, k + 5) < |b| && !ConstAt(b, PastStars(b, k + 5))
  }

  predicate GluesFrom(b: string, i: nat) {
    exists k :: i <= k <= |b| && GluesAt(b, k)
  }

  /** A qualifier that waits at a star, or behind one, is glued to the word that comes next. */
  predicate WaitsForWord(b: string, i: nat)
    requires i <= |b|
  {
    i < |b| && b[i] != ' ' && PastStars(b, i) < |b| && !ConstAt(b, PastStars(b, i))
  }

  lemma {:induction false} PastBlanksStars(b: string, i: nat)
    requires i <= |b|
    ensures PastStars(b, PastBlanks(b, i)) == PastStars(b, i)
    ensures PastBlanks(b, i) < |b| ==> b[PastBlanks(b, i)] != ' '
    ensures forall k :: i <= k < PastBlanks(b, i) ==> b[k] == ' '
    decreases |b| - i
  {
    if i < |b| && b[i] == ' ' {
      PastBlanksStars(b, i + 1);
    }
  }

  /** Between two places where no qualifier begins, none is glued. */
  lemma GluesLater(b: string, i: nat, j: nat)
    requires i <= j <= |b| && forall k :: i <= k < j ==> !ConstAt(b, k)
    ensures GluesFrom(b, i) <==> GluesFrom(b, j)
  {
    hide ConstAt, PastStars;
    if GluesFrom(b, i) {
      var k :| i <= k <= |b| && GluesAt(b, k);
      assert k >= j;
    }
    if GluesFrom(b, j) {
      var k :| j <= k <= |b| && GluesAt(b, k);
      assert i <= k;
    }
  }

  /** No qualifier begins inside one. */
  lemma NoneInside(b: string, i: nat)
    requires i <= |b| && ConstAt(b, i)
    ensures i + 5 <= |b| && forall k :: i < k < i + 5 ==> !ConstAt(b, k)
    ensures i + 5 < |b| && b[i + 5] != '*' ==> IsSpace(b[i + 5])
  {
    hide Qualifier;
    forall k | i < k < i + 5 ensures !ConstAt(b, k) {
      assert b[k - 1] == b[i..i + 5][k - 1 - i];
      assert IsAlpha(b[k - 1]) && !IsSpace(b[k - 1]);
    }
  }

  lemma GluesHere(b: string, i: nat)
    requires Single(b) && i <= |b| && ConstAt(b, i)
    ensures i + 5 <= |b|
    ensures GluesFrom(b, i) <==> WaitsForWord(b, i + 5) || GluesFrom(b, i + 5)
  {
    NoneInside(b, i);
    if i + 5 < |b| {
      SpaceIsBlank(b, i + 5);
    }
    hide ConstAt, PastStars, Single, IsSpace;
    GluesLater(b, i + 1, i + 5);
    if GluesFrom(b, i) && !GluesAt(b, i) {
      var k :| i <= k <= |b| && GluesAt(b, k);
      assert i + 1 <= k;
    }
    if GluesAt(b, i) {
      assert GluesFrom(b, i);
    }
    if GluesFrom(b, i + 1) {
      var k :| i + 1 <= k <= |b| && GluesAt(b, k);
      assert i <= k;
    }
  }

  lemma {:induction false} GluedIff(b: string, i: nat, pending: bool)
    requires Single(b) && i <= |b|
    ensures Glued(b, i, pending) <==> GluesFrom(b, i) || (pending && WaitsForWord(b, i))
    decreases |b| - i
  {
    hide ConstAt, Single, GluesFrom;
    if i == |b| {
      NoneAtEnd(b);
    } else if ConstAt(b, i) {
      LetterFirst(b, i);
      GluesHere(b, i);
      GluedIff(b, i + 5, true);
    } else if b[i] == '*' {
      var j := PastBlanks(b, i + 1);
      PastBlanksStars(b, i + 1);
      forall k | i <= k < j ensures !ConstAt(b, k) {
        if k + 5 <= |b| {
          NoQualifier(b, k, k);
        } else {
          NoneAtLast(b, k);
        }
      }
      GluesLater(b, i, j);
      GluedIff(b, j, pending);
    } else {
      GluesLater(b, i, i + 1);
      GluedIff(b, i + 1, false);
    }
  }

  lemma LetterFirst(b: string, i: nat)
    requires i <= |b| && ConstAt(b, i)
    ensures i < |b| && PastStars(b, i) == i
  {
    assert b[i] == b[i..i + 5][0] == Qualifier()[0];
  }

  lemma NoneAtLast(b: string, k: nat)
    requires k <= |b| < k + 5
    ensures !ConstAt(b, k)
  {
  }

  lemma NoneAtEnd(b: string)
    ensures !GluesFrom(b, |b|)
  {
    hide PastStars;
    NoneAtLast(b, |b|);
    hide ConstAt;
  }

  // ----- the main results

  /** A type that fits is settled by normalising it once exactly when its text neither glues a qualifier nor ends with two. */
  lemma SettledIff(s: string)
    requires Roomy(s)
    ensures var b := Normalized(s, TYPE_LEN);
      NormalType(NormalType(s)) == NormalType(s) <==>
        !EndsTwice(b) && forall k :: 0 <= k <= |b| ==> !GluesAt(b, k)
  {
    hide Free, NormalType, Squeezed, Normalized, DropSpacesAtEnd, On, Single, Shaped, TypeNormal, Glued, EndsTwice, Finished, GluesAt;
    var b := Normalized(s, TYPE_LEN);
    NormalizedIsNormal(s, TYPE_LEN);
    StartsOn(b);
    StoredFits(s);
    TypeNormalIff(s);
    StoredIsShaped(s);
    assert Single(b);
    GluedIff(b, 0, false);
    if Glued(b, 0, false) {
      GluedIsSeen(b, 0, "", false);
    } else {
      RunFinishes(b, 0, "", false, 0);
      FinishedIsNormal(b, Free(b, 0, "", false));
    }
  }
}
