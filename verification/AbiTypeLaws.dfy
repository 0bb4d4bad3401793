/** Which types normalising leaves alone, and which ones it settles at once. */
module AbiTypeLaws {
  import opened AbiText
  import opened AbiTypes

  // ----- blanks

  predicate EndsBlank(s: string) {
    s != "" && s[|s| - 1] == ' '
  }

  predicate OnlyBlanks(s: string) {
    forall i :: 0 <= i < |s| && IsSpace(s[i]) ==> s[i] == ' '
  }

  /** All whitespace is blanks, and at most one of them stands at the end. */
  predicate Plain(s: string) {
    && OnlyBlanks(s)
    && (EndsBlank(s) ==> !EndsBlank(s[..|s| - 1]))
  }

  predicate Solid(s: string) {
    forall i :: 0 <= i < |s| ==> !IsSpace(s[i])
  }

  lemma SqueezedOne(s: string, c: char)
    ensures Squeezed(s + [c]) ==
      if !IsSpace(c) then Squeezed(s) + [c] else if EndsInSpace(s) then Squeezed(s) else Squeezed(s) + [' ']
  {
    assert (s + [c])[..|s|] == s;
  }

  lemma {:induction false} SqueezedSolid(s: string, word: string)
    requires Solid(word)
    ensures Squeezed(s + word) == Squeezed(s) + word
  {
    hide IsSpace, Squeezed;
    if word == "" {
      assert s + word == s && Squeezed(s) + word == Squeezed(s);
    } else {
      var n := |word| - 1;
      SqueezedSolid(s, word[..n]);
      SqueezedOne(s + word[..n], word[n]);
      assert s + word == s + word[..n] + [word[n]];
      assert Squeezed(s) + word == Squeezed(s) + word[..n] + [word[n]];
    }
  }

  lemma SqueezedEnds(s: string)
    ensures EndsBlank(Squeezed(s)) <==> EndsInSpace(s)
    ensures Squeezed(s) == "" <==> s == ""
  {
    hide IsSpace;
    SqueezedSingle(s);
    assert EndsInSpace(Squeezed(s)) ==> EndsBlank(Squeezed(s));
    assert EndsBlank(Squeezed(s)) ==> EndsInSpace(Squeezed(s)) by { BlankIsSpace(); }
  }

  lemma BlankIsSpace()
    ensures IsSpace(' ') && !IsSpace('*') && Solid(Qualifier())
  {
  }

  lemma {:induction false} SqueezedGrows(s: string, t: string)
    ensures Squeezed(s) <= Squeezed(s + t)
    ensures |Squeezed(s)| <= |s|
  {
    hide IsSpace;
    if t != "" {
      var n := |t| - 1;
      SqueezedGrows(s, t[..n]);
      SqueezedOne(s + t[..n], t[n]);
      assert s + t == s + t[..n] + [t[n]];
    } else {
      assert s + t == s;
      SqueezedShorter(s);
    }
  }

  lemma {:induction false} SqueezedShorter(s: string)
    ensures |Squeezed(s)| <= |s|
  {
    hide IsSpace;
    if s != "" {
      SqueezedShorter(s[..|s| - 1]);
    }
  }

  /** Dropping blanks at the end and squeezing commute. */
  lemma {:induction false} SqueezedDrop(s: string)
    requires Plain(s)
    ensures Squeezed(DropSpacesAtEnd(s)) == DropSpacesAtEnd(Squeezed(s))
    ensures |s| - |DropSpacesAtEnd(s)| == (if EndsBlank(s) then 1 else 0)
    ensures |Squeezed(s)| - |DropSpacesAtEnd(Squeezed(s))| == (if EndsBlank(s) then 1 else 0)
  {
    hide IsSpace, Squeezed, DropSpacesAtEnd;
    SqueezedEnds(s);
    if EndsBlank(s) {
      var u := s[..|s| - 1];
      assert s == u + [' '];
      BlankIsSpace();
      SqueezedOne(u, ' ');
      assert !EndsInSpace(u);
      SqueezedEnds(u);
      DropBlank(u);
      DropBlank(Squeezed(u));
    } else {
      assert !EndsInSpace(s);
      DropNone(s);
      DropNone(Squeezed(s));
    }
  }

  lemma DropBlank(u: string)
    requires !EndsBlank(u)
    ensures DropSpacesAtEnd(u + [' ']) == u && DropSpacesAtEnd(u) == u
  {
    DropOne(u + [' ']);
    assert (u + [' '])[..|u|] == u;
    DropNone(u);
  }

  /** The gap before a qualifier. */
  function Gap(s: string): string {
    if s == "" || EndsBlank(s) then s else s + [' ']
  }

  lemma SqueezedConst(out: string)
    ensures Squeezed(WithConst(out)) == Gap(Squeezed(out)) + Qualifier()
  {
    hide IsSpace, Squeezed, Qualifier;
    BlankIsSpace();
    SqueezedEnds(out);
    SqueezedOne(out, ' ');
    if out == "" {
      SqueezedSolid("", Qualifier());
      assert "" + Qualifier() == Qualifier();
      assert Squeezed("") + Qualifier() == Qualifier();
    } else {
      SqueezedSolid(out + [' '], Qualifier());
    }
  }

  lemma SqueezedStar(out: string)
    requires Plain(out)
    ensures Squeezed(DropSpacesAtEnd(out) + [' ', '*']) == DropSpacesAtEnd(Squeezed(out)) + [' ', '*']
  {
    hide IsSpace, Squeezed, DropSpacesAtEnd;
    BlankIsSpace();
    var o := DropSpacesAtEnd(out);
    SqueezedDrop(out);
    if o != "" {
      assert o[|o| - 1] == out[|o| - 1];
    }
    assert !EndsInSpace(o);
    SqueezedOne(o, ' ');
    SqueezedOne(o + [' '], '*');
    assert o + [' ', '*'] == o + [' '] + ['*'];
    assert Squeezed(o) + [' ', '*'] == Squeezed(o) + [' '] + ['*'];
  }

  // ----- types in normal form

  /** Every star has a blank before it, and only a star follows a blank at the start. */
  predicate Starred(s: string) {
    && (forall k :: 0 <= k < |s| && s[k] == '*' ==> k > 0 && s[k - 1] == ' ')
    && (s != "" && s[0] == ' ' ==> |s| > 1 && s[1] == '*')
  }

  predicate Shaped(s: string) {
    |s| < TYPE_LEN && Single(s) && !EndsBlank(s) && Starred(s)
  }

  /** What may come after a star and a blank. */
  predicate Followed(s: string, k: nat)
    requires k < |s|
  {
    k + 1 < |s| && s[k + 1] == ' ' ==> k + 2 < |s| && (s[k + 2] == '*' || ConstAt(s, k + 2))
  }

  predicate EndsQualified(s: string) {
    |s| >= 5 && ConstAt(s, |s| - 5)
  }

  /** A qualifier that is written with a second blank before it. */
  predicate Doubled(s: string, k: nat)
    requires k <= |s|
  {
    k >= 2 && s[k - 2] != '*' && ConstAt(s, k)
  }

  /** How many qualifiers with a blank after them are so written. */
  function Extra(s: string): nat {
    if |s| < 6 then 0
    else Extra(s[..|s| - 1]) + (if s[|s| - 1] == ' ' && Doubled(s, |s| - 6) then 1 else 0)
  }

  /** A type in normal form: qualifiers stand before what they qualify and there is room to write them. */
  predicate TypeNormal(s: string) {
    && Shaped(s)
    && (forall k :: 0 <= k < |s| && s[k] == '*' ==> Followed(s, k))
    && !EndsQualified(s)
    && |s| + Extra(s) < TYPE_LEN
  }

  lemma {:induction false} ExtraGrows(s: string, p: nat)
    requires p <= |s|
    ensures Extra(s[..p]) <= Extra(s)
  {
    hide Doubled;
    if p < |s| {
      ExtraGrows(s[..|s| - 1], p);
      assert s[..|s| - 1][..p] == s[..p];
    } else {
      assert s[..p] == s;
    }
  }

  /** A character that is no blank, or a blank after something else than a qualifier, adds nothing. */
  lemma ExtraOne(s: string, c: char)
    ensures Extra(s + [c]) == Extra(s) + (if |s| >= 5 && c == ' ' && Doubled(s + [c], |s| - 5) then 1 else 0)
  {
    hide Doubled;
    assert (s + [c])[..|s|] == s;
    if |s| < 5 {
      assert Extra(s) == 0;
    }
  }

  /** What surrounds a qualifier in a shaped text. */
  lemma ConstFacts(s: string, k: nat)
    requires Shaped(s) && k <= |s| && ConstAt(s, k)
    ensures k + 5 == |s| || (k + 6 < |s| && s[k + 5] == ' ')
    ensures k > 0 ==> s[k - 1] == ' '
    ensures forall j :: k <= j < k + 5 ==> IsAlpha(s[j])
    ensures s[k..k + 5] == Qualifier()
    ensures forall j :: k < j < k + 6 && j <= |s| ==> !ConstAt(s, j)
  {
    hide Qualifier;
    forall j | k <= j < k + 5 ensures IsAlpha(s[j]) && !IsSpace(s[j]) && s[j] != ' ' {
      assert s[j] == Qualifier()[j - k];
    }
    assert k + 5 < |s| ==> s[k + 5] != '*';
    assert k + 5 < |s| ==> s[k + 5] == ' ' && k + 6 < |s|;
    forall j | k < j < k + 6 && j <= |s| ensures !ConstAt(s, j) {
      assert !IsSpace(s[j - 1]);
    }
  }

  // ----- rebuilding a text that is to stay the same

  /** The whitespace a text may begin with is trimmed before it is rebuilt. */
  function Lead(s: string): nat {
    if s != "" && s[0] == ' ' then 1 else 0
  }

  predicate Passed(s: string, q: nat)
    requires q <= |s|
  {
    && (forall k :: 0 <= k < q && ConstAt(s, k) ==> k + 6 <= q)
    && (forall k :: 0 <= k < q && s[k] == '*' ==> Followed(s, k))
  }

  /** What is written is the text up to p, and p is q or a skipped blank before it. */
  predicate Kept(s: string, q: nat, p: nat)
    requires p <= q <= |s|
  {
    if p == q then
      && Lead(s) <= q
      && (q > 0 && s[q - 1] == '*' && q < |s| ==> s[q] != ' ')
      && (q > 1 && s[q - 1] == ' ' ==> s[q - 2] != '*')
    else
      && p + 1 == q < |s| && s[p] == ' '
      && (if p == 0 then s[q] == '*' else s[p - 1] == '*' && (s[q] == '*' || ConstAt(s, q)))
  }

  predicate Wrote(s: string, p: nat, out: string)
    requires p <= |s|
  {
    && Squeezed(out) == s[..p] && Plain(out)
    && |out| == p + Extra(s[..p]) && |out| < TYPE_LEN
  }

  predicate Before(s: string, q: nat, p: nat, out: string) {
    && Shaped(s) && p <= q <= |s|
    && Passed(s, q) && Kept(s, q, p) && Wrote(s, p, out)
  }

  predicate Settled(s: string, result: string) {
    Collapsed(result, TYPE_LEN) == s <==> TypeNormal(s)
  }

  /** When the buffer is full before the end, the text does not come back, and it is not in normal form. */
  lemma StopsEarly(s: string, p: nat, out: string)
    requires Shaped(s) && p < |s|
    requires |Squeezed(out)| <= p && |out| <= p + Extra(s[..p]) && |out| + 1 >= TYPE_LEN
    ensures Settled(s, out)
  {
    hide Shaped, Squeezed, Extra;
    ExtraGrows(s, p);
  }

  lemma AtTheEnd(s: string, out: string)
    requires Before(s, |s|, |s|, out)
    ensures Settled(s, out)
  {
    hide Extra, Squeezed, Single, Starred, Plain;
    assert s[..|s|] == s;
    DropNone(s);
    assert !EndsQualified(s);
  }

  lemma PlainOne(out: string, c: char)
    requires Plain(out) && (IsSpace(c) ==> c == ' ') && (c == ' ' ==> !EndsBlank(out))
    ensures Plain(out + [c])
  {
    hide IsSpace;
    assert (out + [c])[..|out|] == out;
  }

  /** A character of a word or a blank between words is copied. */
  lemma CopyWrites(s: string, q: nat, out: string)
    requires Shaped(s) && q < |s| && Wrote(s, q, out) && |out| + 1 < TYPE_LEN
    requires s[q] == ' ' ==> q > 0 && !(q >= 5 && ConstAt(s, q - 5))
    ensures Wrote(s, q + 1, out + [s[q]])
  {
    hide Extra, Squeezed, IsSpace, ConstAt;
    var c := s[q];
    SqueezedOne(out, c);
    SqueezedEnds(out);
    assert s[..q + 1] == s[..q] + [c];
    BlankIsSpace();
    if c == ' ' {
      assert s[q - 1] != ' ';
      if q >= 5 {
        ConstCut(s, q - 5, q + 1);
      }
    }
    assert EndsInSpace(out) ==> EndsBlank(out);
    PlainOne(out, c);
    ExtraOne(s[..q], c);
  }

  /** A qualifier with a character after it is seen in the text cut behind that one. */
  lemma ConstCut(s: string, k: nat, n: nat)
    requires k + 6 <= n <= |s|
    ensures ConstAt(s[..n], k) <==> ConstAt(s, k)
  {
    hide IsSpace, Qualifier;
    assert s[..n][k..k + 5] == s[k..k + 5];
  }

  lemma CopyStep(s: string, q: nat, p: nat, out: string)
    requires Before(s, q, p, out) && q < |s| && |out| + 1 < TYPE_LEN
    requires !ConstAt(s, q) && s[q] != '*'
    ensures Before(s, q + 1, q + 1, out + [s[q]])
  {
    hide ConstAt, Squeezed, Extra, Plain, IsSpace, Followed, Wrote, Single;
    assert p == q;
    CopyWrites(s, q, out);
  }

  lemma {:induction false} ExtraSolid(s: string, word: string)
    requires Solid(word)
    ensures Extra(s + word) == Extra(s)
  {
    hide Extra, Doubled, IsSpace;
    BlankIsSpace();
    if word == "" {
      assert s + word == s;
    } else {
      var n := |word| - 1;
      ExtraSolid(s, word[..n]);
      ExtraOne(s + word[..n], word[n]);
      assert s + word == s + word[..n] + [word[n]];
    }
  }

  lemma NoQualifier(s: string, k: nat, j: nat)
    requires k <= j < k + 5 <= |s| && !IsAlpha(s[j])
    ensures !ConstAt(s, k)
  {
    hide Qualifier, IsAlpha;
    assert s[k..k + 5][j - k] == s[j];
  }

  /** Before a qualifier the gap is there or is made. */
  lemma GapMade(s: string, q: nat, p: nat)
    requires Shaped(s) && p <= q <= |s| && Kept(s, q, p) && ConstAt(s, q)
    ensures Gap(s[..p]) == s[..q] && (p == 0 ==> q == 0)
    ensures Extra(s[..q]) == Extra(s[..p])
    ensures Doubled(s, q) <==> p == q && q > 0
  {
    hide Extra, ConstAt, IsSpace, Qualifier;
    ConstFacts(s, q);
    if p < q {
      assert s[..q] == s[..p] + [' '];
      ExtraOne(s[..p], ' ');
      if p >= 5 {
        NoQualifier(s[..q], p - 5, p - 1);
      }
    }
  }

  /** A qualifier is written behind a gap of its own. */
  lemma ConstWrites(s: string, q: nat, p: nat, out: string)
    requires Shaped(s) && p <= q <= |s| && Kept(s, q, p) && ConstAt(s, q) && Wrote(s, p, out)
    ensures q + 5 <= |s| && Squeezed(WithConst(out)) == s[..q + 5]
    ensures |WithConst(out)| == q + 5 + Extra(s[..p]) + (if Doubled(s, q) then 1 else 0)
    ensures Extra(s[..q + 5]) == Extra(s[..p]) && !EndsBlank(WithConst(out))
    ensures Plain(WithConst(out))
  {
    hide Extra, ConstAt, IsSpace, Doubled, Kept, Shaped, Squeezed;
    GapMade(s, q, p);
    SqueezedConst(out);
    SqueezedEnds(out);
    ConstFacts(s, q);
    BlankIsSpace();
    assert s[..q + 5] == s[..q] + s[q..q + 5];
    ExtraSolid(s[..q], Qualifier());
    hide Qualifier;
  }

  lemma AfterConst(s: string, q: nat)
    requires Shaped(s) && q + 6 <= |s| && Passed(s, q) && ConstAt(s, q)
    ensures Passed(s, q + 6) && Kept(s, q + 6, q + 6)
  {
    hide ConstAt, IsSpace, Followed, Qualifier;
    ConstFacts(s, q);
    forall k | 0 <= k < q + 6 && s[k] == '*' ensures Followed(s, k) {
      assert k < q;
    }
    forall k | 0 <= k < q + 6 && ConstAt(s, k) ensures k + 6 <= q + 6 {
      assert k <= q;
    }
  }

  lemma ConstStep(s: string, q: nat, p: nat, out: string)
    requires Before(s, q, p, out) && ConstAt(s, q) && q + 5 < |s| && |WithConst(out)| + 1 < TYPE_LEN
    ensures q + 6 <= |s| && Before(s, q + 6, q + 6, WithConst(out) + [' '])
  {
    hide ConstAt, Squeezed, Extra, IsSpace, Followed, Single, Kept, WithConst, Plain;
    ConstFacts(s, q);
    ConstWrites(s, q, p, out);
    var o := WithConst(out);
    assert s[..q + 6] == s[..q + 5] + [' '];
    SqueezedOne(o, ' ');
    SqueezedEnds(o);
    BlankIsSpace();
    ExtraOne(s[..q + 5], ' ');
    ConstCut(s, q, q + 6);
    AfterConst(s, q);
    PlainOne(o, ' ');
  }

  /** Where a star stands, a blank is written or dropped and written again. */
  lemma StarMade(s: string, q: nat, p: nat)
    requires Shaped(s) && p <= q < |s| && Kept(s, q, p) && s[q] == '*'
    ensures q > 0 && DropSpacesAtEnd(s[..p]) == s[..q - 1] && (EndsBlank(s[..p]) <==> p == q)
    ensures Extra(s[..q]) == Extra(s[..p])
    ensures s[..q + 1] == s[..q - 1] + [' ', '*']
  {
    hide Extra, ConstAt, IsSpace, DropSpacesAtEnd;
    assert s[q - 1] == ' ';
    var u := s[..q - 1];
    assert s[..q] == u + [' '];
    assert q > 1 ==> s[q - 2] != ' ';
    DropBlank(u);
    if p < q {
      ExtraOne(s[..p], ' ');
      if p >= 5 {
        NoQualifier(s[..q], p - 5, p - 1);
      }
    }
  }

  lemma StarWrites(s: string, q: nat, p: nat, out: string)
    requires Shaped(s) && p <= q < |s| && Kept(s, q, p) && s[q] == '*' && Wrote(s, p, out)
    ensures |DropSpacesAtEnd(out)| + 1 == q + Extra(s[..p])
    ensures |DropSpacesAtEnd(out)| + 2 < TYPE_LEN ==> Wrote(s, q + 1, WithStar(out))
  {
    hide Extra, IsSpace, Kept, Shaped, Squeezed, DropSpacesAtEnd;
    StarMade(s, q, p);
    SqueezedStar(out);
    SqueezedDrop(out);
    SqueezedEnds(out);
    ExtraOne(s[..q], '*');
    assert s[..q + 1] == s[..q] + ['*'];
    var o := DropSpacesAtEnd(out);
    assert o + [' ', '*'] == o + [' '] + ['*'];
    PlainStar(out);
  }

  lemma PlainStar(out: string)
    requires Plain(out)
    ensures Plain(DropSpacesAtEnd(out) + [' ', '*'])
  {
    hide DropSpacesAtEnd;
    BlankIsSpace();
    hide IsSpace;
    var o := DropSpacesAtEnd(out);
    forall i | 0 <= i < |o| && IsSpace(o[i]) ensures o[i] == ' ' {
      assert o[i] == out[i];
    }
  }

  lemma StarStep(s: string, q: nat, p: nat, out: string)
    requires Before(s, q, p, out) && q < |s| && s[q] == '*' && Followed(s, q)
    requires |DropSpacesAtEnd(out)| + 2 < TYPE_LEN
    ensures Before(s, PastBlanks(s, q + 1), q + 1, WithStar(out))
  {
    hide Squeezed, Extra, IsSpace, DropSpacesAtEnd, WithStar, Wrote;
    StarWrites(s, q, p, out);
    OneBlankAhead(s, q + 1);
    AfterStar(s, q, p, PastBlanks(s, q + 1));
  }

  lemma OneBlankAhead(s: string, i: nat)
    requires Single(s) && !EndsBlank(s) && i <= |s|
    ensures PastBlanks(s, i) == if i < |s| && s[i] == ' ' then i + 1 else i
    ensures i < |s| && s[i] == ' ' ==> i + 1 < |s| && s[i + 1] != ' '
  {
  }

  lemma AfterStar(s: string, q: nat, p: nat, n: nat)
    requires Shaped(s) && p <= q < |s| && s[q] == '*' && Followed(s, q) && Passed(s, q) && Kept(s, q, p)
    requires n == if q + 1 < |s| && s[q + 1] == ' ' then q + 2 else q + 1
    ensures n <= |s| && Passed(s, n) && Kept(s, n, q + 1)
  {
    hide IsSpace, Qualifier, Single;
    assert ConstAt(s, q) ==> false by { if q + 5 <= |s| { NoQualifier(s, q, q); } }
    if q + 2 <= n && q + 6 <= |s| {
      NoQualifier(s, q + 1, q + 1);
    }
    hide ConstAt, Followed;
  }

  // ----- a star that is lost

  function Stars(s: string): nat {
    multiset(s)['*']
  }

  lemma StarsOf(a: string, b: string)
    ensures Stars(a + b) == Stars(a) + Stars(b)
  {
  }

  lemma {:induction false} StarsSqueezed(s: string)
    ensures Stars(Squeezed(s)) == Stars(s)
  {
    hide IsSpace;
    BlankIsSpace();
    if s != "" {
      var n := |s| - 1;
      StarsSqueezed(s[..n]);
      assert s == s[..n] + [s[n]];
      StarsOf(s[..n], [s[n]]);
      StarsOf(Squeezed(s[..n]), [s[n]]);
      StarsOf(Squeezed(s[..n]), [' ']);
    }
  }

  lemma StarsPrefix(s: string, n: nat)
    requires n <= |s|
    ensures Stars(s[..n]) <= Stars(s)
  {
    assert s == s[..n] + s[n..];
    StarsOf(s[..n], s[n..]);
  }

  lemma StarsCollapsed(s: string)
    ensures Stars(Collapsed(s, TYPE_LEN)) <= Stars(s)
  {
    hide Squeezed, Stars;
    var c := Collapsed(s, TYPE_LEN);
    StarsSqueezed(s);
    StarsPrefix(Squeezed(s), |c|);
    assert c == Squeezed(s)[..|c|];
  }

  /** Rebuilding writes no star that it does not read. */
  lemma {:induction false} StarsRebuilt(b: string, i: nat, out: string, pending: bool)
    requires i <= |b|
    ensures Stars(Rebuilt(b, i, out, pending)) <= Stars(out) + Stars(b[i..])
    decreases |b| - i
  {
    hide ConstAt, Stars, WithStar, WithConst;
    if i == |b| || |out| + 1 >= TYPE_LEN {
    } else if ConstAt(b, i) {
      ConstEnd(b, i);
      StarsRebuilt(b, i + 5, out, true);
      StarsTail(b, i, i + 5);
    } else if b[i] == '*' {
      var j := PastBlanks(b, i + 1);
      StarsRebuilt(b, j, WithStar(out), pending);
      StarsTail(b, i + 1, j);
      StarsNext(b, i);
      StarsWithStar(out);
    } else {
      var o := if pending then WithConst(out) else out;
      StarsWithConst(out);
      StarsOf(o, [b[i]]);
      StarsNext(b, i);
      if |o| + 1 < TYPE_LEN {
        StarsRebuilt(b, i + 1, o + [b[i]], false);
      }
    }
  }

  lemma ConstEnd(b: string, i: nat)
    requires i <= |b| && ConstAt(b, i)
    ensures i + 5 <= |b|
  {
  }

  lemma StarsTail(b: string, i: nat, j: nat)
    requires i <= j <= |b|
    ensures Stars(b[j..]) <= Stars(b[i..])
  {
    hide Stars;
    assert b[i..] == b[i..j] + b[j..];
    StarsOf(b[i..j], b[j..]);
  }

  lemma StarsNext(b: string, i: nat)
    requires i < |b|
    ensures Stars(b[i..]) == Stars([b[i]]) + Stars(b[i + 1..])
    ensures Stars([b[i]]) == if b[i] == '*' then 1 else 0
  {
    assert b[i..] == [b[i]] + b[i + 1..];
    StarsOf([b[i]], b[i + 1..]);
  }

  lemma StarsWithStar(out: string)
    ensures Stars(WithStar(out)) <= Stars(out) + 1
  {
    hide DropSpacesAtEnd, Stars;
    var o := DropSpacesAtEnd(out);
    StarsPrefix(out, |o|);
    StarsOf(o, [' ', '*']);
    assert Stars([' ', '*']) == 1 by { assert [' ', '*'] == [' '] + ['*']; StarsNext([' ', '*'], 0); StarsNext(['*'], 0); }
  }

  lemma StarsWithConst(out: string)
    ensures Stars(WithConst(out)) == Stars(out)
  {
    hide Stars, Qualifier;
    StarsOf(out, [' ']);
    StarsOf(out + [' '], Qualifier());
    StarsOf("", Qualifier());
    assert "" + Qualifier() == Qualifier();
    NoStars(Qualifier());
    NoStars([' ']);
    NoStars("");
  }

  lemma NoStars(s: string)
    requires '*' !in s
    ensures Stars(s) == 0
  {
  }

  lemma LostStar(s: string, q: nat, p: nat, out: string)
    requires Before(s, q, p, out) && q < |s| && s[q] == '*' && |out| + 1 < TYPE_LEN
    requires |DropSpacesAtEnd(out)| + 2 >= TYPE_LEN
    ensures Settled(s, Rebuilt(s, q, out, false))
  {
    hide Rebuilt, Extra, Squeezed, Stars, DropSpacesAtEnd, Collapsed, Plain, Kept;
    AtStar(s, q, out, false);
    StarWrites(s, q, p, out);
    ExtraGrows(s, p);
    var o := DropSpacesAtEnd(out);
    var j := PastBlanks(s, q + 1);
    var r := Rebuilt(s, j, o, false);
    assert r == Rebuilt(s, q, out, false);
    StarsRebuilt(s, j, o, false);
    StarsTail(s, q + 1, j);
    StarsNext(s, q);
    StarsPrefix(out, |o|);
    StarsSqueezed(out);
    StarsPrefix(s[..q], p);
    assert s[..q][..p] == s[..p];
    assert s == s[..q] + s[q..];
    StarsOf(s[..q], s[q..]);
    StarsCollapsed(r);
    assert Stars(Collapsed(r, TYPE_LEN)) < Stars(s);
  }

  // ----- what is written stays

  lemma {:induction false} Keeps(w: string, b: string, i: nat, out: string, pending: bool)
    requires i <= |b| && w <= out && w != "" && !EndsBlank(w)
    ensures w <= Rebuilt(b, i, out, pending)
    decreases |b| - i
  {
    hide ConstAt, DropSpacesAtEnd;
    if i == |b| || |out| + 1 >= TYPE_LEN {
    } else if ConstAt(b, i) {
      ConstEnd(b, i);
      Keeps(w, b, i + 5, out, true);
    } else if b[i] == '*' {
      DropKeeps(w, out);
      Keeps(w, b, PastBlanks(b, i + 1), WithStar(out), pending);
    } else {
      var o := if pending then WithConst(out) else out;
      assert w <= o;
      if |o| + 1 < TYPE_LEN {
        Keeps(w, b, i + 1, o + [b[i]], false);
      }
    }
  }

  lemma {:induction false} DropKeeps(w: string, out: string)
    requires w <= out && w != "" && !EndsBlank(w)
    ensures w <= DropSpacesAtEnd(out)
  {
    if EndsBlank(out) {
      assert w != out;
      DropKeeps(w, out[..|out| - 1]);
    }
  }

  lemma CollapsedKeeps(w: string, r: string, k: nat)
    requires w <= r && k < |Squeezed(w)| && k < |Collapsed(r, TYPE_LEN)|
    ensures Collapsed(r, TYPE_LEN)[k] == Squeezed(w)[k]
  {
    hide Squeezed;
    assert r == w + r[|w|..];
    SqueezedGrows(w, r[|w|..]);
  }

  /** A blank between a star and a word is not written. */
  lemma BlankIsLost(s: string, q: nat, p: nat, out: string)
    requires Before(s, q, p, out) && q < |s| && s[q] == '*' && |out| + 1 < TYPE_LEN
    requires |DropSpacesAtEnd(out)| + 2 < TYPE_LEN && !Followed(s, q)
    ensures Settled(s, Rebuilt(s, q, out, false))
  {
    hide Rebuilt, Extra, Squeezed, DropSpacesAtEnd, Collapsed, Plain, Kept, ConstAt, WithStar, IsSpace;
    AtStar(s, q, out, false);
    StarWrites(s, q, p, out);
    OneBlankAhead(s, q + 1);
    var o := WithStar(out);
    if |o| + 1 >= TYPE_LEN {
      Stopped(s, q + 2, o, false);
      StopsEarly(s, q + 1, o);
    } else {
      AtWord(s, q + 2, o);
      var x := s[q + 2];
      var w := o + [x];
      Keeps(w, s, q + 3, w, false);
      var r := Rebuilt(s, q, out, false);
      BlankIsLostThere(s, q, o, x, r);
    }
  }

  lemma BlankIsLostThere(s: string, q: nat, o: string, x: char, r: string)
    requires Shaped(s) && q + 1 < |s| && s[q + 1] == ' ' && Squeezed(o) == s[..q + 1] && !IsSpace(x)
    requires o + [x] <= r
    ensures Collapsed(r, TYPE_LEN) != s
  {
    hide Squeezed, Collapsed;
    SqueezedOne(o, x);
    BlankIsSpace();
    if Collapsed(r, TYPE_LEN) == s {
      CollapsedKeeps(o + [x], r, q + 1);
    }
  }

  lemma Stopped(b: string, i: nat, out: string, pending: bool)
    requires i <= |b| && (i == |b| || |out| + 1 >= TYPE_LEN)
    ensures Rebuilt(b, i, out, pending) == out
  {
  }

  lemma AtWord(b: string, i: nat, out: string)
    requires i < |b| && b[i] != '*' && !ConstAt(b, i) && |out| + 1 < TYPE_LEN
    ensures Rebuilt(b, i, out, false) == Rebuilt(b, i + 1, out + [b[i]], false)
  {
  }

  /** A pending qualifier is written before the next character. */
  lemma AtFlush(b: string, i: nat, out: string)
    requires i < |b| && b[i] != '*' && !ConstAt(b, i) && |out| + 1 < TYPE_LEN
    ensures var o := WithConst(out);
      Rebuilt(b, i, out, true) == if |o| + 1 < TYPE_LEN then Rebuilt(b, i + 1, o + [b[i]], false) else o
  {
    hide ConstAt, WithConst;
  }

  lemma LastQualifierIsLost(s: string, q: nat, p: nat, out: string)
    requires Before(s, q, p, out) && ConstAt(s, q) && q + 5 == |s| && |out| + 1 < TYPE_LEN
    ensures Settled(s, Rebuilt(s, q, out, false))
  {
    hide Rebuilt, ConstAt, Squeezed;
    AtConst(s, q, out, false);
    AtEnd(s, out, true);
    assert EndsQualified(s);
  }

  lemma GapDoesNotFit(s: string, q: nat, p: nat, out: string)
    requires Before(s, q, p, out) && ConstAt(s, q) && q + 5 < |s| && |out| + 1 < TYPE_LEN
    requires |WithConst(out)| + 1 >= TYPE_LEN
    ensures Settled(s, Rebuilt(s, q, out, false))
  {
    hide Rebuilt, ConstAt, Squeezed, Collapsed, WithConst, Extra, Plain, TypeNormal, Doubled, Kept, Passed;
    ConstFacts(s, q);
    AtConst(s, q, out, false);
    AtFlush(s, q + 5, out);
    ConstWrites(s, q, p, out);
    ExtraGrows(s[..q + 6], q + 5);
    assert s[..q + 6][..q + 5] == s[..q + 5];
    hide Shaped;
    StopsEarly(s, q + 6, WithConst(out));
  }

  lemma GapIsWritten(s: string, q: nat, p: nat, out: string)
    requires Before(s, q, p, out) && ConstAt(s, q) && q + 5 < |s| && |out| + 1 < TYPE_LEN
    requires |WithConst(out)| + 1 < TYPE_LEN
    ensures q + 6 <= |s| && Rebuilt(s, q, out, false) == Rebuilt(s, q + 6, WithConst(out) + [' '], false)
  {
    hide Rebuilt, ConstAt, WithConst, Wrote, Passed, Kept;
    ConstFacts(s, q);
    AtConst(s, q, out, false);
    AtFlush(s, q + 5, out);
  }

  lemma {:induction false} FixedFrom(s: string, q: nat, p: nat, out: string)
    requires Before(s, q, p, out)
    ensures Settled(s, Rebuilt(s, q, out, false))
    decreases |s| - q
  {
    hide Rebuilt, ConstAt, Wrote, Passed, Shaped, Settled, WithConst, WithStar, DropSpacesAtEnd, Extra, Followed;
    if q == |s| {
      assert p == q;
      AtTheEnd(s, out);
      AtEnd(s, out, false);
    } else if |out| + 1 >= TYPE_LEN {
      Stopped(s, q, out, false);
      Stops(s, q, p, out);
    } else if ConstAt(s, q) {
      ConstEnd(s, q);
      if q + 5 == |s| {
        LastQualifierIsLost(s, q, p, out);
      } else if |WithConst(out)| + 1 >= TYPE_LEN {
        GapDoesNotFit(s, q, p, out);
      } else {
        ConstStep(s, q, p, out);
        GapIsWritten(s, q, p, out);
        FixedFrom(s, q + 6, q + 6, WithConst(out) + [' ']);
      }
    } else if s[q] == '*' {
      if |DropSpacesAtEnd(out)| + 2 >= TYPE_LEN {
        LostStar(s, q, p, out);
      } else if !Followed(s, q) {
        BlankIsLost(s, q, p, out);
      } else {
        AtStar(s, q, out, false);
        StarStep(s, q, p, out);
        FixedFrom(s, PastBlanks(s, q + 1), q + 1, WithStar(out));
      }
    } else {
      AtWord(s, q, out);
      CopyStep(s, q, p, out);
      FixedFrom(s, q + 1, q + 1, out + [s[q]]);
    }
  }

  lemma Stops(s: string, q: nat, p: nat, out: string)
    requires Before(s, q, p, out) && q < |s| && |out| + 1 >= TYPE_LEN
    ensures Settled(s, out)
  {
    hide Shaped, Squeezed, Extra, Plain, Passed, Settled;
    assert p < |s|;
    StopsEarly(s, p, out);
  }

  // ----- the leading blank

  /** A text with a blank before it is rebuilt as the text is. */
  lemma {:induction false} Shifted(s: string, i: nat, out: string, pending: bool)
    requires s != "" && IsSpace(s[0]) && i < |s|
    ensures Rebuilt(s[1..], i, out, pending) == Rebuilt(s, i + 1, out, pending)
    decreases |s| - i
  {
    hide ConstAt, WithConst, WithStar, IsSpace;
    var b := s[1..];
    ShiftedConst(s, i);
    if i == |b| || |out| + 1 >= TYPE_LEN {
    } else if ConstAt(b, i) {
      ConstEnd(b, i);
      Shifted(s, i + 5, out, true);
    } else if b[i] == '*' {
      ShiftedBlanks(s, i + 1);
      Shifted(s, PastBlanks(b, i + 1), WithStar(out), pending);
    } else {
      var o := if pending then WithConst(out) else out;
      if |o| + 1 < TYPE_LEN {
        Shifted(s, i + 1, o + [b[i]], false);
      }
    }
  }

  lemma ShiftedConst(s: string, i: nat)
    requires s != "" && IsSpace(s[0]) && i < |s|
    ensures ConstAt(s[1..], i) <==> ConstAt(s, i + 1)
  {
    hide IsSpace, Qualifier;
    if i + 6 <= |s| {
      assert s[1..][i..i + 5] == s[i + 1..i + 6];
    }
  }

  lemma {:induction false} ShiftedBlanks(s: string, i: nat)
    requires s != "" && i < |s|
    ensures PastBlanks(s, i + 1) == PastBlanks(s[1..], i) + 1
    decreases |s| - i
  {
    if i + 1 < |s| && s[i + 1] == ' ' {
      ShiftedBlanks(s, i + 1);
    }
  }

  lemma LeadTrimmed(s: string)
    requires Shaped(s)
    ensures Normalized(s, TYPE_LEN) == s[Lead(s)..]
  {
    hide Squeezed, Starred;
    SingleSqueezes(s);
    DropNone(s);
    assert Collapsed(s, TYPE_LEN) == s;
    BlankIsSpace();
    assert s[0..] == s;
    if Lead(s) == 1 {
      TrimOne(s);
      assert s[1] == '*' by { LeadStar(s); }
    }
    var t := s[Lead(s)..];
    TrimNone(t);
    if t != "" {
      assert t[|t| - 1] == s[|s| - 1];
    }
    TrimNoLast(t);
  }

  lemma LeadStar(s: string)
    requires Shaped(s) && Lead(s) == 1
    ensures |s| > 1 && s[1] == '*'
  {
  }

  lemma StartsBefore(s: string)
    requires Shaped(s)
    ensures Before(s, Lead(s), 0, "")
  {
    assert s[..0] == "";
    if Lead(s) == 1 {
      LeadStar(s);
    }
  }

  lemma ShapedSettles(s: string)
    requires Shaped(s)
    ensures NormalType(s) == s <==> TypeNormal(s)
  {
    hide Rebuilt, Shaped, Starred, Squeezed, Normalized, ConstAt, Extra, Single, TypeNormal, Before, Collapsed;
    LeadTrimmed(s);
    StartsBefore(s);
    var q := Lead(s);
    FixedFrom(s, q, 0, "");
    if q == 1 {
      BlankIsSpace();
      LeadStar(s);
      Shifted(s, 0, "", false);
    } else {
      assert s[0..] == s;
    }
    assert NormalType(s) == Collapsed(Rebuilt(s, q, "", false), TYPE_LEN);
  }

  // ----- the shape of what is stored

  /** What is written so far, and that no blank comes first. */
  predicate Shapely(b: string, i: nat, out: string, pending: bool)
    requires i <= |b|
  {
    && OnlyBlanks(out) && Starred(out)
    && (out == "" && !pending && i < |b| ==> b[i] != ' ')
  }

  lemma ShapelyStar(out: string)
    requires OnlyBlanks(out) && Starred(out)
    ensures OnlyBlanks(WithStar(out)) && Starred(WithStar(out)) && WithStar(out) != ""
  {
    hide DropSpacesAtEnd;
    var o := DropSpacesAtEnd(out);
    assert forall k :: 0 <= k < |o| ==> o[k] == out[k];
    BlankIsSpace();
    hide IsSpace;
    var w := WithStar(out);
    assert OnlyBlanks(o);
    assert |o| >= 1 && o[0] == ' ' ==> |o| > 1;
    assert Starred(o);
  }

  lemma ShapelyConst(out: string)
    requires OnlyBlanks(out) && Starred(out)
    ensures OnlyBlanks(WithConst(out)) && Starred(WithConst(out)) && WithConst(out) != ""
  {
    BlankIsSpace();
    hide IsSpace;
    var q := Qualifier();
    hide Qualifier;
    assert forall k :: 0 <= k < 5 ==> q[k] != '*' && q[k] != ' ';
    var w := WithConst(out);
    assert out != "" ==> w[0] == out[0];
  }

  lemma {:induction false} RebuiltShape(b: string, i: nat, out: string, pending: bool)
    requires i <= |b| && OnlyBlanks(b) && Shapely(b, i, out, pending)
    ensures OnlyBlanks(Rebuilt(b, i, out, pending)) && Starred(Rebuilt(b, i, out, pending))
    decreases |b| - i
  {
    hide ConstAt, WithConst, WithStar, IsSpace;
    if i == |b| || |out| + 1 >= TYPE_LEN {
    } else if ConstAt(b, i) {
      ConstEnd(b, i);
      RebuiltShape(b, i + 5, out, true);
    } else if b[i] == '*' {
      ShapelyStar(out);
      RebuiltShape(b, PastBlanks(b, i + 1), WithStar(out), pending);
    } else {
      ShapelyConst(out);
      var o := if pending then WithConst(out) else out;
      if |o| + 1 < TYPE_LEN {
        RebuiltShape(b, i + 1, o + [b[i]], false);
      }
    }
  }

  predicate StarsLed(s: string) {
    forall k :: 0 <= k < |s| && s[k] == '*' ==> k > 0 && s[k - 1] == ' '
  }

  lemma {:induction false} SqueezedStarsLed(s: string)
    requires StarsLed(s)
    ensures StarsLed(Squeezed(s))
  {
    hide IsSpace;
    BlankIsSpace();
    if s != "" {
      var n := |s| - 1;
      SqueezedStarsLed(s[..n]);
      SqueezedEnds(s[..n]);
      assert n > 0 && s[n - 1] == ' ' ==> EndsInSpace(s[..n]);
    }
  }

  lemma SqueezedFirst(s: string)
    requires s != "" && !IsSpace(s[0])
    ensures Squeezed(s) != "" && Squeezed(s)[0] == s[0]
  {
    hide IsSpace;
    assert s[..1] == [s[0]] && s[..1][..0] == "";
    assert Squeezed(s[..1]) == [s[0]];
    SqueezedGrows(s[..1], s[1..]);
    assert s == s[..1] + s[1..];
  }

  lemma SqueezedLead(s: string)
    requires OnlyBlanks(s) && Starred(s) && Squeezed(s) != "" && Squeezed(s)[0] == ' '
    ensures |Squeezed(s)| > 1 && Squeezed(s)[1] == '*'
  {
    hide IsSpace, Squeezed;
    BlankIsSpace();
    SqueezedEnds(s);
    if !IsSpace(s[0]) {
      SqueezedFirst(s);
    }
    assert s[..2] == [' ', '*'];
    SingleSqueezes(s[..2]);
    SqueezedGrows(s[..2], s[2..]);
    assert s == s[..2] + s[2..];
  }

  lemma CollapsedShape(r: string)
    requires OnlyBlanks(r) && Starred(r)
    ensures Shaped(Collapsed(r, TYPE_LEN))
  {
    hide IsSpace, Squeezed, Single;
    var c := Collapsed(r, TYPE_LEN);
    CollapsedSingle(r, TYPE_LEN);
    SqueezedStarsLed(r);
    if c != "" && c[0] == ' ' {
      SqueezedLead(r);
    }
    assert c == Squeezed(r)[..|c|];
  }

  lemma StoredIsShaped(s: string)
    ensures Shaped(NormalType(s))
  {
    hide Rebuilt, Shaped, Squeezed, Collapsed, Normalized;
    var b := Normalized(s, TYPE_LEN);
    NormalizedIsNormal(s, TYPE_LEN);
    BlankIsSpace();
    RebuiltShape(b, 0, "", false);
    CollapsedShape(Rebuilt(b, 0, "", false));
  }

  /** Exactly the types in normal form are left alone. */
  lemma TypeNormalIff(s: string)
    ensures NormalType(s) == s <==> TypeNormal(s)
    ensures NormalType(NormalType(s)) == NormalType(s) <==> TypeNormal(NormalType(s))
  {
    hide NormalType, Shaped;
    StoredIsShaped(s);
    if Shaped(s) {
      ShapedSettles(s);
    }
    ShapedSettles(NormalType(s));
  }
}
