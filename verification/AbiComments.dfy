/** Removing comments from a source text in place. */
module AbiComments {
  datatype Mode = Code | Line | Block

  predicate Opens(s: string, second: char) {
    |s| >= 2 && s[0] == '/' && s[1] == second
  }

  predicate Closes(s: string) {
    |s| >= 2 && s[0] == '*' && s[1] == '/'
  }

  /** One step of the scan: the next mode, the characters passed, and whether the first is kept. */
  datatype Move = Move(mode: Mode, used: nat, keep: bool)

  function Look(s: string, mode: Mode): (k: Move)
    requires s != []
    ensures 1 <= k.used <= |s|
  {
    match mode
    case Line => if s[0] == '\n' then Move(Code, 1, true) else Move(Line, 1, false)
    case Block => if Closes(s) then Move(Code, 2, false) else Move(Block, 1, false)
    case Code =>
      if Opens(s, '/') then Move(Line, 2, false)
      else if Opens(s, '*') then Move(Block, 2, false)
      else Move(Code, 1, true)
  }

  /** What is left of a text read from the given mode. */
  function Stripped(s: string, mode: Mode): string
    decreases |s|
  {
    if s == [] then []
    else
      var k := Look(s, mode);
      (if k.keep then [s[0]] else []) + Stripped(s[k.used..], k.mode)
  }

  /** Nothing in the text opens a comment. */
  predicate NoComment(s: string) {
    forall i, j :: 0 <= i && j == i + 1 < |s| && s[i] == '/' ==> s[j] != '/' && s[j] != '*'
  }

  lemma NoCommentCons(c: char, s: string)
    requires NoComment(s) && (c == '/' && s != [] ==> s[0] != '/' && s[0] != '*')
    ensures NoComment([c] + s)
  {
    var t := [c] + s;
    forall i, j | 0 <= i && j == i + 1 < |t| && t[i] == '/' ensures t[j] != '/' && t[j] != '*' {
      if i > 0 {
        assert s[i - 1] == '/' && s[j - 1] == t[j];
      }
    }
  }

  /** A removed comment never joins its two sides into a new one. */
  lemma {:induction false} StrippedHasNone(s: string, mode: Mode)
    ensures NoComment(Stripped(s, mode))
    decreases |s|
  {
    hide NoComment;
    if s == [] {
      Empty();
    } else {
      var k := Look(s, mode);
      var rest := Stripped(s[k.used..], k.mode);
      StrippedHasNone(s[k.used..], k.mode);
      if k.keep {
        if s[0] == '/' && |s| >= 2 {
          assert s[1..][0] == s[1] != '/' && s[1] != '*';
          assert rest[0] == s[1];
        }
        NoCommentCons(s[0], rest);
      } else {
        assert [] + rest == rest;
      }
    }
  }

  lemma Empty()
    ensures NoComment([])
  {
  }

  lemma {:induction false} NoCommentIsKept(s: string)
    requires NoComment(s)
    ensures Stripped(s, Code) == s
  {
    if s != [] {
      assert |s| >= 2 && s[0] == '/' ==> s[1] != '/' && s[1] != '*';
      var t := s[1..];
      forall i, j | 0 <= i && j == i + 1 < |t| && t[i] == '/' ensures t[j] != '/' && t[j] != '*' {
        assert s[i + 1] == '/' && j + 1 == (i + 1) + 1;
      }
      NoCommentIsKept(t);
    }
  }

  /** Exactly the texts without comments are left alone, and stripping twice is stripping once. */
  lemma StrippedIff(s: string)
    ensures Stripped(s, Code) == s <==> NoComment(s)
    ensures Stripped(Stripped(s, Code), Code) == Stripped(s, Code)
  {
    hide NoComment;
    StrippedHasNone(s, Code);
    NoCommentIsKept(Stripped(s, Code));
    if NoComment(s) {
      NoCommentIsKept(s);
    }
  }

  // ----- what is left of a text with comments

  predicate EndsInSlash(s: string) {
    s != [] && s[|s| - 1] == '/'
  }

  /** No block comment closes in the text. */
  predicate NoClose(s: string) {
    forall i, j :: 0 <= i && j == i + 1 < |s| && s[i] == '*' ==> s[j] != '/'
  }

  /** A text without comments before one is kept. */
  lemma {:induction false} CodeIsKept(t: string, rest: string)
    requires NoComment(t) && !EndsInSlash(t)
    ensures Stripped(t + rest, Code) == t + Stripped(rest, Code)
  {
    if t == [] {
      assert t + rest == rest && t + Stripped(rest, Code) == Stripped(rest, Code);
    } else {
      var s := t + rest;
      assert s[1..] == t[1..] + rest;
      assert t[0] == '/' ==> |t| > 1 && s[1] == t[1];
      NoCommentTail(t);
      CodeIsKept(t[1..], rest);
      assert t + Stripped(rest, Code) == [t[0]] + (t[1..] + Stripped(rest, Code));
    }
  }

  lemma NoCommentTail(t: string)
    requires NoComment(t) && t != []
    ensures NoComment(t[1..])
  {
    var u := t[1..];
    forall i, j | 0 <= i && j == i + 1 < |u| && u[i] == '/' ensures u[j] != '/' && u[j] != '*' {
      assert t[i + 1] == '/' && j + 1 == (i + 1) + 1;
    }
  }

  lemma {:induction false} LineIsDropped(c: string, rest: string)
    requires '\n' !in c
    ensures Stripped(c + rest, Line) == Stripped(rest, Line)
  {
    if c == [] {
      assert c + rest == rest;
    } else {
      assert c[0] in c;
      assert (c + rest)[1..] == c[1..] + rest;
      LineIsDropped(c[1..], rest);
    }
  }

  /** Block mode up to a closing pair, or to the end. */
  lemma {:induction false} BlockIsDropped(c: string, rest: string)
    requires NoClose(c + ['*'])
    ensures Stripped(c + ("*/" + rest), Block) == Stripped(rest, Code)
  {
    var s := c + ("*/" + rest);
    if c == [] {
      assert s == "*/" + rest;
      assert s[2..] == rest;
    } else {
      var d := c + ['*'];
      assert d[0] == c[0] && s[0] == c[0];
      assert d[1] == s[1] by { assert |c| > 1 ==> d[1] == c[1]; }
      assert !Closes(s);
      assert s[1..] == c[1..] + ("*/" + rest);
      NoCloseTail(d);
      assert d[1..] == c[1..] + ['*'];
      BlockIsDropped(c[1..], rest);
    }
  }

  lemma NoCloseTail(s: string)
    requires NoClose(s) && s != []
    ensures NoClose(s[1..])
  {
    var u := s[1..];
    forall i, j | 0 <= i && j == i + 1 < |u| && u[i] == '*' ensures u[j] != '/' {
      assert s[i + 1] == '*' && j + 1 == (i + 1) + 1;
    }
  }

  lemma {:induction false} OpenBlockIsDropped(c: string)
    requires NoClose(c)
    ensures Stripped(c, Block) == []
  {
    if c != [] {
      assert !Closes(c);
      NoCloseTail(c);
      OpenBlockIsDropped(c[1..]);
    }
  }

  lemma LineOpens(rest: string)
    ensures Stripped("//" + rest, Code) == Stripped(rest, Line)
    ensures Stripped("/*" + rest, Code) == Stripped(rest, Block)
  {
    assert ("//" + rest)[2..] == rest && ("/*" + rest)[2..] == rest;
  }

  /** A line comment goes and its line feed stays. */
  lemma LineCommentLeaves(t: string, c: string, rest: string)
    requires NoComment(t) && !EndsInSlash(t) && '\n' !in c
    ensures Stripped(t + ("//" + (c + ("\n" + rest))), Code) == t + ("\n" + Stripped(rest, Code))
    ensures Stripped(t + ("//" + c), Code) == t
  {
    hide NoComment, Look;
    CodeIsKept(t, "//" + (c + ("\n" + rest)));
    LineOpens(c + ("\n" + rest));
    LineIsDropped(c, "\n" + rest);
    LineEnds(rest);
    CodeIsKept(t, "//" + c);
    LineOpens(c);
    LineIsDropped(c, []);
    StrippedNothing(Line);
    assert c + [] == c && t + [] == t;
  }

  lemma LineEnds(rest: string)
    ensures Stripped("\n" + rest, Line) == "\n" + Stripped(rest, Code)
  {
    assert ("\n" + rest)[1..] == rest;
  }

  /** A block comment goes whole; one that is not closed takes the rest of the text. */
  lemma BlockCommentLeaves(t: string, c: string, rest: string)
    requires NoComment(t) && !EndsInSlash(t)
    ensures NoClose(c + ['*']) ==> Stripped(t + ("/*" + (c + ("*/" + rest))), Code) == t + Stripped(rest, Code)
    ensures NoClose(c) ==> Stripped(t + ("/*" + c), Code) == t
  {
    hide NoComment, NoClose, Look;
    if NoClose(c + ['*']) {
      CodeIsKept(t, "/*" + (c + ("*/" + rest)));
      LineOpens(c + ("*/" + rest));
      BlockIsDropped(c, rest);
    }
    if NoClose(c) {
      CodeIsKept(t, "/*" + c);
      LineOpens(c);
      OpenBlockIsDropped(c);
      assert t + [] == t;
    }
  }

  /** Where the first comment opens: the text before it has none and does not end in a slash. */
  lemma {:induction false} FirstComment(s: string) returns (i: nat)
    requires !NoComment(s)
    ensures i + 1 < |s| && s[i] == '/' && (s[i + 1] == '/' || s[i + 1] == '*')
    ensures NoComment(s[..i]) && !EndsInSlash(s[..i])
  {
    if |s| >= 2 && s[0] == '/' && (s[1] == '/' || s[1] == '*') {
      i := 0;
    } else {
      var u := s[1..];
      assert !NoComment(u) by {
        if NoComment(u) {
          assert s == [s[0]] + u;
          NoCommentCons(s[0], u);
        }
      }
      i := FirstComment(u);
      i := i + 1;
      assert s[..i] == [s[0]] + u[..i - 1];
      if i > 1 {
        assert u[..i - 1][0] == s[1];
      } else {
        assert s[1] == '/';
      }
      NoCommentCons(s[0], u[..i - 1]);
    }
  }

  method Peek(text: array<char>, src: nat, n: nat, mode: Mode) returns (k: Move)
    requires src < n < text.Length
    ensures k == Look(text[src..n], mode)
  {
    if mode.Line? {
      return if text[src] == '\n' then Move(Code, 1, true) else Move(Line, 1, false);
    }
    if mode.Block? {
      return if src + 1 < n && text[src] == '*' && text[src + 1] == '/' then Move(Code, 2, false) else Move(Block, 1, false);
    }
    if src + 1 < n && text[src] == '/' && text[src + 1] == '/' {
      return Move(Line, 2, false);
    }
    if src + 1 < n && text[src] == '/' && text[src + 1] == '*' {
      return Move(Block, 2, false);
    }
    return Move(Code, 1, true);
  }

  /** Moves one character down and leaves what follows it. */
  method MoveDown(text: array<char>, src: nat, dst: nat)
    requires dst <= src < text.Length
    modifies text
    ensures text[..dst + 1] == old(text[..dst]) + [old(text[src])]
    ensures forall i :: src < i < text.Length ==> text[i] == old(text[i])
  {
    text[dst] := text[src];
  }

  lemma StrippedStep(s: string, mode: Mode, done: string)
    requires s != []
    ensures var k := Look(s, mode);
      done + Stripped(s, mode) == (if k.keep then done + [s[0]] else done) + Stripped(s[k.used..], k.mode)
  {
    hide Look;
    var k := Look(s, mode);
    var rest := Stripped(s[k.used..], k.mode);
    assert done + ([s[0]] + rest) == (done + [s[0]]) + rest;
    assert [] + rest == rest;
  }

  /** Copies what is kept over what was read, in one pass. */
  method StripComments(text: array<char>, n: nat) returns (m: nat)
    requires n < text.Length
    modifies text
    ensures m <= n && text[m] == '\0'
    ensures text[..m] == Stripped(old(text[..n]), Code)
  {
    hide NoComment, Look, Stripped;
    ghost var was := text[..n];
    var src := 0;
    var mode := Code;
    m := 0;
    assert was[0..] == was && text[..0] == [];
    while src < n
      invariant m <= src <= n
      invariant text[src..n] == was[src..]
      invariant text[..m] + Stripped(was[src..], mode) == Stripped(was, Code)
    {
      var k := Peek(text, src, n, mode);
      StrippedStep(was[src..], mode, text[..m]);
      assert was[src..][k.used..] == was[src + k.used..];
      ghost var after := text[src..n][k.used..];
      assert after == text[src + k.used..n];
      if k.keep {
        assert text[src] == was[src..][0];
        MoveDown(text, src, m);
        m := m + 1;
      }
      assert text[src + k.used..n] == after;
      src := src + k.used;
      mode := k.mode;
    }
    StrippedNothing(mode);
    assert was[n..] == [];
    ghost var kept := text[..m];
    text[m] := '\0';
    assert text[..m] == kept;
  }

  lemma StrippedNothing(mode: Mode)
    ensures Stripped([], mode) == []
  {
  }
}
