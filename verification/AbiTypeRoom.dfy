/** What the buffer of a type leaves out: no write when it fits, and the last qualifier always. */
module AbiTypeRoom {
  import opened AbiText
  import opened AbiTypes
  import opened AbiTypeLaws
  import opened AbiTypeRuns

  // ----- room in the buffer

  /** Every qualifier is written inside the buffer, with its terminator. */
  predicate InBuffer(b: string, i: nat, out: string, pending: bool)
    requires i <= |b|
    decreases |b| - i
  {
    if i == |b| || |out| + 1 >= TYPE_LEN then true
    else if ConstAt(b, i) then InBuffer(b, i + 5, out, true)
    else if b[i] == '*' then InBuffer(b, PastBlanks(b, i + 1), WithStar(out), pending)
    else
      var o := if pending then WithConst(out) else out;
      |o| < TYPE_LEN && (|o| + 1 < TYPE_LEN ==> InBuffer(b, i + 1, o + [b[i]], false))
  }

  /** No write leaves the buffer exactly when the result fits it. */
  lemma {:induction false} InBufferIff(b: string, i: nat, out: string, pending: bool)
    requires i <= |b| && |out| < TYPE_LEN
    ensures InBuffer(b, i, out, pending) <==> |Rebuilt(b, i, out, pending)| < TYPE_LEN
    decreases |b| - i
  {
    hide ConstAt, WithConst, DropSpacesAtEnd;
    if i == |b| || |out| + 1 >= TYPE_LEN {
    } else if ConstAt(b, i) {
      ConstEnd(b, i);
      InBufferIff(b, i + 5, out, true);
    } else if b[i] == '*' {
      InBufferIff(b, PastBlanks(b, i + 1), WithStar(out), pending);
    } else {
      var o := if pending then WithConst(out) else out;
      if |o| + 1 < TYPE_LEN {
        InBufferIff(b, i + 1, o + [b[i]], false);
      }
    }
  }

  /** Blanks at the end of what is written are taken back. */
  method TakeBackBlanks(rebuilt: array<char>, n: nat) returns (k: nat)
    requires n <= rebuilt.Length
    ensures k <= n && rebuilt[..k] == DropSpacesAtEnd(rebuilt[..n])
  {
    hide DropSpacesAtEnd;
    k := n;
    while k > 0 && rebuilt[k - 1] == ' '
      invariant k <= n && DropSpacesAtEnd(rebuilt[..k]) == DropSpacesAtEnd(rebuilt[..n])
    {
      DropOne(rebuilt[..k]);
      assert rebuilt[..k][..k - 1] == rebuilt[..k - 1];
      k := k - 1;
    }
    DropNone(rebuilt[..k]);
  }

  method WriteStar(rebuilt: array<char>, n: nat) returns (k: nat)
    requires n < rebuilt.Length == TYPE_LEN
    modifies rebuilt
    ensures k < TYPE_LEN && rebuilt[..k] == WithStar(old(rebuilt[..n]))
  {
    hide DropSpacesAtEnd;
    k := TakeBackBlanks(rebuilt, n);
    ghost var o := rebuilt[..k];
    if k + 2 < rebuilt.Length {
      rebuilt[k] := ' ';
      rebuilt[k + 1] := '*';
      k := k + 2;
      assert rebuilt[..k] == o + [' ', '*'];
    }
  }

  method WriteConst(rebuilt: array<char>, n: nat) returns (k: nat)
    requires n < rebuilt.Length == TYPE_LEN && |WithConst(rebuilt[..n])| < TYPE_LEN
    modifies rebuilt
    ensures k < TYPE_LEN && rebuilt[..k] == WithConst(old(rebuilt[..n]))
  {
    ghost var o := rebuilt[..n];
    var q := Qualifier();
    hide Qualifier;
    k := n;
    if k > 0 {
      rebuilt[k] := ' ';
      k := k + 1;
    }
    ghost var gap := rebuilt[..k];
    assert gap == if o == "" then "" else o + [' '];
    for j := 0 to 5
      invariant k + 5 < TYPE_LEN && rebuilt[..k + j] == gap + q[..j]
    {
      rebuilt[k + j] := q[j];
      assert q[..j + 1] == q[..j] + [q[j]];
      assert rebuilt[..k + j + 1] == gap + q[..j + 1];
    }
    assert q[..5] == q;
    k := k + 5;
  }

  method SkipBlanks(b: string, i: nat) returns (j: nat)
    requires i <= |b|
    ensures j == PastBlanks(b, i)
  {
    j := i;
    while j < |b| && b[j] == ' '
      invariant i <= j <= |b| && PastBlanks(b, j) == PastBlanks(b, i)
    {
      j := j + 1;
    }
  }

  lemma OneRound(b: string, i: nat, out: string, pending: bool)
    requires i < |b| && |out| + 1 < TYPE_LEN && InBuffer(b, i, out, pending)
    ensures ConstAt(b, i) ==>
      && i + 5 <= |b|
      && Rebuilt(b, i, out, pending) == Rebuilt(b, i + 5, out, true) && InBuffer(b, i + 5, out, true)
    ensures !ConstAt(b, i) && b[i] == '*' ==>
      var j := PastBlanks(b, i + 1);
      && Rebuilt(b, i, out, pending) == Rebuilt(b, j, WithStar(out), pending) && InBuffer(b, j, WithStar(out), pending)
    ensures !ConstAt(b, i) && b[i] != '*' ==>
      var o := if pending then WithConst(out) else out;
      && |o| < TYPE_LEN
      && (|o| + 1 < TYPE_LEN ==>
           && Rebuilt(b, i, out, pending) == Rebuilt(b, i + 1, o + [b[i]], false)
           && InBuffer(b, i + 1, o + [b[i]], false))
      && (|o| + 1 >= TYPE_LEN ==> Rebuilt(b, i, out, pending) == o)
  {
    hide WithConst, WithStar;
  }

  /** The rebuilding loop, in its buffer: no write leaves it when every qualifier fits. */
  method Rebuild(b: string, rebuilt: array<char>) returns (n: nat)
    requires rebuilt.Length == TYPE_LEN && InBuffer(b, 0, "", false)
    modifies rebuilt
    ensures n < TYPE_LEN && rebuilt[n] == '\0' && rebuilt[..n] == Rebuilt(b, 0, "", false)
  {
    hide Rebuilt, InBuffer, WithConst, WithStar;
    var i, pending := 0, false;
    n := 0;
    assert rebuilt[..0] == "";
    while i < |b| && n + 1 < rebuilt.Length
      invariant i <= |b| && n < TYPE_LEN
      invariant Rebuilt(b, i, rebuilt[..n], pending) == Rebuilt(b, 0, "", false)
      invariant InBuffer(b, i, rebuilt[..n], pending)
      decreases |b| - i
    {
      OneRound(b, i, rebuilt[..n], pending);
      if ConstAt(b, i) {
        pending := true;
        i := i + 5;
      } else if b[i] == '*' {
        n := WriteStar(rebuilt, n);
        i := SkipBlanks(b, i + 1);
      } else {
        if pending {
          n := WriteConst(rebuilt, n);
          pending := false;
        }
        ghost var o := rebuilt[..n];
        if n + 1 < rebuilt.Length {
          rebuilt[n] := b[i];
          assert rebuilt[..n + 1] == o + [b[i]];
          n := n + 1;
          i := i + 1;
        } else {
          Stopped(b, i, o, false);
          break;
        }
      }
    }
    Stopped(b, i, rebuilt[..n], pending);
    ghost var kept := rebuilt[..n];
    rebuilt[n] := '\0';
    assert rebuilt[..n] == kept;
  }

  /** A type as it is stored, computed in two buffers. */
  method NormalizeType(input: string) returns (kind: string)
    requires InBuffer(Normalized(input, TYPE_LEN), 0, "", false)
    ensures kind == NormalType(input)
  {
    hide Rebuilt, InBuffer, Normalized, Collapsed, Normal;
    var b := NormalizeValue(input, TYPE_LEN);
    var rebuilt := new char[TYPE_LEN];
    var n := Rebuild(b, rebuilt);
    var buffer := new char[TYPE_LEN];
    var m := CollapseSpaces(rebuilt[..n], buffer);
    return buffer[..m];
  }

  lemma {:induction false} FreeAtMostDoubles(b: string, i: nat, out: string, pending: bool)
    requires i <= |b|
    ensures |Free(b, i, out, pending)| <= |out| + 2 * (|b| - i) + (if pending then 6 else 0)
    decreases |b| - i
  {
    hide ConstAt, DropSpacesAtEnd;
    if i == |b| {
    } else if ConstAt(b, i) {
      ConstEnd(b, i);
      FreeAtMostDoubles(b, i + 5, out, true);
    } else if b[i] == '*' {
      FreeAtMostDoubles(b, PastBlanks(b, i + 1), DropSpacesAtEnd(out) + [' ', '*'], pending);
    } else {
      FreeAtMostDoubles(b, i + 1, (if pending then WithConst(out) else out) + [b[i]], false);
    }
  }

  /** A type that fits is rebuilt inside the buffer, and one of less than half its size fits. */
  lemma RoomyStaysInBuffer(s: string)
    ensures Roomy(s) ==> InBuffer(Normalized(s, TYPE_LEN), 0, "", false)
    ensures |Normalized(s, 512)| < 256 ==> Roomy(s)
  {
    hide Free, Rebuilt, InBuffer, Normalized, On;
    var b := Normalized(s, TYPE_LEN);
    NormalizedIsNormal(s, TYPE_LEN);
    StartsOn(b);
    FreeAtMostDoubles(b, 0, "", false);
    InBufferIff(b, 0, "", false);
    if Roomy(s) {
      FreeIsRebuilt(b, 0, "", false);
    }
  }

  // ----- a qualifier at the end

  /** The text with a qualifier after it. */
  function Trailing(b: string): string {
    b + [' '] + Qualifier()
  }

  lemma TrailingConst(b: string, i: nat)
    requires i <= |b|
    ensures ConstAt(Trailing(b), i) <==> ConstAt(b, i)
    ensures ConstAt(Trailing(b), |b| + 1)
  {
    hide Qualifier;
    BlankIsSpace();
    var t := Trailing(b);
    assert t[|b| + 1..|b| + 6] == Qualifier();
    if i + 5 <= |b| {
      assert t[i..i + 5] == b[i..i + 5];
    } else if i + 5 <= |t| {
      assert t[i..i + 5][|b| - i] == ' ';
    }
  }

  lemma {:induction false} TrailingBlanks(b: string, i: nat)
    requires i <= |b|
    ensures var j := PastBlanks(b, i);
      PastBlanks(Trailing(b), i) == if j == |b| then |b| + 1 else j
    decreases |b| - i
  {
    if i < |b| {
      if b[i] == ' ' {
        TrailingBlanks(b, i + 1);
      }
    } else {
      assert Trailing(b)[|b| + 1] == 'c';
      assert PastBlanks(Trailing(b), |b| + 1) == |b| + 1;
    }
  }

  predicate BlankApart(r: string, q: string) {
    q == r || q == r + [' ']
  }

  lemma TrailingAtEnd(b: string, out: string)
    ensures BlankApart(Rebuilt(b, |b|, out, false), Rebuilt(Trailing(b), |b|, out, false))
  {
    TrailingConst(b, |b|);
    NoneAtLast(b, |b|);
    hide ConstAt;
    assert Trailing(b)[|b|] == ' ';
    TrailingPast(b, out + [' '], false);
  }

  lemma TrailingPast(b: string, out: string, pending: bool)
    ensures Rebuilt(Trailing(b), |b| + 1, out, pending) == out
  {
    TrailingConst(b, |b|);
    hide ConstAt;
  }

  lemma {:induction false} TrailingRebuilt(b: string, i: nat, out: string, pending: bool)
    requires i <= |b| && !EndsQualified(b) && (i == |b| ==> !pending)
    ensures BlankApart(Rebuilt(b, i, out, pending), Rebuilt(Trailing(b), i, out, pending))
    decreases |b| - i
  {
    hide ConstAt, WithConst, WithStar;
    if i == |b| {
      TrailingAtEnd(b, out);
    } else if |out| + 1 < TYPE_LEN {
      TrailingConst(b, i);
      assert Trailing(b)[i] == b[i];
      if ConstAt(b, i) {
        ConstEnd(b, i);
        TrailingRebuilt(b, i + 5, out, true);
      } else if b[i] == '*' {
        var j := PastBlanks(b, i + 1);
        TrailingBlanks(b, i + 1);
        if j == |b| {
          TrailingPast(b, WithStar(out), pending);
        } else {
          TrailingRebuilt(b, j, WithStar(out), pending);
        }
      } else {
        var o := if pending then WithConst(out) else out;
        if |o| + 1 < TYPE_LEN {
          TrailingRebuilt(b, i + 1, o + [b[i]], false);
        }
      }
    }
  }

  lemma BlankCollapses(r: string)
    ensures Collapsed(r + [' '], TYPE_LEN) == Collapsed(r, TYPE_LEN)
  {
    hide Squeezed, IsSpace;
    BlankIsSpace();
    SqueezedOne(r, ' ');
    var w := Squeezed(r);
    if |w| < TYPE_LEN - 1 {
      DropOne(w + [' ']);
      assert (w + [' '])[..|w|] == w;
    } else {
      assert (w + [' '])[..TYPE_LEN - 1] == w[..TYPE_LEN - 1];
    }
  }

  lemma TrailingIsNormal(b: string)
    requires Normal(b, TYPE_LEN) && b != "" && |b| + 6 < TYPE_LEN
    ensures Normal(Trailing(b), TYPE_LEN)
  {
    BlankIsSpace();
    hide IsSpace;
    var q := Qualifier();
    hide Qualifier;
    var t := Trailing(b);
    assert t[|t| - 1] == q[4] && t[|b|] == ' ';
    assert forall i :: |b| < i < |t| ==> t[i] == q[i - |b| - 1];
    assert forall i :: 0 <= i < |b| ==> t[i] == b[i];
  }

  /** A qualifier at the end of a type does not reach its normal form. */
  lemma TrailingIsNotSeen(b: string)
    requires Normal(b, TYPE_LEN) && b != "" && |b| + 6 < TYPE_LEN && !EndsQualified(b)
    ensures NormalType(Trailing(b)) == NormalType(b)
  {
    hide Normal, Normalized, Rebuilt, Collapsed, EndsQualified, Trailing;
    TrailingIsNormal(b);
    NormalIff(b, TYPE_LEN);
    NormalIff(Trailing(b), TYPE_LEN);
    TrailingRebuilt(b, 0, "", false);
    BlankCollapses(Rebuilt(b, 0, "", false));
  }
}
