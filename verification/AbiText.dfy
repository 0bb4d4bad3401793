/** Whitespace normalisation of macro values and signatures in bounded buffers. */
module AbiText {
  predicate IsSpace(c: char) {
    c as int == 32 || 9 <= c as int <= 13
  }

  predicate EndsInSpace(s: string) {
    s != [] && IsSpace(s[|s| - 1])
  }

  /** Every run of whitespace becomes one space. */
  function Squeezed(s: string): string {
    if s == [] then []
    else
      var n := |s| - 1;
      if !IsSpace(s[n]) then Squeezed(s[..n]) + [s[n]]
      else if EndsInSpace(s[..n]) then Squeezed(s[..n])
      else Squeezed(s[..n]) + [' ']
  }

  function Take(s: string, n: nat): string {
    if |s| <= n then s else s[..n]
  }

  function DropSpacesAtEnd(s: string): (r: string)
    ensures |r| <= |s| && r == s[..|r|]
    ensures r == [] || r[|r| - 1] != ' '
  {
    if s != [] && s[|s| - 1] == ' ' then DropSpacesAtEnd(s[..|s| - 1]) else s
  }

  /** What a buffer of the given size holds after collapsing. */
  function Collapsed(s: string, size: nat): string
    requires size > 0
  {
    DropSpacesAtEnd(Take(Squeezed(s), size - 1))
  }

  function TrimStart(s: string): (r: string)
    ensures |r| <= |s| && r == s[|s| - |r|..]
    ensures r == [] || !IsSpace(r[0])
  {
    if s != [] && IsSpace(s[0]) then TrimStart(s[1..]) else s
  }

  function TrimEnd(s: string): (r: string)
    ensures |r| <= |s| && r == s[..|r|]
    ensures !EndsInSpace(r)
  {
    if EndsInSpace(s) then TrimEnd(s[..|s| - 1]) else s
  }

  function Normalized(s: string, size: nat): string
    requires size > 0
  {
    TrimEnd(TrimStart(Collapsed(s, size)))
  }

  // ----- the normal form

  predicate Single(s: string) {
    && (forall i :: 0 <= i < |s| && IsSpace(s[i]) ==> s[i] == ' ')
    && (forall i, j :: 0 <= i && j == i + 1 < |s| && s[i] == ' ' ==> s[j] != ' ')
  }

  /** Words separated by single spaces that fit the buffer with its terminator. */
  predicate Normal(s: string, size: nat) {
    && |s| < size && Single(s)
    && (s != [] ==> !IsSpace(s[0]) && !IsSpace(s[|s| - 1]))
  }

  lemma {:induction false} SqueezedSingle(s: string)
    ensures Single(Squeezed(s))
    ensures EndsInSpace(Squeezed(s)) <==> EndsInSpace(s)
  {
    if s != [] {
      SqueezedSingle(s[..|s| - 1]);
    }
  }

  lemma SinglePart(s: string, a: nat, b: nat)
    requires Single(s) && a <= b <= |s|
    ensures Single(s[a..b])
  {
    var t := s[a..b];
    forall i, j | 0 <= i && j == i + 1 < |t| && t[i] == ' ' ensures t[j] != ' ' {
      assert s[a + i] == ' ' && a + j == (a + i) + 1;
    }
  }

  lemma {:induction false} SingleSqueezes(s: string)
    requires Single(s)
    ensures Squeezed(s) == s
  {
    if s != [] {
      var n := |s| - 1;
      SinglePart(s, 0, n);
      SingleSqueezes(s[..n]);
      assert s == s[..n] + [s[n]];
      assert n > 0 && s[n - 1] == ' ' ==> s[n] != ' ';
    }
  }

  lemma CollapsedSingle(s: string, size: nat)
    requires size > 0
    ensures Single(Collapsed(s, size)) && |Collapsed(s, size)| < size
  {
    hide Single, Squeezed;
    SqueezedSingle(s);
    var c := Collapsed(s, size);
    SinglePart(Squeezed(s), 0, |c|);
    assert c == Squeezed(s)[0..|c|];
  }

  lemma TrimmedSingle(s: string)
    requires Single(s)
    ensures Single(TrimEnd(TrimStart(s))) && |TrimEnd(TrimStart(s))| <= |s|
    ensures var t := TrimEnd(TrimStart(s)); t != [] ==> !IsSpace(t[0]) && !IsSpace(t[|t| - 1])
  {
    hide Single, IsSpace;
    var t := TrimStart(s);
    var e := TrimEnd(t);
    SinglePart(s, |s| - |t|, |s|);
    assert t == s[|s| - |t|..|s|];
    SinglePart(t, 0, |e|);
    assert e == t[0..|e|];
    hide TrimStart, TrimEnd;
    if e != [] {
      assert e[0] == t[0];
      assert EndsInSpace(e) <==> IsSpace(e[|e| - 1]);
    }
  }

  /** Normalising gives normal text. */
  lemma NormalizedIsNormal(s: string, size: nat)
    requires size > 0
    ensures Normal(Normalized(s, size), size)
  {
    hide Single, Collapsed, TrimStart, TrimEnd, IsSpace;
    CollapsedSingle(s, size);
    TrimmedSingle(Collapsed(s, size));
  }

  /** Exactly the normal texts are left alone, so normalising twice is normalising once. */
  lemma NormalIff(s: string, size: nat)
    requires size > 0
    ensures Normalized(s, size) == s <==> Normal(s, size)
    ensures Normalized(Normalized(s, size), size) == Normalized(s, size)
  {
    NormalizedIsNormal(s, size);
    NormalIsFixed(Normalized(s, size), size);
    if Normal(s, size) {
      NormalIsFixed(s, size);
    }
  }

  lemma NormalIsFixed(s: string, size: nat)
    requires Normal(s, size)
    ensures Normalized(s, size) == s
  {
    SingleSqueezes(s);
  }

  // ----- the buffers

  /** Copies with every run of whitespace as one space, as far as the buffer goes. */
  method SqueezeInto(input: string, output: array<char>) returns (n: nat)
    requires output.Length > 0
    modifies output
    ensures n < output.Length
    ensures output[..n] == Take(Squeezed(input), output.Length - 1)
  {
    hide IsSpace, EndsInSpace, Squeezed, Take;
    var size := output.Length;
    var inSpace := false;
    n := 0;
    SqueezeNothing(size - 1);
    for i := 0 to |input|
      invariant n < size
      invariant output[..n] == Take(Squeezed(input[..i]), size - 1)
      invariant n < size - 1 ==> inSpace == EndsInSpace(input[..i])
    {
      ghost var before := input[..i];
      assert input[..i + 1] == before + [input[i]];
      SqueezeOne(before, input[i], size - 1);
      if IsSpace(input[i]) {
        if !inSpace && n + 1 < size {
          output[n] := ' ';
          n := n + 1;
          inSpace := true;
        }
      } else {
        inSpace := false;
        if n + 1 < size {
          output[n] := input[i];
          n := n + 1;
        }
      }
    }
    assert input[..|input|] == input;
  }

  lemma SqueezeNothing(room: nat)
    ensures Take(Squeezed([]), room) == [] && !EndsInSpace([])
  {
  }

  lemma SqueezeOne(s: string, c: char, room: nat)
    ensures var t := Take(Squeezed(s), room);
      Take(Squeezed(s + [c]), room) ==
        if |t| == room || (IsSpace(c) && EndsInSpace(s)) then t
        else t + [if IsSpace(c) then ' ' else c]
    ensures EndsInSpace(s + [c]) == IsSpace(c)
    ensures |Take(Squeezed(s), room)| <= room
  {
    hide IsSpace, EndsInSpace;
    assert (s + [c])[..|s|] == s;
    LastOf(s, c);
  }

  lemma LastOf(s: string, c: char)
    ensures EndsInSpace(s + [c]) == IsSpace(c)
  {
  }

  /** Collapses into a buffer and terminates it; a buffer of no length is left alone. */
  method CollapseSpaces(input: string, output: array<char>) returns (n: nat)
    modifies output
    ensures output.Length == 0 ==> n == 0
    ensures output.Length > 0 ==>
      && n < output.Length && output[n] == '\0'
      && output[..n] == Collapsed(input, output.Length)
  {
    hide DropSpacesAtEnd, Squeezed, Take;
    if output.Length == 0 {
      return 0;
    }
    n := SqueezeInto(input, output);
    ghost var full := output[..n];
    assert full[..n] == full;
    while n > 0 && output[n - 1] == ' '
      invariant n <= |full|
      invariant output[..n] == full[..n]
      invariant DropSpacesAtEnd(full) == DropSpacesAtEnd(full[..n])
    {
      DropOne(full[..n]);
      assert full[..n][..n - 1] == full[..n - 1];
      n := n - 1;
    }
    DropNone(full[..n]);
    output[n] := '\0';
    assert output[..n] == full[..n];
  }

  lemma DropOne(s: string)
    requires s != [] && s[|s| - 1] == ' '
    ensures DropSpacesAtEnd(s) == DropSpacesAtEnd(s[..|s| - 1])
  {
  }

  lemma DropNone(s: string)
    requires s == [] || s[|s| - 1] != ' '
    ensures DropSpacesAtEnd(s) == s
  {
  }

  /** Where the leading whitespace ends. */
  method SkipSpaces(text: array<char>, n: nat) returns (start: nat)
    requires n < text.Length
    ensures start <= n && text[start..n] == TrimStart(text[..n])
  {
    hide TrimStart, IsSpace;
    start := 0;
    assert text[0..n] == text[..n];
    while start < n && IsSpace(text[start])
      invariant start <= n
      invariant TrimStart(text[..n]) == TrimStart(text[start..n])
    {
      TrimOne(text[start..n]);
      assert text[start..n][1..] == text[start + 1..n];
      start := start + 1;
    }
    TrimNone(text[start..n]);
  }

  /** Moves part of the buffer to its front. */
  method MoveToFront(text: array<char>, start: nat, n: nat) returns (m: nat)
    requires start <= n < text.Length
    modifies text
    ensures m == n - start && text[..m] == old(text[start..n])
  {
    ghost var was := text[..];
    m := 0;
    while start + m < n
      invariant start + m <= n
      invariant forall i :: 0 <= i < m ==> text[i] == was[start + i]
      invariant forall i :: start + m <= i < n ==> text[i] == was[i]
    {
      text[m] := text[start + m];
      m := m + 1;
    }
    assert text[..m] == was[start..n];
  }

  /** Where the trailing whitespace begins. */
  method SkipSpacesAtEnd(text: array<char>, n: nat) returns (end: nat)
    requires n < text.Length
    ensures end <= n && text[..end] == TrimEnd(text[..n])
  {
    hide TrimEnd, IsSpace;
    end := n;
    while end > 0 && IsSpace(text[end - 1])
      invariant end <= n
      invariant TrimEnd(text[..n]) == TrimEnd(text[..end])
    {
      TrimLast(text[..end]);
      assert text[..end][..end - 1] == text[..end - 1];
      end := end - 1;
    }
    TrimNoLast(text[..end]);
  }

  /** Moves the text to the front of its buffer and cuts its end. */
  method TrimInPlace(text: array<char>, n: nat) returns (m: nat)
    requires n < text.Length && text[n] == '\0'
    modifies text
    ensures m <= n && text[m] == '\0'
    ensures text[..m] == TrimEnd(TrimStart(old(text[..n])))
  {
    hide TrimEnd, TrimStart;
    var start := SkipSpaces(text, n);
    var length := MoveToFront(text, start, n);
    m := SkipSpacesAtEnd(text, length);
    ghost var kept := text[..m];
    text[m] := '\0';
    assert text[..m] == kept;
  }

  lemma TrimOne(s: string)
    requires s != [] && IsSpace(s[0])
    ensures TrimStart(s) == TrimStart(s[1..])
  {
  }

  lemma TrimNone(s: string)
    requires s == [] || !IsSpace(s[0])
    ensures TrimStart(s) == s
  {
  }

  lemma TrimLast(s: string)
    requires EndsInSpace(s)
    ensures TrimEnd(s) == TrimEnd(s[..|s| - 1])
  {
  }

  lemma TrimNoLast(s: string)
    requires !EndsInSpace(s)
    ensures TrimEnd(s) == s
  {
  }

  /** A value or signature as it is stored, computed in a buffer of the given size. */
  method NormalizeValue(input: string, size: nat) returns (value: string)
    requires size > 0
    ensures value == Normalized(input, size)
    ensures Normal(value, size)
  {
    var buffer := new char[size];
    var n := CollapseSpaces(input, buffer);
    var m := TrimInPlace(buffer, n);
    NormalizedIsNormal(input, size);
    return buffer[..m];
  }
}
