/** Byte strings, their lexicographic order, lenient slices and big-endian numbers. */
module Octets {

  datatype Option<+T> = None | Some(value: T)

  type Byte = x: int | 0 <= x < 256
  type Octets = seq<Byte>

  /** Lexicographic order on byte strings: a proper prefix is smaller. */
  predicate Less(a: Octets, b: Octets) {
    if b == [] then false
    else if a == [] then true
    else a[0] < b[0] || (a[0] == b[0] && Less(a[1..], b[1..]))
  }

  lemma {:induction false} LessIrreflexive(a: Octets)
    ensures !Less(a, a)
  {
    if a != [] {
      LessIrreflexive(a[1..]);
    }
  }

  lemma {:induction false} LessTransitive(a: Octets, b: Octets, c: Octets)
    requires Less(a, b) && Less(b, c)
    ensures Less(a, c)
  {
    if a != [] && b != [] && c != [] && a[0] == b[0] && b[0] == c[0] {
      LessTransitive(a[1..], b[1..], c[1..]);
    }
  }

  /** A slice whose bounds are clipped to the string, as the source language slices. */
  function Clip(b: Octets, lo: nat, hi: nat): (r: Octets)
    ensures hi <= |b| && lo <= hi ==> r == b[lo..hi]
    ensures lo <= hi ==> |r| <= hi - lo
  {
    var h := if hi <= |b| then hi else |b|;
    if lo <= h then b[lo..h] else []
  }

  /** The number a big-endian byte string denotes. */
  function FromBe(b: Octets): nat {
    if b == [] then 0 else FromBe(b[..|b| - 1]) * 256 + b[|b| - 1]
  }

  /** The big-endian string of a given width; higher digits are dropped. */
  function ToBe(n: nat, width: nat): (b: Octets)
    ensures |b| == width
  {
    if width == 0 then [] else ToBe(n / 256, width - 1) + [n % 256]
  }

  function Pow256(width: nat): nat {
    if width == 0 then 1 else 256 * Pow256(width - 1)
  }

  lemma {:induction false} BeRoundTrip(n: nat, width: nat)
    requires n < Pow256(width)
    ensures FromBe(ToBe(n, width)) == n
  {
    if width > 0 {
      BeRoundTrip(n / 256, width - 1);
      var b := ToBe(n, width);
      assert b[..|b| - 1] == ToBe(n / 256, width - 1);
    }
  }

  lemma {:induction false} BeParse(b: Octets)
    ensures ToBe(FromBe(b), |b|) == b
    ensures FromBe(b) < Pow256(|b|)
  {
    if b != [] {
      var front := b[..|b| - 1];
      BeParse(front);
      assert FromBe(b) / 256 == FromBe(front);
      assert FromBe(b) % 256 == b[|b| - 1];
      assert b == front + [b[|b| - 1]];
    }
  }

  function Pow2(n: nat): (r: nat)
    ensures r >= 1
  {
    if n == 0 then 1 else 2 * Pow2(n - 1)
  }

  function Zeros(n: nat): (z: Octets)
    ensures |z| == n
  {
    seq(n, i => 0)
  }
}
