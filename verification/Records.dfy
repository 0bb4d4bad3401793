/** Domain keys, length-prefixed strings and record envelopes. */
module Records {
  import opened Octets
  import opened Catalog
  import opened Crc32c

  /**
   The result of code that may raise: Invalid is the error callers catch, Broken one that
   no caller catches.
   */
  datatype Res<+T> = Good(value: T) | Invalid | Broken {
    predicate IsFailure() { !Good? }

    function PropagateFailure<U>(): Res<U>
      requires !Good?
    {
      if Invalid? then Res<U>.Invalid else Res<U>.Broken
    }

    function Extract(): T
      requires Good?
    {
      value
    }
  }

  const NLR1: Octets := [0x4E, 0x4C, 0x52, 0x31]
  const PVD_OFF: nat := 72

  // ----- digests

  /** A digest function is any function; what it returns is brought to 32 bytes. */
  type Hash = Octets -> Octets

  function Sha(h: Hash, data: Octets): (d: Octets)
    ensures |d| == 32
  {
    if |h(data)| == 32 then h(data) else Zeros(32)
  }

  function Ascii(s: string): Octets {
    seq(|s|, i requires 0 <= i < |s| => s[i] as int % 256)
  }

  // ----- length-prefixed strings

  function Raw16(c: Octets): (r: Res<Octets>)
    ensures r.Good? <==> |c| <= 255
    ensures r.Good? ==> |r.value| == |c| + 2
    ensures !r.Broken?
  {
    if |c| > 255 then Invalid else Good(ToBe(|c|, 2) + c)
  }

  datatype Parsed = Parsed(text: Octets, end: nat)

  function ParseRaw16(buf: Octets, off: nat): (r: Res<Parsed>)
    ensures !r.Broken?
    ensures r.Good? ==> off + 2 + |r.value.text| == r.value.end <= |buf|
  {
    if off + 2 > |buf| then Invalid
    else
      var end := off + 2 + FromBe(buf[off..off + 2]);
      if end > |buf| then Invalid else Good(Parsed(buf[off + 2..end], end))
  }

  /** Parsing inverts building, wherever the string stands. */
  lemma Raw16RoundTrip(before: Octets, c: Octets, after: Octets)
    requires |c| <= 255
    ensures var buf := before + Raw16(c).value + after;
      ParseRaw16(buf, |before|) == Good(Parsed(c, |before| + 2 + |c|))
  {
    hide ToBe, FromBe;
    var r := Raw16(c).value;
    var buf := before + r + after;
    assert Pow256(2) == 0x1_0000;
    BeRoundTrip(|c|, 2);
    assert buf[|before|..|before| + 2] == r[..2] == ToBe(|c|, 2);
    assert buf[|before| + 2..|before| + 2 + |c|] == r[2..] == c;
  }

  /** No length-prefixed string is a proper prefix of another. */
  lemma Raw16PrefixFree(a: Octets, x: Octets, b: Octets, y: Octets)
    requires |a| <= 255 && |b| <= 255
    requires Raw16(a).value + x == Raw16(b).value + y
    ensures a == b && x == y
  {
    Raw16RoundTrip([], a, x);
    Raw16RoundTrip([], b, y);
    assert [] + Raw16(a).value == Raw16(a).value && [] + Raw16(b).value == Raw16(b).value;
    assert x == (Raw16(a).value + x)[|a| + 2..];
    assert y == (Raw16(b).value + y)[|b| + 2..];
  }

  // ----- keys

  /** A key names a family, a subtype and an identity of at most 255 bytes. */
  function BKey(family: Byte, subtype: Byte, kind: Byte, ident: Octets): Octets
    requires |ident| <= 255
  {
    ROOT_V1 + [family, subtype, 1, kind, |ident|] + ident
  }

  datatype DomainKey = DomainKey(family: Byte, subtype: Byte, kind: Byte, ident: Octets)

  function ParseDomainKey(key: Octets): Option<DomainKey> {
    if |key| < 13 || key[..8] != ROOT_V1 then None
    else if key[10] != 1 || |key| - 13 != key[12] then None
    else Some(DomainKey(key[8], key[9], key[11], key[13..]))
  }

  lemma KeyRoundTrip(k: DomainKey)
    requires |k.ident| <= 255
    ensures ParseDomainKey(BKey(k.family, k.subtype, k.kind, k.ident)) == Some(k)
  {
    var key := BKey(k.family, k.subtype, k.kind, k.ident);
    assert key[..8] == ROOT_V1;
    assert key[13..] == k.ident;
  }

  lemma KeyOfParsed(key: Octets)
    requires ParseDomainKey(key).Some?
    ensures var k := ParseDomainKey(key).value;
      |k.ident| <= 255 && key == BKey(k.family, k.subtype, k.kind, k.ident)
  {
    assert key == key[..8] + key[8..13] + key[13..];
    assert key[8..13] == [key[8], key[9], key[10], key[11], key[12]];
  }

  function CompositePreimage(subtype: Byte, components: Octets): Octets {
    Ascii("NINLIL-DOMAIN-KEY-V1") + [subtype] + components
  }

  function Composite(h: Hash, subtype: Byte, components: Octets): (d: Octets)
    ensures |d| == 32
  {
    Sha(h, CompositePreimage(subtype, components))
  }

  function KComposite(h: Hash, subtype: Byte, components: Octets): Octets {
    BKey(6, subtype, 5, Composite(h, subtype, components))
  }

  function KId128(subtype: Byte, ident: Octets): (r: Res<Octets>)
    ensures !r.Invalid?
  {
    if |ident| != 16 then Broken else Good(BKey(6, subtype, 2, ident))
  }

  function KU64(subtype: Byte, ident: Octets): (r: Res<Octets>)
    ensures !r.Invalid?
  {
    if |ident| != 8 then Broken else Good(BKey(6, subtype, 3, ident))
  }

  function KeyDigest(h: Hash, key: Octets): (d: Octets)
    ensures |d| == 32
  {
    Sha(h, Ascii("NINLIL-DOMAIN-ENCODED-KEY-V1") + key)
  }

  /** Two different strings with one digest. */
  predicate Collide(h: Hash, x: Octets, y: Octets) {
    x != y && Sha(h, x) == Sha(h, y)
  }

  /** Equal composite keys come from the same subtype and material, or from a digest collision. */
  lemma CompositeInjective(h: Hash, s: Byte, a: Octets, t: Byte, b: Octets)
    requires KComposite(h, s, a) == KComposite(h, t, b)
    requires !Collide(h, CompositePreimage(s, a), CompositePreimage(t, b))
    ensures s == t && a == b
  {
    hide Ascii, Sha;
    var n := |Ascii("NINLIL-DOMAIN-KEY-V1")|;
    assert Composite(h, s, a) == KComposite(h, s, a)[13..] == KComposite(h, t, b)[13..] == Composite(h, t, b);
    var x, y := CompositePreimage(s, a), CompositePreimage(t, b);
    assert x == y;
    assert x[n] == s && y[n] == t && x[n + 1..] == a && y[n + 1..] == b;
  }

  function Pair(a: Octets, b: Octets): Octets
    requires |a| <= 255 && |b| <= 255
  {
    Raw16(a).value + Raw16(b).value
  }

  /** Keys over pairs of length-prefixed strings do not confuse where the first string ends. */
  lemma PairKeyInjective(h: Hash, subtype: Byte, a: Octets, b: Octets, c: Octets, d: Octets)
    requires |a| <= 255 && |b| <= 255 && |c| <= 255 && |d| <= 255
    requires KComposite(h, subtype, Pair(a, b)) == KComposite(h, subtype, Pair(c, d))
    requires !Collide(h, CompositePreimage(subtype, Pair(a, b)), CompositePreimage(subtype, Pair(c, d)))
    ensures a == c && b == d
  {
    hide Raw16, KComposite, CompositePreimage;
    CompositeInjective(h, subtype, Pair(a, b), subtype, Pair(c, d));
    Raw16PrefixFree(a, Raw16(b).value, c, Raw16(d).value);
    assert Raw16(b).value + [] == Raw16(d).value + [];
    Raw16PrefixFree(b, [], d, []);
  }

  // ----- envelopes

  datatype Envelope = Envelope(subtype: Byte, body: Octets, pvd: Octets)

  /** What the domain writer is given besides the envelope. */
  datatype Meta = Meta(rtype: nat, version: nat, flags: Byte, rev: nat, primaryId: Octets, head: Octets)

  predicate Encodable(m: Meta, e: Envelope) {
    && m.rtype < 0x1_0000 && m.version < 0x1_0000 && m.rev < 0x1_0000_0000_0000_0000
    && |m.primaryId| == 16 && |m.head| == 32 && |e.pvd| == 32
    && 96 + |e.body| < 0x1_0000_0000
  }

  function Unsealed(m: Meta, e: Envelope): (out: Octets)
    requires Encodable(m, e)
    ensures |out| == 108 + |e.body|
  {
    NLR1 + ToBe(m.rtype, 2) + ToBe(m.version, 2) + ToBe(96 + |e.body|, 4) + ToBe(1, 2) + [e.subtype, m.flags]
      + ToBe(m.rev, 8) + m.primaryId + m.head + e.pvd + ToBe(|e.body|, 4) + e.body
  }

  function Sealed(body: Octets): Octets {
    body + CrcBytes(body)
  }

  function EncodeEnvelope(m: Meta, e: Envelope): (value: Octets)
    requires Encodable(m, e)
    ensures |value| == 112 + |e.body|
  {
    Sealed(Unsealed(m, e))
  }

  predicate CrcValid(value: Octets) {
    |value| >= 4 && value[|value| - 4..] == CrcBytes(value[..|value| - 4])
  }

  datatype Framing = Current | FutureVersion | CorruptFrame

  function FramingOf(value: Octets): Framing {
    if |value| < 16 || value[..4] != NLR1 then CorruptFrame
    else
      var rtype := FromBe(value[4..6]);
      var rver := FromBe(value[6..8]);
      var plen := FromBe(value[8..12]);
      if plen > VALUE_CAP || |value| != 12 + plen + 4 then CorruptFrame
      else if !CrcValid(value) then CorruptFrame
      else if rtype != 6 then CorruptFrame
      else if rver >= 2 then FutureVersion
      else if rver != 1 then CorruptFrame
      else if |value| < 112 then CorruptFrame
      else Current
  }

  function Extract(value: Octets): (r: Res<Envelope>)
    ensures !r.Broken?
    ensures r.Good? ==> |r.value.pvd| == 32
  {
    if |value| < 112 || value[..4] != NLR1 then Invalid
    else
      var n := FromBe(value[104..108]);
      var body := Clip(value, 108, 108 + n);
      if |body| != n then Invalid else Good(Envelope(value[14], body, value[PVD_OFF..PVD_OFF + 32]))
  }

  function HeaderPvd(value: Octets): (p: Octets)
    ensures |p| == 32 || (p == [] && |value| < PVD_OFF + 32)
  {
    if |value| < PVD_OFF + 32 then [] else value[PVD_OFF..PVD_OFF + 32]
  }

  function PatchPvd(value: Octets, pvd: Octets): Res<Octets> {
    if |pvd| != 32 || |value| < PVD_OFF + 32 + 4 then Invalid
    else Good(Sealed(WithPvd(value[..|value| - 4], pvd)))
  }

  function WithPvd(body: Octets, pvd: Octets): Octets
    requires |pvd| == 32 && |body| >= PVD_OFF + 32
  {
    body[..PVD_OFF] + pvd + body[PVD_OFF + 32..]
  }

  lemma SealedParts(body: Octets)
    ensures var v := Sealed(body);
      |v| == |body| + 4 && v[..|v| - 4] == body && v[|v| - 4..] == CrcBytes(body)
  {
    hide CrcBytes;
  }

  lemma EnvelopeParts(m: Meta, e: Envelope)
    requires Encodable(m, e)
    ensures var v := EncodeEnvelope(m, e);
      && v[..4] == NLR1 && v[4..6] == ToBe(m.rtype, 2) && v[6..8] == ToBe(m.version, 2)
      && v[8..12] == ToBe(96 + |e.body|, 4) && v[14] == e.subtype
      && v[72..104] == e.pvd && v[104..108] == ToBe(|e.body|, 4)
      && v[108..108 + |e.body|] == e.body
      && v[..|v| - 4] == Unsealed(m, e) && v[|v| - 4..] == CrcBytes(Unsealed(m, e))
  {
    hide ToBe, CrcBytes;
    var u := Unsealed(m, e);
    assert u[108..] == e.body;
    var v := EncodeEnvelope(m, e);
    assert v[..108 + |e.body|] == u;
    assert v[108..108 + |e.body|] == u[108..];
  }

  /** Extracting inverts encoding; the value is current exactly for a version 1 domain record that fits. */
  lemma EnvelopeRoundTrip(m: Meta, e: Envelope)
    requires Encodable(m, e)
    ensures var v := EncodeEnvelope(m, e);
      && Extract(v) == Good(e)
      && CrcValid(v)
      && FramingOf(v) == (
           if m.rtype != 6 || 96 + |e.body| > VALUE_CAP then CorruptFrame
           else if m.version >= 2 then FutureVersion
           else if m.version == 1 then Current
           else CorruptFrame)
  {
    hide ToBe, FromBe, CrcBytes, EncodeEnvelope;
    EnvelopeParts(m, e);
    assert Pow256(2) == 0x1_0000 && Pow256(4) == 0x1_0000_0000;
    BeRoundTrip(m.rtype, 2);
    BeRoundTrip(m.version, 2);
    BeRoundTrip(96 + |e.body|, 4);
    BeRoundTrip(|e.body|, 4);
    var v := EncodeEnvelope(m, e);
    assert Clip(v, 108, 108 + |e.body|) == v[108..108 + |e.body|];
  }

  /** Patching changes the peer digest and the seal and nothing else. */
  lemma PatchIsLocal(value: Octets, pvd: Octets)
    requires |pvd| == 32 && |value| >= PVD_OFF + 36
    ensures PatchPvd(value, pvd).Good?
    ensures var v := PatchPvd(value, pvd).value;
      && |v| == |value| && CrcValid(v) && HeaderPvd(v) == pvd
      && (forall i :: 0 <= i < |v| - 4 && !(PVD_OFF <= i < PVD_OFF + 32) ==> v[i] == value[i])
  {
    hide CrcBytes;
    var b := WithPvd(value[..|value| - 4], pvd);
    SealedParts(b);
    assert b[PVD_OFF..PVD_OFF + 32] == pvd;
  }

  /** Patching the old digest back gives the old value exactly when that value was sealed. */
  lemma PatchBack(value: Octets, pvd: Octets)
    requires |pvd| == 32 && |value| >= PVD_OFF + 36
    ensures PatchPvd(value, pvd).Good?
    ensures PatchPvd(PatchPvd(value, pvd).value, HeaderPvd(value)) == Good(value) <==> CrcValid(value)
  {
    hide CrcBytes, Sealed;
    var b := value[..|value| - 4];
    var c := WithPvd(b, pvd);
    SealedParts(c);
    SealedParts(b);
    assert WithPvd(c, HeaderPvd(value)) == b;
    assert value == b + value[|b|..];
    assert Sealed(b) == Sealed(b)[..|b|] + Sealed(b)[|b|..];
  }
}
