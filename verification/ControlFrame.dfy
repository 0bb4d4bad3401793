/**
 The NCG1 control frame: an eighteen byte prefix, its CRC, a payload and the CRC of
 everything before it.
 */
module ControlFrame {
  import opened Octets
  import opened Crc32c
  import opened CrcKernel

  const MAGIC: Octets := [0x4E, 0x43, 0x47, 0x31]
  const VERSION: Byte := 1
  const HEADER_PREFIX: nat := 18
  const HEADER: nat := 22
  const OVERHEAD: nat := 26
  const MAX_PAYLOAD: nat := 1024

  datatype Verdict =
    | Accepted | Truncated | BadMagic | BadVersion | BadType | BadFlags
    | BadLength | BadHeaderCrc | BadFrameCrc

  datatype Fields = Fields(kind: int, stream: int, sequence: int, payload: Octets, flags: int, version: int)

  predicate KnownType(kind: int) {
    1 <= kind <= 4
  }

  // ----- the codec

  function Prefix(f: Fields): (p: Octets)
    ensures |p| == HEADER_PREFIX
  {
    MAGIC + [f.version % 0x100, f.kind % 0x100] + ToBe(f.flags % 0x1_0000, 2)
      + ToBe(f.stream % 0x1_0000_0000, 4) + ToBe(f.sequence % 0x1_0000_0000, 4)
      + ToBe(|f.payload| % 0x1_0000, 2)
  }

  function Header(f: Fields): (h: Octets)
    ensures |h| == HEADER
  {
    Prefix(f) + CrcBytes(Prefix(f))
  }

  function Body(f: Fields): (b: Octets)
    ensures |b| == HEADER + |f.payload|
  {
    Header(f) + f.payload
  }

  /** None when the payload does not fit. */
  function Encode(f: Fields): (frame: Option<Octets>)
    ensures frame.Some? <==> |f.payload| <= MAX_PAYLOAD
    ensures frame.Some? ==> |frame.value| == OVERHEAD + |f.payload|
  {
    if |f.payload| > MAX_PAYLOAD then None else Some(Body(f) + CrcBytes(Body(f)))
  }

  function PayloadLength(raw: Octets): nat
    requires |raw| >= HEADER
  {
    FromBe(raw[16..18])
  }

  function DecodeExact(raw: Octets): Verdict {
    if |raw| < HEADER then Truncated
    else if raw[..4] != MAGIC then BadMagic
    else if raw[4] != VERSION then BadVersion
    else if !KnownType(raw[5]) then BadType
    else if FromBe(raw[6..8]) != 0 then BadFlags
    else if PayloadLength(raw) > MAX_PAYLOAD then BadLength
    else if raw[18..22] != CrcBytes(raw[..18]) then BadHeaderCrc
    else
      var body := HEADER + PayloadLength(raw);
      if |raw| < body + 4 then Truncated
      else if |raw| != body + 4 then BadLength
      else if raw[body..body + 4] != CrcBytes(raw[..body]) then BadFrameCrc
      else Accepted
  }

  // ----- the codec is a bijection between fields and accepted frames

  lemma HeaderParts(f: Fields, tail: Octets)
    ensures var raw := Header(f) + tail;
      && raw[..4] == MAGIC && raw[4] == f.version % 0x100 && raw[5] == f.kind % 0x100
      && raw[6..8] == ToBe(f.flags % 0x1_0000, 2)
      && raw[8..12] == ToBe(f.stream % 0x1_0000_0000, 4)
      && raw[12..16] == ToBe(f.sequence % 0x1_0000_0000, 4)
      && raw[16..18] == ToBe(|f.payload| % 0x1_0000, 2)
      && raw[..18] == Prefix(f) && raw[18..22] == CrcBytes(Prefix(f)) && raw[22..] == tail
  {
    hide ToBe, CrcBytes;
  }

  /** What the decoder says of any encoded frame depends on three fields only. */
  lemma DecodeEncoded(f: Fields)
    requires |f.payload| <= MAX_PAYLOAD
    ensures DecodeExact(Encode(f).value) ==
      if f.version % 0x100 != 1 then BadVersion
      else if !KnownType(f.kind % 0x100) then BadType
      else if f.flags % 0x1_0000 != 0 then BadFlags
      else Accepted
  {
    hide Header, ToBe, CrcBytes, FromBe;
    var tail := f.payload + CrcBytes(Body(f));
    var raw := Encode(f).value;
    assert raw == Header(f) + tail;
    HeaderParts(f, tail);
    assert Pow256(2) == 0x1_0000;
    BeRoundTrip(|f.payload|, 2);
    BeRoundTrip(f.flags % 0x1_0000, 2);
    var body := HEADER + |f.payload|;
    assert raw[..body] == Body(f);
    assert raw[body..body + 4] == CrcBytes(Body(f));
  }

  /** The fields an accepted frame carries. */
  function Decoded(raw: Octets): Fields
    requires DecodeExact(raw).Accepted?
  {
    Fields(raw[5], FromBe(raw[8..12]), FromBe(raw[12..16]),
           raw[HEADER..HEADER + PayloadLength(raw)], 0, VERSION)
  }

  /** Every accepted byte string is the encoding of the fields it carries. */
  lemma EncodeDecoded(raw: Octets)
    requires DecodeExact(raw).Accepted?
    ensures Encode(Decoded(raw)) == Some(raw)
  {
    hide ToBe, CrcBytes, FromBe;
    var f := Decoded(raw);
    assert Pow256(2) == 0x1_0000 && Pow256(4) == 0x1_0000_0000;
    BeParse(raw[6..8]);
    BeParse(raw[8..12]);
    BeParse(raw[12..16]);
    BeParse(raw[16..18]);
    assert raw[..18] == raw[..4] + [raw[4], raw[5]] + raw[6..8] + raw[8..12] + raw[12..16] + raw[16..18];
    assert Prefix(f) == raw[..18];
    var body := HEADER + PayloadLength(raw);
    assert raw[..body] == raw[..18] + raw[18..22] + raw[22..body];
    assert Body(f) == raw[..body];
    assert raw == raw[..body] + raw[body..body + 4];
  }

  predicate IsEncoding(f: Fields, raw: Octets) {
    KnownType(f.kind) && f.flags == 0 && f.version == VERSION && Encode(f) == Some(raw)
  }

  lemma AcceptedIsEncoded(raw: Octets)
    requires DecodeExact(raw).Accepted?
    ensures IsEncoding(Decoded(raw), raw)
  {
    hide Encode, FromBe, CrcBytes;
    EncodeDecoded(raw);
  }

  lemma EncodedIsAccepted(f: Fields, raw: Octets)
    requires IsEncoding(f, raw)
    ensures DecodeExact(raw).Accepted?
  {
    hide DecodeExact, Encode;
    EncodeFits(f);
    DecodeEncoded(f);
  }

  /** The decoder accepts exactly the encodings of version 1 frames of a known type without flags. */
  lemma AcceptedIffEncoded(raw: Octets)
    ensures DecodeExact(raw).Accepted? <==> exists f: Fields :: IsEncoding(f, raw)
  {
    hide DecodeExact, IsEncoding;
    if DecodeExact(raw).Accepted? {
      AcceptedIsEncoded(raw);
    }
    if exists f: Fields :: IsEncoding(f, raw) {
      var f: Fields :| IsEncoding(f, raw);
      EncodedIsAccepted(f, raw);
    }
  }

  lemma EncodeFits(f: Fields)
    ensures Encode(f).Some? <==> |f.payload| <= MAX_PAYLOAD
  {
  }

  lemma EncodedParts(f: Fields)
    requires |f.payload| <= MAX_PAYLOAD
    ensures var raw := Encode(f).value;
      && |raw| >= OVERHEAD
      && raw[5] == f.kind % 0x100
      && FromBe(raw[8..12]) == f.stream % 0x1_0000_0000
      && FromBe(raw[12..16]) == f.sequence % 0x1_0000_0000
      && PayloadLength(raw) == |f.payload|
      && raw[HEADER..HEADER + |f.payload|] == f.payload
  {
    hide Header, ToBe, CrcBytes, FromBe;
    var tail := f.payload + CrcBytes(Body(f));
    var raw := Encode(f).value;
    assert raw == Header(f) + tail;
    HeaderParts(f, tail);
    assert Pow256(2) == 0x1_0000 && Pow256(4) == 0x1_0000_0000;
    BeRoundTrip(|f.payload|, 2);
    BeRoundTrip(f.stream % 0x1_0000_0000, 4);
    BeRoundTrip(f.sequence % 0x1_0000_0000, 4);
    assert raw[HEADER..][..|f.payload|] == f.payload;
    assert raw[HEADER..HEADER + |f.payload|] == raw[HEADER..][..|f.payload|];
  }

  /** Decoding an encoded frame gives back its fields, reduced to their wire widths. */
  lemma FieldsRoundTrip(f: Fields)
    requires |f.payload| <= MAX_PAYLOAD
    requires f.version % 0x100 == 1 && KnownType(f.kind % 0x100) && f.flags % 0x1_0000 == 0
    ensures DecodeExact(Encode(f).value).Accepted?
    ensures Decoded(Encode(f).value) ==
      Fields(f.kind % 0x100, f.stream % 0x1_0000_0000, f.sequence % 0x1_0000_0000, f.payload, 0, VERSION)
  {
    DecodeEncoded(f);
    EncodedParts(f);
    hide DecodeExact, Encode, FromBe;
  }

  // ----- frames delimit themselves

  /** A frame cut short is truncated; a frame with anything after it has a bad length. */
  lemma FrameIsSelfDelimiting(raw: Octets, n: nat, more: Octets)
    requires DecodeExact(raw).Accepted?
    requires n < |raw| && more != []
    ensures DecodeExact(raw[..n]).Truncated?
    ensures DecodeExact(raw + more).BadLength?
  {
    hide CrcBytes, FromBe;
    var long := raw + more;
    assert long[..4] == raw[..4] && long[6..8] == raw[6..8] && long[16..18] == raw[16..18];
    assert long[18..22] == raw[18..22] && long[..18] == raw[..18];
    if n >= HEADER {
      var short := raw[..n];
      assert short[..4] == raw[..4] && short[6..8] == raw[6..8] && short[16..18] == raw[16..18];
      assert short[18..22] == raw[18..22] && short[..18] == raw[..18];
    }
  }

  predicate AllAccepted(frames: seq<Octets>) {
    forall i :: 0 <= i < |frames| ==> DecodeExact(frames[i]).Accepted?
  }

  function Joined(frames: seq<Octets>): Octets {
    if frames == [] then [] else frames[0] + Joined(frames[1..])
  }

  /** A stream of accepted frames can be cut into frames in one way only. */
  lemma {:induction false} StreamSplitsUniquely(a: seq<Octets>, b: seq<Octets>)
    requires AllAccepted(a) && AllAccepted(b) && Joined(a) == Joined(b)
    ensures a == b
    decreases |a|
  {
    hide DecodeExact;
    if a == [] || b == [] {
      EmptyStream(a);
      EmptyStream(b);
    } else {
      var x, y := a[0], b[0];
      var xs, ys := Joined(a[1..]), Joined(b[1..]);
      assert x + xs == y + ys;
      if |x| < |y| {
        assert y[..|x|] == (y + ys)[..|x|] == (x + xs)[..|x|] == x;
        FrameIsSelfDelimiting(y, |x|, [0]);
      } else if |y| < |x| {
        assert x[..|y|] == (x + xs)[..|y|] == (y + ys)[..|y|] == y;
        FrameIsSelfDelimiting(x, |y|, [0]);
      } else {
        assert x == (x + xs)[..|x|] == (y + ys)[..|y|] == y;
        assert xs == (x + xs)[|x|..] == (y + ys)[|y|..] == ys;
        StreamSplitsUniquely(a[1..], b[1..]);
        assert a == [x] + a[1..] && b == [y] + b[1..];
      }
    }
  }

  lemma EmptyStream(frames: seq<Octets>)
    requires AllAccepted(frames)
    ensures Joined(frames) == [] ==> frames == []
  {
    if frames != [] {
      assert DecodeExact(frames[0]).Accepted?;
    }
  }

  // ----- error detection

  /** Two strings of one length that differ only inside [at, at + width). */
  predicate DifferWithin(a: Octets, b: Octets, at: nat, width: nat) {
    && |a| == |b|
    && forall i :: 0 <= i < |a| && !(at <= i < at + width) ==> a[i] == b[i]
  }

  lemma BurstInCovered(a: Octets, b: Octets, covered: nat, at: nat)
    requires DifferWithin(a, b, at, 4) && at <= covered <= |a|
    requires a[..covered] != b[..covered]
    ensures CrcBytes(a[..covered]) != CrcBytes(b[..covered])
  {
    hide CrcBytes;
    var end := if at + 4 <= covered then at + 4 else covered;
    assert a[..covered] == a[..at] + a[at..end] + a[end..covered];
    assert b[..covered] == b[..at] + b[at..end] + b[end..covered];
    assert a[..at] == b[..at];
    assert a[end..covered] == b[end..covered];
    BurstChangesCrc(a[..at], a[at..end], b[at..end], a[end..covered]);
  }

  /** An accepted frame is its body followed by the body's code. */
  lemma AcceptedByCrc(frame: Octets)
    requires DecodeExact(frame).Accepted?
    ensures |frame| >= OVERHEAD
    ensures frame == frame[..|frame| - 4] + CrcBytes(frame[..|frame| - 4])
    ensures frame[|frame| - 4..] == CrcBytes(frame[..|frame| - 4])
  {
    hide CrcBytes, FromBe;
    var body := |frame| - 4;
    assert frame[body..] == frame[body..body + 4];
    assert frame == frame[..body] + frame[body..];
  }

  /**
   No change confined to four consecutive bytes of header and payload, or of the frame
   CRC, is ever accepted.
   */
  lemma BurstIsDetected(frame: Octets, bad: Octets, at: nat)
    requires DecodeExact(frame).Accepted? && bad != frame
    requires DifferWithin(frame, bad, at, 4)
    requires at + 4 <= |frame| - 4 || at >= |frame| - 4
    ensures !DecodeExact(bad).Accepted?
  {
    hide CrcBytes, DecodeExact;
    AcceptedByCrc(frame);
    var body := |frame| - 4;
    if DecodeExact(bad).Accepted? {
      AcceptedByCrc(bad);
      assert frame[..body] != bad[..body];
      assert frame[body..] == bad[body..];
      BurstInCovered(frame, bad, body, at);
    }
  }

  /** No change of a single byte, wherever it is, is ever accepted. */
  lemma ByteChangeIsDetected(frame: Octets, bad: Octets, at: nat)
    requires DecodeExact(frame).Accepted? && bad != frame
    requires DifferWithin(frame, bad, at, 1)
    ensures !DecodeExact(bad).Accepted?
  {
    hide DecodeExact, CrcBytes;
    var body := |frame| - 4;
    AcceptedByCrc(frame);
    var start := if at >= body then at else if at + 4 <= body then at else body - 4;
    BurstIsDetected(frame, bad, start);
  }

  /** The accepted frames, byte by byte. */
  lemma AcceptedBytes(raw: Octets)
    ensures DecodeExact(raw).Accepted? <==>
      && 26 <= |raw| <= 26 + 1024
      && raw[0..4] == [0x4E, 0x43, 0x47, 0x31] && raw[4] == 1 && 1 <= raw[5] <= 4
      && FromBe(raw[6..8]) == 0 && FromBe(raw[16..18]) == |raw| - 26
      && raw[18..22] == CrcBytes(raw[0..18]) && raw[|raw| - 4..] == CrcBytes(raw[0..|raw| - 4])
  {
    hide CrcBytes, FromBe;
    if |raw| >= 26 {
      assert raw[..4] == raw[0..4] && raw[..18] == raw[0..18] && raw[..|raw| - 4] == raw[0..|raw| - 4];
      assert raw[|raw| - 4..] == raw[|raw| - 4..|raw|];
    }
  }

  /** Where an encoded frame keeps its fields. */
  lemma FieldsOnTheWire(f: Fields)
    requires |f.payload| <= 1024 && 0 <= f.kind < 256 && 0 <= f.version < 256 && 0 <= f.flags < 0x1_0000
    requires 0 <= f.stream < 0x1_0000_0000 && 0 <= f.sequence < 0x1_0000_0000
    ensures var raw := Encode(f).value;
      && raw[4] == f.version && raw[5] == f.kind && FromBe(raw[6..8]) == f.flags
      && FromBe(raw[8..12]) == f.stream && FromBe(raw[12..16]) == f.sequence
      && FromBe(raw[16..18]) == |f.payload| && raw[22..22 + |f.payload|] == f.payload
  {
    hide ToBe, FromBe, CrcBytes;
    var tail := f.payload + CrcBytes(Body(f));
    var raw := Encode(f).value;
    assert raw == Header(f) + tail;
    HeaderParts(f, tail);
    assert Pow256(2) == 0x1_0000 && Pow256(4) == 0x1_0000_0000;
    BeRoundTrip(f.flags, 2);
    BeRoundTrip(f.stream, 4);
    BeRoundTrip(f.sequence, 4);
    BeRoundTrip(|f.payload|, 2);
    assert raw[22..] == tail;
    assert raw[22..22 + |f.payload|] == raw[22..][..|f.payload|];
  }

  function Pair(high: int, low: int): int {
    high * 256 + low
  }

  /** What the decoder says of an accepted frame with one byte changed, by the place of the byte. */
  function ByteVerdict(bad: Octets, at: nat): Verdict
    requires |bad| >= HEADER
  {
    if at < 4 then BadMagic
    else if at == 4 then BadVersion
    else if at == 5 then (if 1 <= bad[5] <= 4 then BadHeaderCrc else BadType)
    else if at < 8 then BadFlags
    else if at == 16 || at == 17 then (if Pair(bad[16], bad[17]) <= 1024 then BadHeaderCrc else BadLength)
    else if at < 22 then BadHeaderCrc
    else BadFrameCrc
  }

  lemma TwoByteNumber(b: Octets)
    requires |b| == 2
    ensures FromBe(b) == Pair(b[0], b[1])
  {
    assert FromBe(b[..1]) == b[0] by { assert b[..1][..0] == []; }
  }

  lemma HeaderCodeDiffers(frame: Octets, bad: Octets, at: nat)
    requires |frame| == |bad| >= HEADER && DifferWithin(frame, bad, at, 1) && bad != frame && at < 22
    requires frame[18..22] == CrcBytes(frame[..18])
    ensures bad[18..22] != CrcBytes(bad[..18])
  {
    hide CrcBytes;
    if at < 18 {
      BurstInCovered(frame, bad, 18, if at <= 14 then at else 14);
      assert bad[18..22] == frame[18..22];
    } else {
      assert bad[..18] == frame[..18];
      assert bad[18..22][at - 18] != frame[18..22][at - 18] by { OneDiffers(frame, bad, at); }
    }
  }

  lemma OneDiffers(frame: Octets, bad: Octets, at: nat)
    requires DifferWithin(frame, bad, at, 1) && bad != frame
    ensures at < |frame| && bad[at] != frame[at]
  {
  }

  /** Every change of a single byte is rejected with the reason of its place. */
  lemma ByteChangeVerdict(frame: Octets, bad: Octets, at: nat)
    requires DecodeExact(frame).Accepted? && bad != frame && DifferWithin(frame, bad, at, 1)
    ensures |bad| >= HEADER && DecodeExact(bad) == ByteVerdict(bad, at)
  {
    hide CrcBytes, FromBe;
    ByteChangeIsDetected(frame, bad, at);
    OneDiffers(frame, bad, at);
    TwoByteNumber(frame[6..8]);
    TwoByteNumber(bad[6..8]);
    TwoByteNumber(frame[16..18]);
    TwoByteNumber(bad[16..18]);
    if at < 22 {
      HeaderCodeDiffers(frame, bad, at);
      if at < 4 {
        assert bad[..4][at] != frame[..4][at];
      } else {
        assert bad[..4] == frame[..4];
      }
    } else {
      assert bad[..4] == frame[..4] && bad[..18] == frame[..18] && bad[18..22] == frame[18..22];
      assert bad[6..8] == frame[6..8] && bad[16..18] == frame[16..18];
    }
  }

  /** The only windows in which a four-byte burst can go undetected. */
  predicate BlindWindow(frame: Octets, at: nat) {
    || (at + 5 == |frame| && |frame| > OVERHEAD)
    || (at + 6 == |frame| && |frame| > OVERHEAD + 1)
  }

  /** The frame ends in the code of what is before it. */
  predicate Coded(frame: Octets) {
    |frame| >= OVERHEAD && frame[|frame| - 4..] == CrcBytes(frame[..|frame| - 4])
  }

  lemma AcceptedIsCoded(frame: Octets)
    requires DecodeExact(frame).Accepted?
    ensures Coded(frame)
  {
    hide CrcBytes, DecodeExact;
    AcceptedByCrc(frame);
  }

  /** The last k bytes of the body. */
  function Tail(frame: Octets, k: nat): (d: Octets)
    requires |frame| >= 4 + k
    ensures |d| == k
  {
    frame[|frame| - 4 - k..|frame| - 4]
  }

  function Front(frame: Octets, k: nat): Octets
    requires |frame| >= 4 + k
  {
    frame[..|frame| - 4 - k]
  }

  /** Two coded frames that differ in the window their last k body bytes begin. */
  lemma TailsAreUnseen(frame: Octets, bad: Octets, k: nat)
    requires Coded(frame) && Coded(bad) && 1 <= k <= 3
    requires DifferWithin(frame, bad, |frame| - 4 - k, 4)
    ensures Unseen(Tail(frame, k), Tail(bad, k))
    ensures Tail(frame, k) == Tail(bad, k) ==> frame == bad
  {
    hide CrcBytes, Unseen;
    var n := |frame| - 4;
    var p, d, e := Front(frame, k), Tail(frame, k), Tail(bad, k);
    assert Front(bad, k) == p;
    assert frame[..n] == p + d && bad[..n] == p + e;
    assert frame[n..][4 - k..] == frame[n + 4 - k..] == bad[n + 4 - k..] == bad[n..][4 - k..];
    CodesAgreeIff(p, d, e);
    assert frame == frame[..n] + frame[n..] && bad == bad[..n] + bad[n..];
  }

  /** A burst that leaves the header prefix alone leaves the header alone. */
  lemma HeaderStays(frame: Octets, bad: Octets)
    requires DecodeExact(frame).Accepted? && DecodeExact(bad).Accepted?
    requires frame[..18] == bad[..18]
    ensures frame[..22] == bad[..22]
  {
    hide CrcBytes, FromBe;
    assert frame[..22] == frame[..18] + frame[18..22] && bad[..22] == bad[..18] + bad[18..22];
  }

  lemma StraddlingTails(frame: Octets, bad: Octets, k: nat)
    requires Coded(frame) && Coded(bad) && 1 <= k <= 3
    requires DifferWithin(frame, bad, |frame| - 4 - k, 4)
    requires k < 3 ==> Tail(frame, k)[0] == Tail(bad, k)[0]
    ensures frame == bad
  {
    hide CrcBytes, Unseen;
    TailsAreUnseen(frame, bad, k);
    var d, e := Tail(frame, k), Tail(bad, k);
    if k == 3 {
      ThreeAreSeen(d, e);
    } else if k == 2 {
      SecondIsSeen(d, e);
    } else {
      assert d == [d[0]] && e == [e[0]];
    }
  }

  lemma StraddlingBurst(frame: Octets, bad: Octets, k: nat)
    requires DecodeExact(frame).Accepted? && DecodeExact(bad).Accepted? && |frame| >= OVERHEAD && 1 <= k <= 3
    requires DifferWithin(frame, bad, |frame| - 4 - k, 4) && !BlindWindow(frame, |frame| - 4 - k)
    ensures frame == bad
  {
    hide DecodeExact, Coded;
    AcceptedIsCoded(frame);
    AcceptedIsCoded(bad);
    if k < 3 {
      assert frame[..18] == bad[..18];
      HeaderStays(frame, bad);
      var i := |frame| - 4 - k;
      assert frame[i] == frame[..22][i] == bad[..22][i] == bad[i];
      assert Tail(frame, k)[0] == frame[i] && Tail(bad, k)[0] == bad[i];
    }
    StraddlingTails(frame, bad, k);
  }

  /** Outside the blind windows every burst is detected. */
  lemma OtherBurstsAreDetected(frame: Octets, bad: Octets, at: nat)
    requires DecodeExact(frame).Accepted? && bad != frame
    requires DifferWithin(frame, bad, at, 4) && !BlindWindow(frame, at)
    ensures !DecodeExact(bad).Accepted?
  {
    AcceptedIsCoded(frame);
    hide DecodeExact, CrcBytes;
    if at + 4 <= |frame| - 4 || at >= |frame| - 4 {
      BurstIsDetected(frame, bad, at);
    } else if DecodeExact(bad).Accepted? {
      StraddlingBurst(frame, bad, |frame| - 4 - at);
    }
  }

  /** A frame whose last payload bytes have been masked and whose code is made anew. */
  function Doctored(frame: Octets, mask: Octets): (bad: Octets)
    requires |frame| >= 4 + |mask|
    ensures |bad| == |frame|
  {
    var body := Front(frame, |mask|) + Masked(Tail(frame, |mask|), mask);
    body + CrcBytes(body)
  }

  lemma DoctoredDiffers(frame: Octets, mask: Octets)
    requires Coded(frame) && 1 <= |mask| <= 2 && |frame| >= OVERHEAD + |mask|
    requires Unseen(Tail(frame, |mask|), Masked(Tail(frame, |mask|), mask))
    requires Masked(Tail(frame, |mask|), mask) != Tail(frame, |mask|)
    ensures var bad := Doctored(frame, mask);
      bad != frame && DifferWithin(frame, bad, |frame| - 4 - |mask|, 4)
      && bad[..22] == frame[..22] && bad[|bad| - 4..|bad|] == CrcBytes(bad[..|bad| - 4])
  {
    hide CrcBytes, Masked, Unseen, Coded, Front, Tail, DifferWithin;
    var k := |mask|;
    var p, d := Front(frame, k), Tail(frame, k);
    var e := Masked(d, mask);
    CodesAgreeIff(p, d, e);
    CodedParts(frame, k);
    ReplacedTail(frame, Doctored(frame, mask), p, d, e, CrcBytes(p + d), CrcBytes(p + e));
  }

  lemma CodedParts(frame: Octets, k: nat)
    requires Coded(frame) && |frame| >= OVERHEAD + k
    ensures frame == Front(frame, k) + Tail(frame, k) + CrcBytes(Front(frame, k) + Tail(frame, k))
    ensures |Front(frame, k)| >= 22
  {
    hide CrcBytes;
    assert frame[..|frame| - 4] == Front(frame, k) + Tail(frame, k);
    assert frame == frame[..|frame| - 4] + frame[|frame| - 4..];
  }

  lemma ReplacedTail(x: Octets, y: Octets, p: Octets, d: Octets, e: Octets, a: Octets, b: Octets)
    requires x == p + d + a && y == p + e + b
    requires |d| == |e| <= 2 && |a| == |b| == 4 && a[4 - |d|..] == b[4 - |d|..] && d != e && |p| >= 22
    ensures x != y && DifferWithin(x, y, |x| - 4 - |d|, 4) && y[..22] == x[..22]
    ensures y[|y| - 4..|y|] == b && y[..|y| - 4] == p + e
  {
    var k := |d|;
    assert x[|p|..|p| + k] == d && y[|p|..|p| + k] == e;
    forall i | 0 <= i < |x| && !(|p| <= i < |p| + 4) ensures x[i] == y[i] {
      if i >= |p| + 4 {
        assert x[i] == a[4 - k..][i - |p| - 4] && y[i] == b[4 - k..][i - |p| - 4];
      }
    }
  }

  lemma DoctoredIsAccepted(frame: Octets, mask: Octets)
    requires DecodeExact(frame).Accepted? && 1 <= |mask| <= 2 && |frame| >= OVERHEAD + |mask|
    requires Unseen(Tail(frame, |mask|), Masked(Tail(frame, |mask|), mask))
    requires Masked(Tail(frame, |mask|), mask) != Tail(frame, |mask|)
    ensures var bad := Doctored(frame, mask);
      bad != frame && DifferWithin(frame, bad, |frame| - 4 - |mask|, 4) && DecodeExact(bad).Accepted?
  {
    hide CrcBytes, DecodeExact, Coded, Unseen, Masked, DifferWithin, Doctored, Tail;
    AcceptedIsCoded(frame);
    DoctoredDiffers(frame, mask);
    SameHeaderAccepted(frame, Doctored(frame, mask));
  }

  /**
   A burst of four consecutive bytes of an accepted frame can go undetected in exactly two
   windows: over the last payload byte and three bytes of the frame CRC, and over the last two
   payload bytes and two bytes of the CRC.
   */
  lemma UndetectedBurstIff(frame: Octets, at: nat)
    requires DecodeExact(frame).Accepted?
    ensures (exists bad :: bad != frame && DifferWithin(frame, bad, at, 4) && DecodeExact(bad).Accepted?)
      <==> BlindWindow(frame, at)
  {
    hide DecodeExact, DifferWithin, BlindWindow;
    if BlindWindow(frame, at) {
      var mask := BlindWindowShows(frame, at);
      var bad := Doctored(frame, mask);
      assert bad != frame && DifferWithin(frame, bad, at, 4) && DecodeExact(bad).Accepted?;
    }
    forall bad | bad != frame && DifferWithin(frame, bad, at, 4) && !BlindWindow(frame, at)
      ensures !DecodeExact(bad).Accepted?
    {
      OtherBurstsAreDetected(frame, bad, at);
    }
  }

  lemma BlindWindowShows(frame: Octets, at: nat) returns (mask: Octets)
    requires DecodeExact(frame).Accepted? && BlindWindow(frame, at)
    ensures |frame| >= 4 + |mask|
    ensures var bad := Doctored(frame, mask);
      bad != frame && DifferWithin(frame, bad, at, 4) && DecodeExact(bad).Accepted?
  {
    hide DecodeExact, DifferWithin, Unseen, Masked, Doctored, Tail;
    mask := if at + 5 == |frame| then HIDDEN1 else HIDDEN2;
    HiddenChanges(Tail(frame, |mask|));
    DoctoredIsAccepted(frame, mask);
  }

  /** Every four-byte burst of an accepted frame is detected exactly when its payload is empty. */
  lemma EveryBurstDetectedIff(frame: Octets)
    requires DecodeExact(frame).Accepted?
    ensures (forall bad, at: nat :: bad != frame && DifferWithin(frame, bad, at, 4) ==> !DecodeExact(bad).Accepted?)
      <==> |frame| == OVERHEAD
  {
    AcceptedByCrc(frame);
    hide DecodeExact, DifferWithin;
    if |frame| == OVERHEAD {
      forall bad, at: nat | bad != frame && DifferWithin(frame, bad, at, 4) ensures !DecodeExact(bad).Accepted? {
        OtherBurstsAreDetected(frame, bad, at);
      }
    } else {
      UndetectedBurstIff(frame, |frame| - 5);
    }
  }

  /** Acceptance looks at the header, the length and the frame code. */
  lemma SameHeaderAccepted(frame: Octets, bad: Octets)
    requires DecodeExact(frame).Accepted? && |bad| == |frame| > OVERHEAD
    requires bad[..22] == frame[..22]
    requires bad[|bad| - 4..|bad|] == CrcBytes(bad[..|bad| - 4])
    ensures DecodeExact(bad).Accepted?
  {
    hide CrcBytes, FromBe;
    assert bad[..4] == bad[..22][..4] && frame[..4] == frame[..22][..4];
    assert bad[6..8] == bad[..22][6..8] && frame[6..8] == frame[..22][6..8];
    assert bad[16..18] == bad[..22][16..18] && frame[16..18] == frame[..22][16..18];
    assert bad[18..22] == bad[..22][18..22] && frame[18..22] == frame[..22][18..22];
    assert bad[..18] == bad[..22][..18] && frame[..18] == frame[..22][..18];
    assert forall i :: 0 <= i < 22 ==> bad[i] == bad[..22][i] == frame[..22][i] == frame[i];
  }
}
