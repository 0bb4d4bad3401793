/** Records built by the generators are read back, pass the gate and meet the plans they are for. */
module Builders {
  import opened Octets
  import opened Records
  import opened SessionMachine
  import opened CrossRow

  function Be32(n: nat): (b: Octets)
    ensures |b| == 4
  {
    ToBe(n, 4)
  }

  const LOGICAL_EPOCH: Octets := [0xC1, 0xC2, 0xC2, 0xC2, 0xC2, 0xC2, 0xC2, 0xC2, 0xC2, 0xC2, 0xC2, 0xC2, 0xC2, 0xC2, 0xC2, 0xC2]

  /** The scheduler fields that no plan reads. */
  datatype Work = Work(workClass: nat, revision: nat, ready: nat)

  predicate WorkFits(w: Work) {
    w.workClass < 0x1_0000 && w.revision < 0x1_0000_0000_0000_0000 && w.ready < 0x1_0000_0000
  }

  function SchedTail(w: Work): Octets {
    Be64(w.revision) + LOGICAL_EPOCH + Be64(0) + Zeros(16) + Be64(0) + Be32(w.ready)
  }

  /** A number too wide for its field is an error nobody catches. */
  function MakeSchedBody(h: Hash, ownerSeq: nat, kind: nat, subject: Octets, w: Work): Res<Octets> {
    var primary: Octets :- SchedPrimary(h, kind, subject);
    if ownerSeq >= 0x1_0000_0000_0000_0000 || !WorkFits(w) then Broken
    else
      var raw: Octets :- Raw16(subject);
      Good(Be64(ownerSeq) + Be16(kind) + Be16(w.workClass) + raw + KeyDigest(h, primary) + SchedTail(w))
  }

  /** A built body has the fields it was built from. */
  lemma SchedBodyReadsBack(h: Hash, ownerSeq: nat, kind: nat, subject: Octets, w: Work)
    requires MakeSchedBody(h, ownerSeq, kind, subject, w).Good?
    ensures var body := MakeSchedBody(h, ownerSeq, kind, subject, w).value;
      ParseSched(body) == Good(Sched(ownerSeq, kind, subject, 14 + |subject|))
      && body[14 + |subject|..46 + |subject|] == KeyDigest(h, SchedPrimary(h, kind, subject).value)
  {
    hide KId128, KOver, KU64, KeyDigest, ToBe, FromBe, SchedTail;
    var head := Be64(ownerSeq) + Be16(kind) + Be16(w.workClass);
    var tail := KeyDigest(h, SchedPrimary(h, kind, subject).value) + SchedTail(w);
    var body := MakeSchedBody(h, ownerSeq, kind, subject, w).value;
    assert body == head + Raw16(subject).value + tail;
    Raw16RoundTrip(head, subject, tail);
    assert body[0..8] == Be64(ownerSeq) && body[8..10] == Be16(kind);
    assert Pow256(8) == 0x1_0000_0000_0000_0000 && Pow256(2) == 0x1_0000 by { Widths(); }
    BeRoundTrip(ownerSeq, 8);
    BeRoundTrip(kind, 2);
  }

  lemma Widths()
    ensures Pow256(2) == 0x1_0000 && Pow256(8) == 0x1_0000_0000_0000_0000
  {
    assert Pow256(4) == 0x1_0000_0000;
    assert Pow256(6) == 0x1_0000_0000_0000;
  }

  /** A built body passes the structural gate exactly when its sequence is not zero. */
  lemma SchedBodyPassesGate(h: Hash, ownerSeq: nat, kind: nat, subject: Octets, w: Work)
    requires MakeSchedBody(h, ownerSeq, kind, subject, w).Good?
    ensures SchedStructure(h, MakeSchedBody(h, ownerSeq, kind, subject, w).value) ==
      if ownerSeq == 0 then Malformed else Fine
  {
    SchedBodyReadsBack(h, ownerSeq, kind, subject, w);
    hide KId128, KOver, KU64, KeyDigest, ParseSched, SchedTail;
  }

  /** The record's owner is compared with the owner the plan declares. */
  lemma OwnerCompared(mode: int, ev: PeerEval, record: Octets, body: Octets, pvd: Octets, s: Sched)
    requires Extract(record) == Good(Envelope(ST_SCHED, body, pvd)) && ParseSched(body) == Good(s)
    requires OwnerDeclared(ev) && (ev.dualRaw.None? || ev.dualRaw2.None?)
    ensures PeerRawOk(mode, ev, record) == Good(s.ownerKind == ev.ownerKind.value && s.subject == ev.subjectRaw.value)
  {
    hide Extract, ParseSched, PrimaryRawOk, PairRawOk, DualRawOk;
  }

  lemma PinnedIsMet(h: Hash, mode: int, ev: PeerEval, val: Octets, record: Octets)
    requires mode != 17 && HeaderPvd(record) == Sha(h, val) && PeerRawOk(mode, ev, record).Good?
    requires ev.rawBijection
    ensures CheckPeer(h, mode, ev, val, record) == if PeerRawOk(mode, ev, record).value then Met else Unmet
  {
    hide Sha, HeaderPvd, PeerRawOk, FramingOf;
  }

  lemma RecordReads(m: Meta, e: Envelope)
    requires Encodable(m, e)
    ensures Extract(EncodeEnvelope(m, e)) == Good(e) && HeaderPvd(EncodeEnvelope(m, e)) == e.pvd
  {
    EnvelopeRoundTrip(m, e);
    EnvelopeParts(m, e);
    hide Extract, EncodeEnvelope;
  }

  /**
   A sealed scheduler record with the source row's digest in its header meets a plan that
   declares an owner (modes 7, 13 and 16) exactly when it was built for that owner.
   */
  lemma BuiltSchedulerIsMetIff(h: Hash, mode: int, ev: PeerEval, val: Octets, m: Meta, ownerSeq: nat, kind: nat,
                               subject: Octets, w: Work, body: Octets)
    requires mode != 17 && OwnerDeclared(ev) && (ev.dualRaw.None? || ev.dualRaw2.None?)
    requires MakeSchedBody(h, ownerSeq, kind, subject, w) == Good(body)
    requires Encodable(m, Envelope(ST_SCHED, body, Sha(h, val)))
    ensures CheckPeer(h, mode, ev, val, EncodeEnvelope(m, Envelope(ST_SCHED, body, Sha(h, val)))) ==
      if kind == ev.ownerKind.value && subject == ev.subjectRaw.value then Met else Unmet
  {
    SchedBodyReadsBack(h, ownerSeq, kind, subject, w);
    var e := Envelope(ST_SCHED, body, Sha(h, val));
    var record := EncodeEnvelope(m, e);
    RecordReads(m, e);
    hide MakeSchedBody, EncodeEnvelope, Extract, ParseSched, PeerRawOk, CheckPeer, HeaderPvd, Sha;
    OwnerCompared(mode, ev, record, body, e.pvd, ParseSched(body).value);
    PinnedIsMet(h, mode, ev, val, record);
  }

  // ----- reservations

  /** Eleven resource vectors of two zero counters each, and the reservation's own counters. */
  function ReservationTail(): Octets {
    Zeros(176) + Be32(0) + Be32(0) + Be64(0) + Be32(0)
  }

  /** The generator reads the nested length before it looks for the delivery. */
  function MakeResBody(h: Hash, kind: nat, raw: Octets): Res<Octets> {
    var pkd: Octets :-
      if kind == 5 then
        Good(KComposite(h, ST_DELIVERY, Clip(raw, 0, 2 + FromBe(Clip(raw, 0, 2)))))
      else ReservationPrimary(h, kind, raw);
    var r: Octets :- Raw16(raw);
    Good(Be16(kind) + Be16(0) + r + KeyDigest(h, pkd) + ReservationTail())
  }

  /** A built reservation has the owner it was built for. */
  lemma ResBodyReadsBack(h: Hash, kind: nat, raw: Octets)
    requires MakeResBody(h, kind, raw).Good?
    ensures ParseOwned(MakeResBody(h, kind, raw).value) == Good(Owned(kind, raw, 6 + |raw|))
  {
    assert 1 <= kind <= 5;
    hide ReservationPrimary, KComposite, KeyDigest, ToBe, FromBe, ReservationTail;
    var head := Be16(kind) + Be16(0);
    var body := MakeResBody(h, kind, raw).value;
    var tail := body[6 + |raw|..];
    assert body == head + Raw16(raw).value + tail;
    Raw16RoundTrip(head, raw, tail);
    assert body[0..2] == Be16(kind);
    Widths();
    BeRoundTrip(kind, 2);
  }

  /**
   A built reservation passes the structural gate, unless it is a callback reservation
   whose owner is not a RAW16 delivery key of 80 bytes followed by a token that is not zero.
   */
  lemma ResBodyPassesGate(h: Hash, kind: nat, raw: Octets)
    requires MakeResBody(h, kind, raw).Good?
    ensures ReservationStructure(MakeResBody(h, kind, raw).value) == Fine <==>
      kind != 5 || (|raw| >= 90 && FromBe(raw[..2]) == 80 && FromBe(raw[82..90]) != 0)
  {
    ResBodyReadsBack(h, kind, raw);
    hide MakeResBody, ParseOwned, FromBe;
  }
}
