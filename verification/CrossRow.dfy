/**
 What one stored row demands of its peer, under the twenty cross-row modes: the fields a
 record body carries, the peer key rebuilt from them, and the checks on the peer found.
 */
module CrossRow {
  import opened Octets
  import opened Catalog
  import opened Records
  import opened SessionMachine

  const ST_SERVICE: Byte := 0x10
  const ST_QUOTA: Byte := 0x11
  const ST_ANCHOR: Byte := 0x20
  const ST_SEQ: Byte := 0x21
  const ST_STATE: Byte := 0x22
  const ST_RES: Byte := 0x23
  const ST_IDEM: Byte := 0x24
  const ST_EVMAP: Byte := 0x25
  const ST_SCHED: Byte := 0x26
  const ST_INGRESS: Byte := 0x27
  const ST_ATTEMPT: Byte := 0x31
  const ST_EVIDENCE: Byte := 0x32
  const ST_CANCEL: Byte := 0x33
  const ST_AII: Byte := 0x34
  const ST_DELIVERY: Byte := 0x40
  const ST_RC: Byte := 0x41
  const ST_RR: Byte := 0x42
  const ST_ES: Byte := 0x50
  const ST_RETRY: Byte := 0x51
  const ST_MGMT: Byte := 0x52
  const ST_RB: Byte := 0x61
  const ST_CP: Byte := 0x63

  const BIND_EXISTING_TX: nat := 1
  const BIND_EXISTING_DLV: nat := 2
  const BIND_NEW_DELIVERY: nat := 3

  const RC_STARTED: nat := 2
  const RC_RESULT: nat := 4
  const RC_DISP: nat := 5
  const RC_CANCEL: nat := 8
  const TS_ACTIVE: nat := 2
  const TX_TERMINAL: nat := 5

  const PARTY_LEN: nat := 100
  const TARGET_LEN: nat := 100

  function Be16(n: nat): (b: Octets)
    ensures |b| == 2
  {
    ToBe(n, 2)
  }

  function Be64(n: nat): (b: Octets)
    ensures |b| == 8
  {
    ToBe(n, 8)
  }

  /** The number in a field, however much of the field is there. */
  function Num(body: Octets, off: nat, width: nat): nat {
    FromBe(Clip(body, off, off + width))
  }

  // ----- record bodies

  /** Skips identifiers that carry their own length byte. */
  function SkipTextIds(buf: Octets, off: nat, count: nat): (r: Res<nat>)
    ensures !r.Broken?
    decreases count
  {
    if count == 0 then Good(off)
    else if off >= |buf| then Invalid
    else SkipTextIds(buf, off + 1 + buf[off], count - 1)
  }

  datatype Anchor = Anchor(txn: Octets, txnSeq: nat, family: nat, eventId: Octets,
                           scope: Octets, ikey: Octets, ikeyEnd: nat, schedSeq: nat)

  function ParseAnchor(body: Octets): (r: Res<Anchor>)
    ensures !r.Broken?
  {
    var o0: nat :- SkipTextIds(body, 36 + PARTY_LEN, 3);
    var o := o0 + 48 + 64;
    var scope: Parsed :- ParseRaw16(body, o + 16 + 8 + 56 + 8 + TARGET_LEN);
    var ikey: Parsed :- ParseRaw16(body, scope.end);
    Good(Anchor(Clip(body, 0, 16), Num(body, 16, 8), Num(body, 32, 4), Clip(body, o, o + 16),
                scope.text, ikey.text, ikey.end, Num(body, ikey.end + 128, 8)))
  }

  datatype Delivery = Delivery(raw: Octets, schedSeq: nat, family: nat)

  function ParseDelivery(body: Octets): (r: Res<Delivery>)
    ensures !r.Broken?
  {
    var raw: Parsed :- ParseRaw16(body, 0);
    var o := raw.end + 4;
    var f: nat :- SkipTextIds(body, o + 8 + 16 + 16 + PARTY_LEN + TARGET_LEN, 3);
    Good(Delivery(raw.text, Num(body, o, 8), Num(body, f + 44, 4)))
  }

  datatype Ingress = Ingress(orderedSeq: Octets, ownerSeq: nat, binding: nat, txn: Octets,
                             srcRuntime: Octets, srcApp: Octets, tgtRuntime: Octets, tgtApp: Octets)

  function ParseIngress(body: Octets): (r: Res<Ingress>)
    ensures !r.Broken?
    ensures r.Good? ==> |r.value.orderedSeq| == 8 && |r.value.txn| == 16
  {
    if |body| < 76 + PARTY_LEN + TARGET_LEN then Invalid
    else
      var t := 76 + PARTY_LEN;
      Good(Ingress(body[0..8], FromBe(body[8..16]), FromBe(body[16..18]), body[28..44],
                   body[76..92], body[92..108], body[t + 4..t + 20], body[t + 20..t + 36]))
  }

  /** The delivery key an ingress record names by its own parties. */
  function DeliveryRawOf(i: Ingress): Octets {
    i.srcRuntime + i.srcApp + i.txn + i.tgtRuntime + i.tgtApp
  }

  datatype Owned = Owned(kind: nat, raw: Octets, rawEnd: nat)

  function ParseOwned(body: Octets): (r: Res<Owned>)
    ensures !r.Broken?
    ensures r.Good? ==> r.value.rawEnd <= |body|
  {
    var raw: Parsed :- ParseRaw16(body, 4);
    Good(Owned(Num(body, 0, 2), raw.text, raw.end))
  }

  datatype Sched = Sched(ownerSeq: nat, ownerKind: nat, subject: Octets, subjectEnd: nat)

  function ParseSched(body: Octets): (r: Res<Sched>)
    ensures !r.Broken?
  {
    var subject: Parsed :- ParseRaw16(body, 12);
    Good(Sched(Num(body, 0, 8), Num(body, 8, 2), subject.text, subject.end))
  }

  datatype Idem = Idem(scope: Octets, ikey: Octets, txn: Octets)

  function ParseIdem(body: Octets): (r: Res<Idem>)
    ensures !r.Broken?
  {
    var scope: Parsed :- ParseRaw16(body, 0);
    var ikey: Parsed :- ParseRaw16(body, scope.end);
    Good(Idem(scope.text, ikey.text, Clip(body, ikey.end, ikey.end + 16)))
  }

  datatype ResultCache = ResultCache(deliveryRaw: Octets, state: nat, tokenGen: nat, tokenState: nat)

  function ParseRc(body: Octets): (r: Res<ResultCache>)
    ensures !r.Broken?
  {
    var raw: Parsed :- ParseRaw16(body, 0);
    var o := raw.end + 32 + 16 + 8 + 8;
    Good(ResultCache(raw.text, Num(body, o, 4), Num(body, o + 24, 8), Num(body, o + 32 + 168, 4)))
  }

  datatype Attempt = Attempt(attemptId: Octets, ownerKind: nat, ownerRaw: Octets)

  function ParseAttempt(body: Octets): (r: Res<Attempt>)
    ensures !r.Broken?
    ensures r.Good? ==> |r.value.attemptId| == 16
  {
    var raw: Parsed :- ParseRaw16(body, 20);
    Good(Attempt(Clip(body, 0, 16), Num(body, 16, 2), raw.text))
  }

  function FirstRaw16(body: Octets): (r: Res<Octets>)
    ensures !r.Broken?
  {
    var raw: Parsed :- ParseRaw16(body, 0);
    Good(raw.text)
  }

  function SecondRaw16(body: Octets): (r: Res<Octets>)
    ensures !r.Broken?
  {
    var first: Parsed :- ParseRaw16(body, 0);
    var second: Parsed :- ParseRaw16(body, first.end);
    Good(second.text)
  }

  function EvmapTxn(body: Octets): (r: Res<Octets>)
    ensures !r.Broken?
  {
    var scope: Parsed :- ParseRaw16(body, 0);
    Good(Clip(body, scope.end + 16, scope.end + 32))
  }

  // ----- rebuilding the peer key

  /** A peer that must be there, with its digest compared and nothing more. */
  function Expecting(key: Octets): PeerEval {
    PeerEval(key, true, true, false, None, None, None, None, false, false)
  }

  function ExpectingNone(key: Octets): PeerEval {
    Expecting(key).(expectPresent := false, checkPvd := false)
  }

  function WithOwner(e: PeerEval, kind: nat, raw: Octets): PeerEval {
    e.(ownerKind := Some(kind), subjectRaw := Some(raw), rawBijection := true)
  }

  function WithSubject(e: PeerEval, raw: Octets): PeerEval {
    e.(subjectRaw := Some(raw), rawBijection := true)
  }

  function Unpinned(e: PeerEval): PeerEval {
    e.(skipPvd := true, checkPvd := false)
  }

  /** The key of a composite record over a prefix and one length-prefixed string. */
  function KOver(h: Hash, subtype: Byte, prefix: Octets, raw: Octets): (r: Res<Octets>)
    ensures !r.Broken?
  {
    var c: Octets :- Raw16(raw);
    Good(KComposite(h, subtype, prefix + c))
  }

  function AnchorPlan(h: Hash, mode: int, a: Anchor): Res<PeerEval> {
    if mode == 3 then
      var k: Octets :- KU64(ST_SEQ, Be64(a.txnSeq));
      Good(Expecting(k))
    else if mode == 4 then
      var k: Octets :- KId128(ST_STATE, a.txn);
      Good(Expecting(k))
    else if mode == 5 then
      var s: Octets :- Raw16(a.scope);
      var i: Octets :- Raw16(a.ikey);
      Good(Expecting(KComposite(h, ST_IDEM, s + i)).(
        dualRaw := Some(a.scope), dualRaw2 := Some(a.ikey), rawBijection := true))
    else if mode == 6 then
      var k: Octets :- KOver(h, ST_RES, Be16(2), a.txn);
      Good(Expecting(k))
    else if mode == 7 then
      var k: Octets :- KU64(ST_SCHED, Be64(a.schedSeq));
      Good(WithOwner(Expecting(k), 1, a.txn))
    else if mode == 8 then
      var s: Octets :- Raw16(a.scope);
      var k := KComposite(h, ST_EVMAP, s + a.eventId);
      Good(if a.family == 1 then Expecting(k) else ExpectingNone(k))
    else if mode == 9 then
      var k: Octets :- KId128(ST_ES, a.txn);
      Good(if a.family == 1 then Expecting(k) else ExpectingNone(k))
    else
      var k: Octets :- KOver(h, ST_CANCEL, Be16(1), a.txn);
      Good(if a.family == 2 then Expecting(k) else ExpectingNone(k))
  }

  function DeliveryPlan(h: Hash, mode: int, d: Delivery): Res<PeerEval> {
    if mode == 11 then
      var k: Octets :- KOver(h, ST_RC, [], d.raw);
      Good(Expecting(k))
    else if mode == 12 then
      var k: Octets :- KOver(h, ST_RES, Be16(4), d.raw);
      Good(Expecting(k))
    else if mode == 13 then
      var k: Octets :- KU64(ST_SCHED, Be64(d.schedSeq));
      Good(WithOwner(Expecting(k), 2, d.raw))
    else
      var k: Octets :- KOver(h, ST_CANCEL, Be16(2), d.raw);
      Good(if d.family == 2 then Expecting(k) else ExpectingNone(k))
  }

  function IngressPlan(h: Hash, mode: int, i: Ingress): Res<PeerEval> {
    if mode == 15 then
      var k: Octets :- KOver(h, ST_RES, Be16(3), i.orderedSeq);
      Good(Expecting(k))
    else
      var k: Octets :- KU64(ST_SCHED, Be64(i.ownerSeq));
      if i.binding == BIND_NEW_DELIVERY then Good(WithOwner(Expecting(k), 3, i.orderedSeq))
      else if i.binding == BIND_EXISTING_TX then Good(WithOwner(Unpinned(Expecting(k)), 1, i.txn))
      else if i.binding == BIND_EXISTING_DLV then Good(WithOwner(Unpinned(Expecting(k)), 2, DeliveryRawOf(i)))
      else Invalid
  }

  /** The anchor a secondary names by its transaction. */
  function ToAnchor(txn: Octets): Res<Option<PeerEval>> {
    var k: Octets :- KId128(ST_ANCHOR, txn);
    Good(Some(WithSubject(Expecting(k), txn)))
  }

  function ToDelivery(h: Hash, raw: Octets): Res<Option<PeerEval>> {
    var k: Octets :- KOver(h, ST_DELIVERY, [], raw);
    Good(Some(WithSubject(Expecting(k), raw)))
  }

  /** The anchor or delivery a secondary names by the kind of its owner. */
  function ToOwner(h: Hash, kind: nat, raw: Octets, anchorKind: nat, deliveryKind: nat): Res<Option<PeerEval>> {
    if kind == anchorKind then
      var k: Octets :- KId128(ST_ANCHOR, raw);
      Good(Some(WithOwner(Expecting(k), kind, raw)))
    else if kind == deliveryKind then
      var k: Octets :- KOver(h, ST_DELIVERY, [], raw);
      Good(Some(WithOwner(Expecting(k), kind, raw)))
    else Invalid
  }

  function SchedPrimary(h: Hash, kind: nat, subject: Octets): Res<Octets> {
    if kind == 1 then KId128(ST_ANCHOR, subject)
    else if kind == 2 then KOver(h, ST_DELIVERY, [], subject)
    else if kind == 3 then KU64(ST_INGRESS, subject)
    else Invalid
  }

  function ReservationPrimary(h: Hash, kind: nat, raw: Octets): Res<Octets> {
    if kind == 1 then KOver(h, ST_SERVICE, [], raw)
    else if kind == 2 then KId128(ST_ANCHOR, raw)
    else if kind == 3 then KU64(ST_INGRESS, raw)
    else if kind == 4 then KOver(h, ST_DELIVERY, [], raw)
    else if kind == 5 then KOver(h, ST_DELIVERY, [], Clip(raw, 2, 2 + FromBe(Clip(raw, 0, 2))))
    else Invalid
  }

  /** Mode 17: from a secondary record back to its true primary. */
  function ReversePlan(h: Hash, subtype: Byte, body: Octets): Res<Option<PeerEval>> {
    if subtype == ST_QUOTA then
      var sk: Octets :- FirstRaw16(body);
      var k: Octets :- KOver(h, ST_SERVICE, [], sk);
      Good(Some(Expecting(k).(dualRaw := Some(sk), rawBijection := true)))
    else if subtype == ST_RES then
      var r: Owned :- ParseOwned(body);
      var k: Octets :- ReservationPrimary(h, r.kind, r.raw);
      Good(Some(WithOwner(Expecting(k), r.kind, r.raw)))
    else if subtype == ST_SEQ then ToAnchor(Clip(body, 8, 24))
    else if subtype == ST_STATE then ToAnchor(Clip(body, 0, 16))
    else if subtype == ST_IDEM then
      var im: Idem :- ParseIdem(body);
      var k: Octets :- KId128(ST_ANCHOR, im.txn);
      Good(Some(WithSubject(Expecting(k).(dualRaw := Some(im.scope), dualRaw2 := Some(im.ikey)), im.txn)))
    else if subtype == ST_EVMAP then
      var txn: Octets :- EvmapTxn(body);
      ToAnchor(txn)
    else if subtype == ST_ES then ToAnchor(Clip(body, 0, 16))
    else if subtype == ST_RETRY then ToAnchor(Clip(body, 0, 16))
    else if subtype == ST_MGMT then ToAnchor(Clip(body, 28, 44))
    else if subtype == ST_SCHED then
      var s: Sched :- ParseSched(body);
      var k: Octets :- SchedPrimary(h, s.ownerKind, s.subject);
      Good(Some(WithOwner(Expecting(k), s.ownerKind, s.subject)))
    else if subtype == ST_ATTEMPT then
      var a: Attempt :- ParseAttempt(body);
      ToOwner(h, a.ownerKind, a.ownerRaw, 1, 2)
    else if subtype == ST_AII then ToAnchor(Clip(body, 16, 32))
    else if subtype == ST_CANCEL || subtype == ST_EVIDENCE then
      var c: Owned :- ParseOwned(body);
      ToOwner(h, c.kind, c.raw, 1, 2)
    else if subtype == ST_RC then
      var rc: ResultCache :- ParseRc(body);
      ToDelivery(h, rc.deliveryRaw)
    else if subtype == ST_RR then
      var raw: Octets :- SecondRaw16(body);
      ToDelivery(h, raw)
    else if subtype == ST_RB then
      var rb: Owned :- ParseOwned(body);
      ToOwner(h, rb.kind, rb.raw, 2, 3)
    else if subtype == ST_CP then
      var cp: Owned :- ParseOwned(body);
      if cp.rawEnd + 64 > |body| then Invalid else ToOwner(h, cp.kind, cp.raw, 2, 3)
    else Good(None)
  }

  /** Mode 18: an attempt and its index entry name each other. */
  function AttemptPlan(h: Hash, subtype: Byte, body: Octets): Res<Option<PeerEval>> {
    if subtype == ST_ATTEMPT then
      var a: Attempt :- ParseAttempt(body);
      var k: Octets :- KId128(ST_AII, a.attemptId);
      if a.ownerKind == 1 then
        Good(Some(WithOwner(Unpinned(Expecting(k)).(mode18Pair := true), 1, a.ownerRaw + a.attemptId)))
      else if a.ownerKind == 2 then Good(Some(Unpinned(ExpectingNone(k))))
      else Good(None)
    else if subtype == ST_AII then
      var attempt, txn := Clip(body, 0, 16), Clip(body, 16, 32);
      var t: Octets :- Raw16(txn);
      Good(Some(WithSubject(
        Unpinned(Expecting(KComposite(h, ST_ATTEMPT, Be16(1) + t + attempt))).(mode18Pair := true), txn + attempt)))
    else Good(None)
  }

  /** Mode 19: a callback reservation exists exactly while the callback is active. */
  function CallbackActive(rc: ResultCache): bool {
    rc.state == RC_STARTED && rc.tokenState == TS_ACTIVE
  }

  function CallbackOwner(rc: ResultCache): Res<Octets> {
    var d: Octets :- Raw16(rc.deliveryRaw);
    Good(d + Be64(rc.tokenGen))
  }

  function CallbackPlan(h: Hash, body: Octets): Res<Option<PeerEval>> {
    var rc: ResultCache :- ParseRc(body);
    var owner: Octets :- CallbackOwner(rc);
    var k: Octets :- KOver(h, ST_RES, Be16(5), owner);
    Good(Some(if CallbackActive(rc) then WithOwner(Unpinned(Expecting(k)), 5, owner)
              else Unpinned(ExpectingNone(k))))
  }

  /** Mode 20: a retention basis exists exactly for what is terminal. */
  function RetentionEval(key: Octets, terminal: bool, kind: nat, raw: Octets): PeerEval {
    if terminal then WithOwner(Unpinned(Expecting(key)), kind, raw) else Unpinned(ExpectingNone(key))
  }

  function TxTerminal(body: Octets): bool {
    Num(body, 48, 4) == TX_TERMINAL
  }

  function RcTerminal(rc: ResultCache): bool {
    rc.state == RC_RESULT || rc.state == RC_DISP || rc.state == RC_CANCEL
  }

  function RetentionPlan(h: Hash, subtype: Byte, body: Octets): Res<Option<PeerEval>> {
    if subtype == ST_STATE then
      var txn := Clip(body, 0, 16);
      var k: Octets :- KOver(h, ST_RB, Be16(2), txn);
      Good(Some(RetentionEval(k, TxTerminal(body), 2, txn)))
    else if subtype == ST_RC then
      var rc: ResultCache :- ParseRc(body);
      var k: Octets :- KOver(h, ST_RB, Be16(3), rc.deliveryRaw);
      Good(Some(RetentionEval(k, RcTerminal(rc), 3, rc.deliveryRaw)))
    else Good(None)
  }

  function Always(r: Res<PeerEval>): Res<Option<PeerEval>> {
    var e: PeerEval :- r;
    Good(Some(e))
  }

  function ServicePlan(h: Hash, mode: int, body: Octets): Res<Option<PeerEval>> {
    var sk: Octets :- FirstRaw16(body);
    var k: Octets :- if mode == 1 then KOver(h, ST_QUOTA, [], sk) else KOver(h, ST_RES, Be16(1), sk);
    Good(Some(Expecting(k)))
  }

  function BodyPlan(h: Hash, mode: int, subtype: Byte, body: Octets): Res<Option<PeerEval>> {
    if 1 <= mode <= 2 then
      if subtype != ST_SERVICE then Good(None) else ServicePlan(h, mode, body)
    else if 3 <= mode <= 10 then
      if subtype != ST_ANCHOR then Good(None)
      else
        var a: Anchor :- ParseAnchor(body);
        Always(AnchorPlan(h, mode, a))
    else if 11 <= mode <= 14 then
      if subtype != ST_DELIVERY then Good(None)
      else
        var d: Delivery :- ParseDelivery(body);
        Always(DeliveryPlan(h, mode, d))
    else if 15 <= mode <= 16 then
      if subtype != ST_INGRESS then Good(None)
      else
        var i: Ingress :- ParseIngress(body);
        Always(IngressPlan(h, mode, i))
    else if mode == 17 then ReversePlan(h, subtype, body)
    else if mode == 18 then AttemptPlan(h, subtype, body)
    else if mode == 19 then
      if subtype != ST_RC then Good(None) else CallbackPlan(h, body)
    else if mode == 20 then RetentionPlan(h, subtype, body)
    else Good(None)
  }

  /** Rows outside family 6, and rows without an envelope, are not applicable to any mode. */
  function RebuildPeer(h: Hash, mode: int, key: Octets, val: Octets): Res<Option<PeerEval>> {
    match ParseDomainKey(key)
    case None => Good(None)
    case Some(k) =>
      if k.family != 6 then Good(None)
      else
        match Extract(val)
        case Good(e) => BodyPlan(h, mode, k.subtype, e.body)
        case _ => Good(None)
  }

  function PlanOf(r: Res<Option<PeerEval>>): PeerPlan {
    match r
    case Good(None) => NotApplicable
    case Good(Some(e)) => Probe(e)
    case Invalid => PlanInvalid
    case Broken => PlanCrash
  }

  // ----- checking the peer found

  function DualRawOk(ev: PeerEval, peer: Envelope): Res<bool>
    requires ev.dualRaw.Some? && ev.dualRaw2.Some?
  {
    if peer.subtype == ST_IDEM then
      var im: Idem :- ParseIdem(peer.body);
      Good(im.scope == ev.dualRaw.value && im.ikey == ev.dualRaw2.value)
    else if peer.subtype == ST_ANCHOR then
      var a: Anchor :- ParseAnchor(peer.body);
      Good(a.scope == ev.dualRaw.value && a.ikey == ev.dualRaw2.value
        && (ev.subjectRaw.Some? && |ev.subjectRaw.value| == 16 ==> a.txn == ev.subjectRaw.value))
    else Good(false)
  }

  predicate IsPrimary(subtype: Byte) {
    subtype == ST_SERVICE || subtype == ST_ANCHOR || subtype == ST_INGRESS || subtype == ST_DELIVERY
  }

  function NestedDelivery(ev: PeerEval, raw: Octets): Octets {
    if ev.ownerKind == Some(5) && |raw| >= 10 && FromBe(raw[..2]) == 80 then Clip(raw, 2, 82) else raw
  }

  /** Mode 17: the primary's own identity against the material that led to it. */
  function PrimaryRawOk(ev: PeerEval, peer: Envelope): Res<bool>
    requires IsPrimary(peer.subtype)
  {
    if peer.subtype == ST_SERVICE then
      var sk: Octets :- FirstRaw16(peer.body);
      var wanted := if ev.dualRaw.Some? then ev.dualRaw else ev.subjectRaw;
      Good(wanted == Some(sk))
    else if peer.subtype == ST_ANCHOR then
      var a: Anchor :- ParseAnchor(peer.body);
      Good(ev.subjectRaw.Some? && |ev.subjectRaw.value| == 16 && a.txn == ev.subjectRaw.value)
    else if peer.subtype == ST_INGRESS then
      var i: Ingress :- ParseIngress(peer.body);
      Good(ev.subjectRaw.Some? && |ev.subjectRaw.value| == 8 && i.orderedSeq == ev.subjectRaw.value)
    else
      var d: Delivery :- ParseDelivery(peer.body);
      Good(ev.subjectRaw.Some? && d.raw == NestedDelivery(ev, ev.subjectRaw.value))
  }

  function PairRawOk(ev: PeerEval, peer: Envelope): Res<bool>
    requires peer.subtype == ST_AII || peer.subtype == ST_ATTEMPT
  {
    var subject := if ev.subjectRaw.Some? then ev.subjectRaw.value else [];
    if peer.subtype == ST_AII then
      Good(|subject| >= 16 && Clip(peer.body, 0, 16) == subject[|subject| - 16..])
    else
      var a: Attempt :- ParseAttempt(peer.body);
      Good(|subject| >= 32 && a.ownerRaw == subject[..16] && a.attemptId == subject[16..32])
  }

  predicate OwnerDeclared(ev: PeerEval) {
    ev.rawBijection && ev.ownerKind.Some? && ev.subjectRaw.Some?
  }

  function PeerRawOk(mode: int, ev: PeerEval, val: Octets): Res<bool> {
    match Extract(val)
    case Invalid => Good(false)
    case Broken => Broken
    case Good(peer) =>
      if ev.dualRaw.Some? && ev.dualRaw2.Some? then DualRawOk(ev, peer)
      else if mode == 17 && IsPrimary(peer.subtype) then PrimaryRawOk(ev, peer)
      else if OwnerDeclared(ev) && peer.subtype == ST_SCHED then
        var s: Sched :- ParseSched(peer.body);
        Good(s.ownerKind == ev.ownerKind.value && s.subject == ev.subjectRaw.value)
      else if OwnerDeclared(ev) && (peer.subtype == ST_RES || peer.subtype == ST_RB) then
        var r: Owned :- ParseOwned(peer.body);
        Good(r.kind == ev.ownerKind.value && r.raw == ev.subjectRaw.value)
      else if OwnerDeclared(ev) && peer.subtype == ST_SERVICE && ev.dualRaw.Some? then
        var sk: Octets :- FirstRaw16(peer.body);
        Good(sk == ev.dualRaw.value)
      else if ev.mode18Pair && (peer.subtype == ST_AII || peer.subtype == ST_ATTEMPT) then PairRawOk(ev, peer)
      else if ev.rawBijection && (mode == 7 || mode == 13 || mode == 16) && peer.subtype == ST_SCHED then
        var s: Sched :- ParseSched(peer.body);
        Good((ev.ownerKind.Some? ==> s.ownerKind == ev.ownerKind.value)
          && (ev.subjectRaw.Some? ==> s.subject == ev.subjectRaw.value)
          && !(mode == 16 && ev.subjectRaw.None?))
      else Good(!(mode == 17 && ev.rawBijection))
  }

  /** A parse error while comparing is caught by nobody. */
  function Compared(mode: int, ev: PeerEval, peer: Octets): PeerCheck {
    if ev.rawBijection || ev.dualRaw.Some? || ev.mode18Pair then
      match PeerRawOk(mode, ev, peer)
      case Good(ok) => if ok then Met else Unmet
      case _ => CheckCrash
    else Met
  }

  function CheckPeer(h: Hash, mode: int, ev: PeerEval, source: Octets, peer: Octets): PeerCheck {
    var pinned := ev.checkPvd && !ev.skipPvd;
    if mode == 17 then
      if pinned && HeaderPvd(source) != Sha(h, peer) then Unmet
      else if FramingOf(peer) == FutureVersion then Met
      else if FramingOf(peer) != Current then Unmet
      else Compared(mode, ev, peer)
    else if pinned && HeaderPvd(peer) != [] && HeaderPvd(peer) != Sha(h, source) then Unmet
    else Compared(mode, ev, peer)
  }

  // ----- the structural gate on a single row

  datatype Structure = Fine | TooNew | Malformed | Raises

  function IngressStructure(h: Hash, k: DomainKey, body: Octets): Structure {
    match ParseIngress(body)
    case Invalid => Malformed
    case Broken => Raises
    case Good(i) =>
      var kind := Num(body, 20, 4);
      var appLike := kind == 1 || kind == 5;
      var txLike := kind == 2 || kind == 3 || kind == 4 || kind == 6;
      if k.kind != 3 || |k.ident| != 8 || i.orderedSeq != k.ident then Malformed
      else if FromBe(i.orderedSeq) == 0 || i.ownerSeq == 0 then Malformed
      else if appLike && i.binding != BIND_EXISTING_DLV && i.binding != BIND_NEW_DELIVERY then Malformed
      else if txLike && i.binding != BIND_EXISTING_TX then Malformed
      else if !appLike && !txLike then Malformed
      else if body[|body| - 32..] != KeyDigest(h, KComposite(h, ST_RES, Be16(3) + Raw16(i.orderedSeq).value)) then Malformed
      else Fine
  }

  function CleanupStructure(body: Octets, pvd: Octets): Structure {
    match ParseOwned(body)
    case Invalid => Malformed
    case Broken => Raises
    case Good(cp) =>
      if cp.rawEnd + 64 > |body| then Malformed
      else
        var digest := body[cp.rawEnd + 32..cp.rawEnd + 64];
        if digest == Zeros(32) || digest != pvd then Malformed else Fine
  }

  /** A slice assignment: the bytes from lo to hi, as far as they exist, become b. */
  function Splice(body: Octets, lo: nat, hi: nat, b: Octets): Octets
    requires lo <= hi
  {
    Clip(body, 0, lo) + b + Clip(body, hi, if |body| >= hi then |body| else hi)
  }

  function AnchorStructure(h: Hash, k: DomainKey, body: Octets): Structure {
    match ParseAnchor(body)
    case Invalid => Malformed
    case Broken => Raises
    case Good(a) =>
      if Raw16(a.scope).Invalid? || Raw16(a.ikey).Invalid? then Malformed
      else
        var digest := KeyDigest(h, KComposite(h, ST_IDEM, Raw16(a.scope).value + Raw16(a.ikey).value));
        if Splice(body, a.ikeyEnd + 32, a.ikeyEnd + 64, digest) != body then Malformed
        else if a.scope == [] || a.ikey == [] || a.txn == Zeros(16) then Malformed
        else if k.kind != 2 || |k.ident| != 16 || k.ident != a.txn then Malformed
        else Fine
  }

  function ReservationStructure(body: Octets): Structure {
    match ParseOwned(body)
    case Invalid => Malformed
    case Broken => Raises
    case Good(r) =>
      if r.kind != 5 then Fine
      else if |r.raw| < 90 || FromBe(Clip(r.raw, 0, 2)) != 80 then Malformed
      else if FromBe(Clip(r.raw, 82, 90)) == 0 then Malformed
      else Fine
  }

  function SchedStructure(h: Hash, body: Octets): Structure {
    match ParseSched(body)
    case Invalid => Malformed
    case Broken => Raises
    case Good(s) =>
      if s.ownerSeq == 0 || !(1 <= s.ownerKind <= 3) then Malformed
      else
        match SchedPrimary(h, s.ownerKind, s.subject)
        case Good(primary) =>
          if Clip(body, s.subjectEnd, s.subjectEnd + 32) != KeyDigest(h, primary) then Malformed else Fine
        case _ => Raises
  }

  function RowStructure(h: Hash, key: Octets, val: Octets): Structure {
    match ParseDomainKey(key)
    case None => Malformed
    case Some(k) =>
      if k.family != 6 then Fine
      else if FramingOf(val) == FutureVersion then TooNew
      else if FramingOf(val) != Current then Malformed
      else
        match Extract(val)
        case Invalid => Malformed
        case Broken => Raises
        case Good(e) =>
          if e.subtype != k.subtype then Malformed
          else if IsPrimary(k.subtype) != (e.pvd == Zeros(32)) then Malformed
          else if k.ident == [] then Malformed
          else if k.subtype == ST_INGRESS then IngressStructure(h, k, e.body)
          else if k.subtype == ST_CP then CleanupStructure(e.body, e.pvd)
          else if k.subtype == ST_ANCHOR then AnchorStructure(h, k, e.body)
          else if k.subtype == ST_RES then ReservationStructure(e.body)
          else if k.subtype == ST_SCHED then SchedStructure(h, e.body)
          else Fine
  }

  // ----- the two generators

  function ClassifyRow(h: Hash, key: Octets, val: Octets): RowClass {
    match RowStructure(h, key, val)
    case Fine => RowTyped
    case TooNew => RowFuture
    case Raises => RowCrash
    case Malformed =>
      var k := ParseDomainKey(key);
      if k.Some? && k.value.family == 6 then RowCorrupt
      else if FramingOf(val) == FutureVersion then RowFuture
      else if FramingOf(val) == CorruptFrame && k.Some? then RowCorrupt
      else RowUntyped
  }

  function ClassifyRoot(key: Octets, val: Octets): RootClass {
    if |key| >= 8 && key[..7] == ROOT_V1[..7] && key[7] >= 2 then
      if |val| >= 16 && val[..4] == NLR1 && CrcValid(val) then FutureRoot else BadFutureRoot
    else CurrentRoot
  }

  predicate ProfileCorrupt(val: Octets) {
    |val| < 16 || val[..4] != NLR1 || (FromBe(val[6..8]) == 1 && !CrcValid(val))
  }

  predicate ProfileUnknown(val: Octets) {
    |val| >= 16 && val[..4] == NLR1 && FromBe(val[6..8]) != 1
  }

  predicate SomeCorrupt(retained: map<nat, Octets>) {
    exists id | id in AllIds() :: id !in retained || ProfileCorrupt(retained[id])
  }

  predicate SomeUnknown(retained: map<nat, Octets>) {
    exists id | id in AllIds() :: id in retained && ProfileUnknown(retained[id])
  }

  function JudgeProfile(binding: Octets, retained: map<nat, Octets>): Gate {
    if SomeCorrupt(retained) then Refused(StorageCorrupt)
    else if SomeUnknown(retained) then Future
    else if 1 in retained && |retained[1]| >= 183 && retained[1] != binding then Mismatch
    else Exact
  }

  /** The generator that checks peers. */
  function CrossRowEnv(h: Hash, binding: Octets, faults: seq<Fault>, alternatives: map<string, seq<Row>>): Env {
    Env(faults, alternatives, true,
      retained => JudgeProfile(binding, retained),
      (key, val) => ClassifyRoot(key, val),
      (key, val) => ClassifyRow(h, key, val),
      (mode, key, val) => PlanOf(RebuildPeer(h, mode, key, val)),
      (mode, ev, source, peer) => CheckPeer(h, mode, ev, source, peer))
  }

  /** The generator that does not look into rows outside the profile. */
  function CompositionEnv(binding: Octets, faults: seq<Fault>, alternatives: map<string, seq<Row>>): Env {
    Env(faults, alternatives, false,
      retained => JudgeProfile(binding, retained),
      (key, val) => ClassifyRoot(key, val),
      (key, val) => RowUntyped,
      (mode, key, val) => NotApplicable,
      (mode, ev, source, peer) => Met)
  }
}
