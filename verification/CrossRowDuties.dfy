/**
 What each of the twenty modes asks of a snapshot, in terms of stored records: which row must be there
 or must not, under which key, pinned by which digest and with which fields.
 */
module CrossRowDuties {
  import opened Octets
  import opened Catalog
  import opened Records
  import opened SessionMachine
  import opened Adoption
  import opened CrossRow
  import opened CrossRowLaws

  // ----- keys

  /** A string behind its length in two bytes. */
  function Field(text: Octets): Octets {
    ToBe(|text|, 2) + text
  }

  function Digested(h: Hash, subtype: Byte, material: Octets): Octets {
    BKey(6, subtype, 5, Sha(h, Ascii("NINLIL-DOMAIN-KEY-V1") + [subtype] + material))
  }

  function ById(subtype: Byte, ident: Octets): Octets
    requires |ident| == 16
  {
    BKey(6, subtype, 2, ident)
  }

  function BySequence(subtype: Byte, sequence: Octets): Octets
    requires |sequence| == 8
  {
    BKey(6, subtype, 3, sequence)
  }

  // ----- rows found under a key

  function BodyOf(val: Octets): Octets {
    if Extract(val).Good? then Extract(val).value.body else []
  }

  function BodyAt(rows: seq<Row>, key: Octets): Octets {
    if Lookup(rows, key).Some? then BodyOf(Lookup(rows, key).value) else []
  }

  /** The row is there and carries the digest of the source. */
  predicate Linked(h: Hash, rows: seq<Row>, key: Octets, source: Octets) {
    Lookup(rows, key).Some? && HeaderPvd(Lookup(rows, key).value) == Sha(h, source)
  }

  predicate Absent(rows: seq<Row>, key: Octets) {
    Lookup(rows, key).None?
  }

  /** The scheduler row under the key is for an owner of the kind and subject. */
  predicate ScheduledFor(rows: seq<Row>, key: Octets, kind: nat, subject: Octets) {
    && Lookup(rows, key).Some?
    && var s := ParseSched(BodyAt(rows, key));
       s.Good? && s.value.ownerKind == kind && s.value.subject == subject
  }

  /** The reservation or retention row under the key is for an owner of the kind and identity. */
  predicate OwnedBy(rows: seq<Row>, key: Octets, kind: nat, raw: Octets) {
    && Lookup(rows, key).Some?
    && var o := ParseOwned(BodyAt(rows, key));
       o.Good? && o.value.kind == kind && o.value.raw == raw
  }

  // ----- duties of primaries

  predicate ServiceDuty(h: Hash, mode: int, rows: seq<Row>, source: Octets, body: Octets) {
    && FirstRaw16(body).Good? && |FirstRaw16(body).value| <= 255
    && var service := Field(FirstRaw16(body).value);
       if mode == 1 then Linked(h, rows, Digested(h, 0x11, service), source)
       else Linked(h, rows, Digested(h, 0x23, [0, 1] + service), source)
  }

  predicate AnchorDuty(h: Hash, mode: int, rows: seq<Row>, source: Octets, body: Octets) {
    && ParseAnchor(body).Good?
    && var a := ParseAnchor(body).value;
       |a.txn| == 16
       && match mode
          case 3 => Linked(h, rows, BySequence(0x21, ToBe(a.txnSeq, 8)), source)
          case 4 => Linked(h, rows, ById(0x22, a.txn), source)
          case 5 =>
            && |a.scope| <= 255 && |a.ikey| <= 255
            && var key := Digested(h, 0x24, Field(a.scope) + Field(a.ikey));
               && Linked(h, rows, key, source)
               && var i := ParseIdem(BodyAt(rows, key));
                  i.Good? && i.value.scope == a.scope && i.value.ikey == a.ikey
          case 6 => Linked(h, rows, Digested(h, 0x23, [0, 2] + Field(a.txn)), source)
          case 7 =>
            var key := BySequence(0x26, ToBe(a.schedSeq, 8));
            Linked(h, rows, key, source) && ScheduledFor(rows, key, 1, a.txn)
          case 8 =>
            && |a.scope| <= 255
            && var key := Digested(h, 0x25, Field(a.scope) + a.eventId);
               if a.family == 1 then Linked(h, rows, key, source) else Absent(rows, key)
          case 9 =>
            if a.family == 1 then Linked(h, rows, ById(0x50, a.txn), source) else Absent(rows, ById(0x50, a.txn))
          case _ =>
            var key := Digested(h, 0x33, [0, 1] + Field(a.txn));
            if a.family == 2 then Linked(h, rows, key, source) else Absent(rows, key)
  }

  predicate DeliveryDuty(h: Hash, mode: int, rows: seq<Row>, source: Octets, body: Octets) {
    && ParseDelivery(body).Good?
    && var d := ParseDelivery(body).value;
       match mode
       case 11 => |d.raw| <= 255 && Linked(h, rows, Digested(h, 0x41, Field(d.raw)), source)
       case 12 => |d.raw| <= 255 && Linked(h, rows, Digested(h, 0x23, [0, 4] + Field(d.raw)), source)
       case 13 =>
         var key := BySequence(0x26, ToBe(d.schedSeq, 8));
         Linked(h, rows, key, source) && ScheduledFor(rows, key, 2, d.raw)
       case _ =>
         && |d.raw| <= 255
         && var key := Digested(h, 0x33, [0, 2] + Field(d.raw));
            if d.family == 2 then Linked(h, rows, key, source) else Absent(rows, key)
  }

  predicate IngressDuty(h: Hash, mode: int, rows: seq<Row>, source: Octets, body: Octets) {
    && ParseIngress(body).Good?
    && var g := ParseIngress(body).value;
       if mode == 15 then Linked(h, rows, Digested(h, 0x23, [0, 3] + Field(g.orderedSeq)), source)
       else
         var key := BySequence(0x26, ToBe(g.ownerSeq, 8));
         match g.binding
         case 1 => ScheduledFor(rows, key, 1, g.txn)
         case 2 => ScheduledFor(rows, key, 2, g.srcRuntime + g.srcApp + g.txn + g.tgtRuntime + g.tgtApp)
         case 3 => Linked(h, rows, key, source) && ScheduledFor(rows, key, 3, g.orderedSeq)
         case _ => false
  }

  // ----- duties of attempts, results and transactions

  predicate AttemptDuty(rows: seq<Row>, body: Octets) {
    && ParseAttempt(body).Good?
    && var a := ParseAttempt(body).value;
       var key := ById(0x34, a.attemptId);
       match a.ownerKind
       case 1 => Lookup(rows, key).Some? && Clip(BodyAt(rows, key), 0, 16) == a.attemptId
       case 2 => Absent(rows, key)
       case _ => true
  }

  predicate IndexDuty(h: Hash, rows: seq<Row>, body: Octets) {
    && |body| >= 32
    && var key := Digested(h, 0x31, [0, 1] + Field(body[16..32]) + body[0..16]);
       && Lookup(rows, key).Some?
       && var a := ParseAttempt(BodyAt(rows, key));
          a.Good? && a.value.ownerRaw == body[16..32] && a.value.attemptId == body[0..16]
  }

  predicate CallbackDuty(h: Hash, rows: seq<Row>, body: Octets) {
    && ParseRc(body).Good?
    && var rc := ParseRc(body).value;
       && |rc.deliveryRaw| <= 245
       && var owner := Field(rc.deliveryRaw) + ToBe(rc.tokenGen, 8);
          var key := Digested(h, 0x23, [0, 5] + Field(owner));
          if rc.state == 2 && rc.tokenState == 2 then OwnedBy(rows, key, 5, owner) else Absent(rows, key)
  }

  predicate TransactionDuty(h: Hash, rows: seq<Row>, body: Octets) {
    var txn := Clip(body, 0, 16);
    var key := Digested(h, 0x61, [0, 2] + Field(txn));
    if FromBe(Clip(body, 48, 52)) == 5 then OwnedBy(rows, key, 2, txn) else Absent(rows, key)
  }

  predicate ResultDuty(h: Hash, rows: seq<Row>, body: Octets) {
    && ParseRc(body).Good?
    && var rc := ParseRc(body).value;
       && |rc.deliveryRaw| <= 255
       && var key := Digested(h, 0x61, [0, 3] + Field(rc.deliveryRaw));
          if rc.state in {4, 5, 8} then OwnedBy(rows, key, 3, rc.deliveryRaw) else Absent(rows, key)
  }

  // ----- what a met plan means

  predicate EvalMet(h: Hash, mode: int, rows: seq<Row>, source: Octets, ev: PeerEval) {
    match Lookup(rows, ev.peerKey)
    case None => !ev.expectPresent
    case Some(peer) => ev.expectPresent && CheckPeer(h, mode, ev, source, peer) == Met
  }

  predicate ReadableRow(row: Row) {
    ParseDomainKey(row.key).Some? && ParseDomainKey(row.key).value.family == 6 ==>
      && FramingOf(row.val) == Current && Extract(row.val).Good?
      && Extract(row.val).value.subtype == ParseDomainKey(row.key).value.subtype
  }

  /** Every family 6 row is a current record of its key's subtype. */
  predicate Readable(rows: seq<Row>) {
    forall i :: 0 <= i < |rows| ==> ReadableRow(rows[i])
  }

  /** What is found under a family 6 key. */
  lemma PeerIsRecord(rows: seq<Row>, subtype: Byte, kind: Byte, ident: Octets)
    requires Readable(rows) && |ident| <= 255
    ensures var key := BKey(6, subtype, kind, ident);
      Lookup(rows, key).Some? ==>
        var val := Lookup(rows, key).value;
        && FramingOf(val) == Current && Extract(val).Good? && Extract(val).value.subtype == subtype
        && |HeaderPvd(val)| == 32 && BodyAt(rows, key) == Extract(val).value.body
  {
    var key := BKey(6, subtype, kind, ident);
    KeyRoundTrip(DomainKey(6, subtype, kind, ident));
    hide ParseDomainKey, BKey;
    if Lookup(rows, key).Some? {
      var i := LookedUpRow(rows, key);
      assert ReadableRow(rows[i]);
    }
  }

  /** A peer without further material must be there with the digest. */
  lemma LinkedIff(h: Hash, mode: int, rows: seq<Row>, source: Octets, subtype: Byte, kind: Byte, ident: Octets)
    requires Readable(rows) && |ident| <= 255 && mode != 17
    ensures var key := BKey(6, subtype, kind, ident);
      EvalMet(h, mode, rows, source, Expecting(key)) <==> Linked(h, rows, key, source)
  {
    hide Readable, Extract, FramingOf, BKey, Lookup, HeaderPvd, Sha, PeerRawOk;
    PeerIsRecord(rows, subtype, kind, ident);
  }

  lemma AbsentIff(h: Hash, mode: int, rows: seq<Row>, source: Octets, ev: PeerEval)
    requires !ev.expectPresent
    ensures EvalMet(h, mode, rows, source, ev) <==> Absent(rows, ev.peerKey)
  {
    hide Lookup, CheckPeer;
  }

  predicate DigestDue(h: Hash, ev: PeerEval, source: Octets, peer: Octets) {
    ev.checkPvd && !ev.skipPvd ==> HeaderPvd(peer) == Sha(h, source)
  }

  /** A scheduler peer is compared by kind and subject. */
  lemma ScheduledCheck(h: Hash, mode: int, ev: PeerEval, source: Octets, peer: Octets, kind: nat, subject: Octets)
    requires mode != 17 && ev.dualRaw.None? && ev.rawBijection
    requires ev.ownerKind == Some(kind) && ev.subjectRaw == Some(subject)
    requires Extract(peer).Good? && Extract(peer).value.subtype == 0x26 && |HeaderPvd(peer)| == 32
    ensures CheckPeer(h, mode, ev, source, peer) == Met <==>
      && DigestDue(h, ev, source, peer)
      && var s := ParseSched(Extract(peer).value.body);
         s.Good? && s.value.ownerKind == kind && s.value.subject == subject
  {
    hide Extract, FramingOf, HeaderPvd, Sha, ParseSched;
  }

  lemma ScheduledIff(h: Hash, mode: int, rows: seq<Row>, source: Octets, sequence: Octets, ev: PeerEval, kind: nat,
                     subject: Octets)
    requires Readable(rows) && |sequence| == 8 && mode != 17
    requires var key := BySequence(0x26, sequence);
      ev == WithOwner(Expecting(key), kind, subject) || ev == WithOwner(Unpinned(Expecting(key)), kind, subject)
    ensures var key := BySequence(0x26, sequence);
      EvalMet(h, mode, rows, source, ev) <==>
        ScheduledFor(rows, key, kind, subject) && (ev.skipPvd || Linked(h, rows, key, source))
  {
    hide Readable, Extract, FramingOf, BKey, Lookup, HeaderPvd, Sha, CheckPeer, ParseSched;
    PeerIsRecord(rows, 0x26, 3, sequence);
    var key := BySequence(0x26, sequence);
    if Lookup(rows, key).Some? {
      ScheduledCheck(h, mode, ev, source, Lookup(rows, key).value, kind, subject);
    }
  }

  lemma OwnedCheck(h: Hash, mode: int, ev: PeerEval, source: Octets, peer: Octets, kind: nat, raw: Octets)
    requires mode != 17 && ev.dualRaw.None? && ev.rawBijection && ev.skipPvd && !ev.mode18Pair
    requires ev.ownerKind == Some(kind) && ev.subjectRaw == Some(raw)
    requires Extract(peer).Good? && Extract(peer).value.subtype in {0x23, 0x61}
    ensures CheckPeer(h, mode, ev, source, peer) == Met <==>
      var o := ParseOwned(Extract(peer).value.body); o.Good? && o.value.kind == kind && o.value.raw == raw
  {
    hide Extract, FramingOf, HeaderPvd, Sha, ParseOwned;
  }

  /** A reservation or retention peer is compared by kind and identity. */
  lemma OwnedIff(h: Hash, mode: int, rows: seq<Row>, source: Octets, subtype: Byte, ident: Octets, kind: nat, raw: Octets)
    requires Readable(rows) && |ident| <= 255 && mode != 17 && subtype in {0x23, 0x61}
    ensures var key := BKey(6, subtype, 5, ident);
      EvalMet(h, mode, rows, source, WithOwner(Unpinned(Expecting(key)), kind, raw)) <==> OwnedBy(rows, key, kind, raw)
  {
    hide Readable, Extract, FramingOf, BKey, Lookup, HeaderPvd, Sha, CheckPeer, ParseOwned;
    PeerIsRecord(rows, subtype, 5, ident);
    var key := BKey(6, subtype, 5, ident);
    if Lookup(rows, key).Some? {
      OwnedCheck(h, mode, WithOwner(Unpinned(Expecting(key)), kind, raw), source, Lookup(rows, key).value, kind, raw);
    }
  }

  lemma IdemCheck(h: Hash, ev: PeerEval, source: Octets, peer: Octets, scope: Octets, ikey: Octets)
    requires ev.checkPvd && !ev.skipPvd && ev.dualRaw == Some(scope) && ev.dualRaw2 == Some(ikey)
    requires Extract(peer).Good? && Extract(peer).value.subtype == 0x24 && |HeaderPvd(peer)| == 32
    ensures CheckPeer(h, 5, ev, source, peer) == Met <==>
      && HeaderPvd(peer) == Sha(h, source)
      && var i := ParseIdem(Extract(peer).value.body); i.Good? && i.value.scope == scope && i.value.ikey == ikey
  {
    hide Extract, FramingOf, HeaderPvd, Sha, ParseIdem;
  }

  lemma IdemIff(h: Hash, rows: seq<Row>, source: Octets, ident: Octets, ev: PeerEval, scope: Octets, ikey: Octets)
    requires Readable(rows) && |ident| <= 255
    requires ev == Expecting(BKey(6, 0x24, 5, ident)).(dualRaw := Some(scope), dualRaw2 := Some(ikey), rawBijection := true)
    ensures var key := BKey(6, 0x24, 5, ident);
      EvalMet(h, 5, rows, source, ev) <==>
        && Linked(h, rows, key, source)
        && var i := ParseIdem(BodyAt(rows, key)); i.Good? && i.value.scope == scope && i.value.ikey == ikey
  {
    hide Readable, Extract, FramingOf, BKey, Lookup, HeaderPvd, Sha, CheckPeer, ParseIdem;
    PeerIsRecord(rows, 0x24, 5, ident);
    var key := BKey(6, 0x24, 5, ident);
    if Lookup(rows, key).Some? {
      IdemCheck(h, ev, source, Lookup(rows, key).value, scope, ikey);
    }
  }

  lemma PairCheck(h: Hash, ev: PeerEval, source: Octets, peer: Octets, subject: Octets)
    requires ev.mode18Pair && ev.dualRaw.None? && ev.skipPvd && ev.subjectRaw == Some(subject) && Extract(peer).Good?
    ensures Extract(peer).value.subtype == 0x34 ==>
      (CheckPeer(h, 18, ev, source, peer) == Met <==>
         |subject| >= 16 && Clip(Extract(peer).value.body, 0, 16) == subject[|subject| - 16..])
    ensures Extract(peer).value.subtype == 0x31 ==>
      (CheckPeer(h, 18, ev, source, peer) == Met <==>
         var a := ParseAttempt(Extract(peer).value.body);
         a.Good? && |subject| >= 32 && a.value.ownerRaw == subject[..16] && a.value.attemptId == subject[16..32])
  {
    hide Extract, FramingOf, HeaderPvd, Sha, ParseAttempt, Clip;
  }

  // ----- keys as the plans write them

  lemma FieldIsRaw16(text: Octets)
    ensures Raw16(text) == if |text| <= 255 then Good(Field(text)) else Invalid
  {
  }

  lemma DigestedIs(h: Hash, subtype: Byte, material: Octets)
    ensures KComposite(h, subtype, material) == Digested(h, subtype, material)
    ensures |Composite(h, subtype, material)| == 32 && KComposite(h, subtype, material) == BKey(6, subtype, 5, Composite(h, subtype, material))
  {
    hide Ascii;
  }

  lemma OverIs(h: Hash, subtype: Byte, prefix: Octets, raw: Octets)
    ensures KOver(h, subtype, prefix, raw) ==
      if |raw| <= 255 then Good(Digested(h, subtype, prefix + Field(raw))) else Invalid
  {
    FieldIsRaw16(raw);
    hide Raw16, Digested, KComposite, Field;
    if |raw| <= 255 {
      DigestedIs(h, subtype, prefix + Field(raw));
    }
  }

  lemma TwoBytes(n: nat)
    requires n < 256
    ensures Be16(n) == [0, n]
  {
    assert n / 256 == 0 && n % 256 == n;
    assert ToBe(0, 1) == [] + [0];
    assert ToBe(n, 2) == ToBe(0, 1) + [n];
  }

  lemma LinkedDigested(h: Hash, mode: int, rows: seq<Row>, source: Octets, subtype: Byte, material: Octets)
    requires Readable(rows) && mode != 17
    ensures var key := Digested(h, subtype, material);
      EvalMet(h, mode, rows, source, Expecting(key)) <==> Linked(h, rows, key, source)
  {
    hide Readable, EvalMet, Linked, Composite, BKey, Digested, KComposite;
    DigestedIs(h, subtype, material);
    LinkedIff(h, mode, rows, source, subtype, 5, Composite(h, subtype, material));
  }

  // ----- every plan is met exactly when the duty is done

  /** The plan is none, or its peer is as it must be. */
  predicate PlanMet(h: Hash, mode: int, rows: seq<Row>, source: Octets, r: Res<Option<PeerEval>>) {
    match r
    case Good(None) => true
    case Good(Some(ev)) => EvalMet(h, mode, rows, source, ev)
    case _ => false
  }

  lemma ServiceIff(h: Hash, mode: int, rows: seq<Row>, source: Octets, body: Octets)
    requires Readable(rows) && mode in {1, 2}
    ensures PlanMet(h, mode, rows, source, ServicePlan(h, mode, body)) <==> ServiceDuty(h, mode, rows, source, body)
  {
    hide Readable, EvalMet, Linked, Digested, KOver, FirstRaw16, Field;
    TwoBytes(1);
    hide Be16;
    var sk := FirstRaw16(body);
    if sk.Good? {
      OverIs(h, 0x11, [], sk.value);
      OverIs(h, 0x23, [0, 1], sk.value);
      assert [] + Field(sk.value) == Field(sk.value);
      LinkedDigested(h, mode, rows, source, 0x11, Field(sk.value));
      LinkedDigested(h, mode, rows, source, 0x23, [0, 1] + Field(sk.value));
    }
  }

  lemma AnchorParts(body: Octets)
    requires ParseAnchor(body).Good?
    ensures |ParseAnchor(body).value.txn| == 16
  {
  }

  lemma AnchorSequenceIff(h: Hash, mode: int, rows: seq<Row>, source: Octets, a: Anchor)
    requires Readable(rows) && mode in {3, 4, 7, 9} && |a.txn| == 16
    ensures PlanMet(h, mode, rows, source, Always(AnchorPlan(h, mode, a))) <==>
      match mode
      case 3 => Linked(h, rows, BySequence(0x21, ToBe(a.txnSeq, 8)), source)
      case 4 => Linked(h, rows, ById(0x22, a.txn), source)
      case 7 =>
        var key := BySequence(0x26, ToBe(a.schedSeq, 8));
        Linked(h, rows, key, source) && ScheduledFor(rows, key, 1, a.txn)
      case _ =>
        if a.family == 1 then Linked(h, rows, ById(0x50, a.txn), source) else Absent(rows, ById(0x50, a.txn))
  {
    hide Readable, EvalMet, Linked, BKey, ScheduledFor, Absent;
    match mode {
      case 3 => LinkedIff(h, mode, rows, source, 0x21, 3, Be64(a.txnSeq));
      case 4 => LinkedIff(h, mode, rows, source, 0x22, 2, a.txn);
      case 7 =>
        ScheduledIff(h, mode, rows, source, Be64(a.schedSeq),
          WithOwner(Expecting(BySequence(0x26, Be64(a.schedSeq))), 1, a.txn), 1, a.txn);
      case _ =>
        LinkedIff(h, mode, rows, source, 0x50, 2, a.txn);
        AbsentIff(h, mode, rows, source, ExpectingNone(ById(0x50, a.txn)));
    }
  }

  lemma AnchorDigestIff(h: Hash, mode: int, rows: seq<Row>, source: Octets, a: Anchor)
    requires Readable(rows) && mode in {6, 8, 10} && |a.txn| == 16
    ensures PlanMet(h, mode, rows, source, Always(AnchorPlan(h, mode, a))) <==>
      match mode
      case 6 => Linked(h, rows, Digested(h, 0x23, [0, 2] + Field(a.txn)), source)
      case 8 =>
        && |a.scope| <= 255
        && var key := Digested(h, 0x25, Field(a.scope) + a.eventId);
           if a.family == 1 then Linked(h, rows, key, source) else Absent(rows, key)
      case _ =>
        var key := Digested(h, 0x33, [0, 1] + Field(a.txn));
        if a.family == 2 then Linked(h, rows, key, source) else Absent(rows, key)
  {
    hide Readable, EvalMet, Linked, Digested, KOver, Field, KComposite, Raw16, Absent;
    TwoBytes(1);
    TwoBytes(2);
    hide Be16;
    match mode {
      case 6 =>
        OverIs(h, 0x23, [0, 2], a.txn);
        LinkedDigested(h, mode, rows, source, 0x23, [0, 2] + Field(a.txn));
      case 8 =>
        FieldIsRaw16(a.scope);
        var material := Field(a.scope) + a.eventId;
        DigestedIs(h, 0x25, material);
        LinkedDigested(h, mode, rows, source, 0x25, material);
        AbsentIff(h, mode, rows, source, ExpectingNone(Digested(h, 0x25, material)));
      case _ =>
        var material := [0, 1] + Field(a.txn);
        OverIs(h, 0x33, [0, 1], a.txn);
        LinkedDigested(h, mode, rows, source, 0x33, material);
        AbsentIff(h, mode, rows, source, ExpectingNone(Digested(h, 0x33, material)));
    }
  }

  lemma AnchorIdemIff(h: Hash, rows: seq<Row>, source: Octets, a: Anchor)
    requires Readable(rows)
    ensures PlanMet(h, 5, rows, source, Always(AnchorPlan(h, 5, a))) <==>
      && |a.scope| <= 255 && |a.ikey| <= 255
      && var key := Digested(h, 0x24, Field(a.scope) + Field(a.ikey));
         && Linked(h, rows, key, source)
         && var i := ParseIdem(BodyAt(rows, key));
            i.Good? && i.value.scope == a.scope && i.value.ikey == a.ikey
  {
    hide Readable, EvalMet, Linked, Digested, Field, KComposite, Raw16, ParseIdem, BodyAt, Composite, BKey;
    FieldIsRaw16(a.scope);
    FieldIsRaw16(a.ikey);
    if |a.scope| <= 255 && |a.ikey| <= 255 {
      var material := Field(a.scope) + Field(a.ikey);
      DigestedIs(h, 0x24, material);
      IdemIff(h, rows, source, Composite(h, 0x24, material),
        Expecting(KComposite(h, 0x24, material)).(dualRaw := Some(a.scope), dualRaw2 := Some(a.ikey), rawBijection := true),
        a.scope, a.ikey);
    }
  }

  lemma AnchorIff(h: Hash, mode: int, rows: seq<Row>, source: Octets, body: Octets)
    requires Readable(rows) && 3 <= mode <= 10
    ensures PlanMet(h, mode, rows, source, BodyPlan(h, mode, 0x20, body)) <==> AnchorDuty(h, mode, rows, source, body)
  {
    hide Readable, EvalMet, Linked, Digested, Field, ParseAnchor, ParseIdem, BodyAt, BySequence, ById, ScheduledFor, Absent,
         AnchorPlan;
    if ParseAnchor(body).Good? {
      AnchorParts(body);
      var a := ParseAnchor(body).value;
      if mode in {3, 4, 7, 9} {
        AnchorSequenceIff(h, mode, rows, source, a);
      } else if mode in {6, 8, 10} {
        AnchorDigestIff(h, mode, rows, source, a);
      } else {
        AnchorIdemIff(h, rows, source, a);
      }
    }
  }

  lemma DeliveryPlanIff(h: Hash, mode: int, rows: seq<Row>, source: Octets, d: Delivery)
    requires Readable(rows) && 11 <= mode <= 14
    ensures PlanMet(h, mode, rows, source, Always(DeliveryPlan(h, mode, d))) <==>
      match mode
      case 11 => |d.raw| <= 255 && Linked(h, rows, Digested(h, 0x41, Field(d.raw)), source)
      case 12 => |d.raw| <= 255 && Linked(h, rows, Digested(h, 0x23, [0, 4] + Field(d.raw)), source)
      case 13 =>
        var key := BySequence(0x26, ToBe(d.schedSeq, 8));
        Linked(h, rows, key, source) && ScheduledFor(rows, key, 2, d.raw)
      case _ =>
        && |d.raw| <= 255
        && var key := Digested(h, 0x33, [0, 2] + Field(d.raw));
           if d.family == 2 then Linked(h, rows, key, source) else Absent(rows, key)
  {
    hide Readable, EvalMet, Linked, Digested, KOver, Field, BKey, Absent, ScheduledFor;
    TwoBytes(4);
    TwoBytes(2);
    hide Be16;
    match mode {
      case 11 =>
        OverIs(h, 0x41, [], d.raw);
        assert [] + Field(d.raw) == Field(d.raw);
        LinkedDigested(h, mode, rows, source, 0x41, Field(d.raw));
      case 12 =>
        OverIs(h, 0x23, [0, 4], d.raw);
        LinkedDigested(h, mode, rows, source, 0x23, [0, 4] + Field(d.raw));
      case 13 =>
        ScheduledIff(h, mode, rows, source, Be64(d.schedSeq),
          WithOwner(Expecting(BySequence(0x26, Be64(d.schedSeq))), 2, d.raw), 2, d.raw);
      case _ =>
        var material := [0, 2] + Field(d.raw);
        OverIs(h, 0x33, [0, 2], d.raw);
        LinkedDigested(h, mode, rows, source, 0x33, material);
        AbsentIff(h, mode, rows, source, ExpectingNone(Digested(h, 0x33, material)));
    }
  }

  lemma DeliveryIff(h: Hash, mode: int, rows: seq<Row>, source: Octets, body: Octets)
    requires Readable(rows) && 11 <= mode <= 14
    ensures PlanMet(h, mode, rows, source, BodyPlan(h, mode, 0x40, body)) <==> DeliveryDuty(h, mode, rows, source, body)
  {
    hide Readable, EvalMet, Linked, Digested, Field, ParseDelivery, BySequence, ScheduledFor, Absent, DeliveryPlan;
    if ParseDelivery(body).Good? {
      DeliveryPlanIff(h, mode, rows, source, ParseDelivery(body).value);
    }
  }

  lemma IngressPlanIff(h: Hash, mode: int, rows: seq<Row>, source: Octets, g: Ingress)
    requires Readable(rows) && mode in {15, 16} && |g.orderedSeq| == 8
    ensures PlanMet(h, mode, rows, source, Always(IngressPlan(h, mode, g))) <==>
      if mode == 15 then Linked(h, rows, Digested(h, 0x23, [0, 3] + Field(g.orderedSeq)), source)
      else
        var key := BySequence(0x26, ToBe(g.ownerSeq, 8));
        match g.binding
        case 1 => ScheduledFor(rows, key, 1, g.txn)
        case 2 => ScheduledFor(rows, key, 2, g.srcRuntime + g.srcApp + g.txn + g.tgtRuntime + g.tgtApp)
        case 3 => Linked(h, rows, key, source) && ScheduledFor(rows, key, 3, g.orderedSeq)
        case _ => false
  {
    hide Readable, EvalMet, Linked, Digested, KOver, Field, BKey, ScheduledFor;
    TwoBytes(3);
    hide Be16;
    if mode == 15 {
      OverIs(h, 0x23, [0, 3], g.orderedSeq);
      LinkedDigested(h, mode, rows, source, 0x23, [0, 3] + Field(g.orderedSeq));
    } else {
      var seqNo := Be64(g.ownerSeq);
      var ev := Expecting(BySequence(0x26, seqNo));
      ScheduledIff(h, mode, rows, source, seqNo, WithOwner(ev, 3, g.orderedSeq), 3, g.orderedSeq);
      ScheduledIff(h, mode, rows, source, seqNo, WithOwner(Unpinned(ev), 1, g.txn), 1, g.txn);
      ScheduledIff(h, mode, rows, source, seqNo, WithOwner(Unpinned(ev), 2, DeliveryRawOf(g)), 2, DeliveryRawOf(g));
    }
  }

  lemma IngressIff(h: Hash, mode: int, rows: seq<Row>, source: Octets, body: Octets)
    requires Readable(rows) && mode in {15, 16}
    ensures PlanMet(h, mode, rows, source, BodyPlan(h, mode, 0x27, body)) <==> IngressDuty(h, mode, rows, source, body)
  {
    hide Readable, EvalMet, Linked, Digested, Field, ParseIngress, BySequence, ScheduledFor, IngressPlan;
    if ParseIngress(body).Good? {
      IngressPlanIff(h, mode, rows, source, ParseIngress(body).value);
    }
  }

  // ----- Mode 18

  lemma PairIff(h: Hash, rows: seq<Row>, source: Octets, ev: PeerEval, subtype: Byte, kind: Byte, ident: Octets, subject: Octets)
    requires Readable(rows) && |ident| <= 255 && subtype in {0x31, 0x34}
    requires ev.mode18Pair && ev.dualRaw.None? && ev.skipPvd && ev.subjectRaw == Some(subject) && ev.expectPresent
    requires ev.peerKey == BKey(6, subtype, kind, ident)
    ensures EvalMet(h, 18, rows, source, ev) <==>
      && Lookup(rows, ev.peerKey).Some?
      && var body := BodyAt(rows, ev.peerKey);
         if subtype == 0x34 then |subject| >= 16 && Clip(body, 0, 16) == subject[|subject| - 16..]
         else
           var a := ParseAttempt(body);
           a.Good? && |subject| >= 32 && a.value.ownerRaw == subject[..16] && a.value.attemptId == subject[16..32]
  {
    hide Readable, Extract, FramingOf, BKey, Lookup, HeaderPvd, Sha, CheckPeer, ParseAttempt, Clip;
    PeerIsRecord(rows, subtype, kind, ident);
    if Lookup(rows, ev.peerKey).Some? {
      PairCheck(h, ev, source, Lookup(rows, ev.peerKey).value, subject);
    }
  }

  lemma AttemptIff(h: Hash, rows: seq<Row>, source: Octets, body: Octets)
    requires Readable(rows)
    ensures PlanMet(h, 18, rows, source, AttemptPlan(h, 0x31, body)) <==> AttemptDuty(rows, body)
  {
    hide Readable, EvalMet, BKey, Lookup, ParseAttempt, BodyAt, Clip;
    if ParseAttempt(body).Good? {
      var a := ParseAttempt(body).value;
      var key := ById(0x34, a.attemptId);
      var subject := a.ownerRaw + a.attemptId;
      assert subject[|subject| - 16..] == a.attemptId;
      PairIff(h, rows, source, WithOwner(Unpinned(Expecting(key)).(mode18Pair := true), 1, subject), 0x34, 2, a.attemptId, subject);
      AbsentIff(h, 18, rows, source, Unpinned(ExpectingNone(key)));
    }
  }

  lemma IndexIff(h: Hash, rows: seq<Row>, source: Octets, body: Octets)
    requires Readable(rows)
    ensures PlanMet(h, 18, rows, source, AttemptPlan(h, 0x34, body)) <==> IndexDuty(h, rows, body)
  {
    hide Readable, EvalMet, BKey, Lookup, ParseAttempt, BodyAt, Digested, KComposite, Composite, Field, Raw16;
    TwoBytes(1);
    hide Be16;
    var attempt, txn := Clip(body, 0, 16), Clip(body, 16, 32);
    FieldIsRaw16(txn);
    var material := [0, 1] + Field(txn) + attempt;
    DigestedIs(h, 0x31, material);
    var ev := WithSubject(Unpinned(Expecting(KComposite(h, 0x31, material))).(mode18Pair := true), txn + attempt);
    PairIff(h, rows, source, ev, 0x31, 5, Composite(h, 0x31, material), txn + attempt);
    if |body| >= 32 {
      assert attempt == body[0..16] && txn == body[16..32];
      assert (txn + attempt)[..16] == txn && (txn + attempt)[16..32] == attempt;
    }
  }

  // ----- Modes 19 and 20

  lemma OwnedDigested(h: Hash, mode: int, rows: seq<Row>, source: Octets, subtype: Byte, material: Octets, kind: nat, raw: Octets)
    requires Readable(rows) && mode != 17 && subtype in {0x23, 0x61}
    ensures var key := Digested(h, subtype, material);
      && (EvalMet(h, mode, rows, source, WithOwner(Unpinned(Expecting(key)), kind, raw)) <==> OwnedBy(rows, key, kind, raw))
      && (EvalMet(h, mode, rows, source, Unpinned(ExpectingNone(key))) <==> Absent(rows, key))
  {
    hide Readable, EvalMet, OwnedBy, Absent, Composite, BKey, Digested, KComposite;
    DigestedIs(h, subtype, material);
    OwnedIff(h, mode, rows, source, subtype, Composite(h, subtype, material), kind, raw);
    AbsentIff(h, mode, rows, source, Unpinned(ExpectingNone(Digested(h, subtype, material))));
  }

  lemma CallbackIff(h: Hash, rows: seq<Row>, source: Octets, body: Octets)
    requires Readable(rows)
    ensures PlanMet(h, 19, rows, source, CallbackPlan(h, body)) <==> CallbackDuty(h, rows, body)
  {
    hide Readable, EvalMet, OwnedBy, Absent, Digested, KOver, ParseRc, Raw16;
    TwoBytes(5);
    hide Be16;
    if ParseRc(body).Good? {
      var rc := ParseRc(body).value;
      FieldIsRaw16(rc.deliveryRaw);
      if |rc.deliveryRaw| <= 255 {
        var owner := Field(rc.deliveryRaw) + ToBe(rc.tokenGen, 8);
        OverIs(h, 0x23, [0, 5], owner);
        OwnedDigested(h, 19, rows, source, 0x23, [0, 5] + Field(owner), 5, owner);
      }
    }
  }

  lemma TransactionIff(h: Hash, rows: seq<Row>, source: Octets, body: Octets)
    requires Readable(rows)
    ensures PlanMet(h, 20, rows, source, RetentionPlan(h, 0x22, body)) <==> TransactionDuty(h, rows, body)
  {
    hide Readable, EvalMet, OwnedBy, Absent, Digested, KOver, Field;
    TwoBytes(2);
    hide Be16;
    var txn := Clip(body, 0, 16);
    OverIs(h, 0x61, [0, 2], txn);
    OwnedDigested(h, 20, rows, source, 0x61, [0, 2] + Field(txn), 2, txn);
  }

  lemma ResultIff(h: Hash, rows: seq<Row>, source: Octets, body: Octets)
    requires Readable(rows)
    ensures PlanMet(h, 20, rows, source, RetentionPlan(h, 0x41, body)) <==> ResultDuty(h, rows, body)
  {
    hide Readable, EvalMet, OwnedBy, Absent, Digested, KOver, Field, ParseRc;
    TwoBytes(3);
    hide Be16;
    if ParseRc(body).Good? {
      var rc := ParseRc(body).value;
      OverIs(h, 0x61, [0, 3], rc.deliveryRaw);
      OwnedDigested(h, 20, rows, source, 0x61, [0, 3] + Field(rc.deliveryRaw), 3, rc.deliveryRaw);
    }
  }

  // ----- Mode 17

  /** The primary a secondary record belongs to, by the identity it is filed under. */
  datatype Primary = OfService(raw: Octets) | OfAnchor(txn: Octets) | OfIngress(sequence: Octets) | OfDelivery(raw: Octets)

  predicate HasKey(p: Primary) {
    match p
    case OfService(raw) => |raw| <= 255
    case OfAnchor(txn) => |txn| == 16
    case OfIngress(sequence) => |sequence| == 8
    case OfDelivery(raw) => |raw| <= 255
  }

  function KeyOf(h: Hash, p: Primary): Octets
    requires HasKey(p)
  {
    match p
    case OfService(raw) => Digested(h, 0x10, Field(raw))
    case OfAnchor(txn) => ById(0x20, txn)
    case OfIngress(sequence) => BySequence(0x27, sequence)
    case OfDelivery(raw) => Digested(h, 0x40, Field(raw))
  }

  /** The body is of the primary: it holds the identity. */
  predicate Holds(p: Primary, body: Octets) {
    match p
    case OfService(raw) => FirstRaw16(body).Good? && FirstRaw16(body).value == raw
    case OfAnchor(txn) => ParseAnchor(body).Good? && ParseAnchor(body).value.txn == txn
    case OfIngress(sequence) => ParseIngress(body).Good? && ParseIngress(body).value.orderedSeq == sequence
    case OfDelivery(raw) => ParseDelivery(body).Good? && ParseDelivery(body).value.raw == raw
  }

  function OfOwner(kind: nat, raw: Octets, anchorKind: nat, deliveryKind: nat): Option<Primary> {
    if kind == anchorKind then Some(OfAnchor(raw)) else if kind == deliveryKind then Some(OfDelivery(raw)) else None
  }

  function OfOwned(o: Res<Owned>, anchorKind: nat, deliveryKind: nat): Option<Primary> {
    if o.Good? then OfOwner(o.value.kind, o.value.raw, anchorKind, deliveryKind) else None
  }

  const SECONDARIES: set<Byte> :=
    {0x11, 0x21, 0x22, 0x23, 0x24, 0x25, 0x26, 0x31, 0x32, 0x33, 0x34, 0x41, 0x42, 0x50, 0x51, 0x52, 0x61, 0x63}

  function OfReservation(r: Owned): Option<Primary> {
    match r.kind
    case 1 => Some(OfService(r.raw))
    case 2 => Some(OfAnchor(r.raw))
    case 3 => Some(OfIngress(r.raw))
    case 4 => Some(OfDelivery(r.raw))
    case 5 => Some(OfDelivery(Clip(r.raw, 2, 82)))
    case _ => None
  }

  function OfScheduled(s: Sched): Option<Primary> {
    match s.ownerKind
    case 1 => Some(OfAnchor(s.subject))
    case 2 => Some(OfDelivery(s.subject))
    case 3 => Some(OfIngress(s.subject))
    case _ => None
  }

  /** The primary a secondary's body names, if it can be read. */
  function NamedBy(subtype: Byte, body: Octets): Option<Primary> {
    if subtype == 0x11 then (if FirstRaw16(body).Good? then Some(OfService(FirstRaw16(body).value)) else None)
    else if subtype == 0x23 then (if ParseOwned(body).Good? then OfReservation(ParseOwned(body).value) else None)
    else if subtype == 0x26 then (if ParseSched(body).Good? then OfScheduled(ParseSched(body).value) else None)
    else if subtype == 0x21 then Some(OfAnchor(Clip(body, 8, 24)))
    else if subtype in {0x22, 0x50, 0x51} then Some(OfAnchor(Clip(body, 0, 16)))
    else if subtype == 0x34 then Some(OfAnchor(Clip(body, 16, 32)))
    else if subtype == 0x52 then Some(OfAnchor(Clip(body, 28, 44)))
    else if subtype == 0x24 then (if ParseIdem(body).Good? then Some(OfAnchor(ParseIdem(body).value.txn)) else None)
    else if subtype == 0x25 then (if EvmapTxn(body).Good? then Some(OfAnchor(EvmapTxn(body).value)) else None)
    else if subtype == 0x31 then
      (if ParseAttempt(body).Good?
       then OfOwner(ParseAttempt(body).value.ownerKind, ParseAttempt(body).value.ownerRaw, 1, 2) else None)
    else if subtype in {0x32, 0x33} then OfOwned(ParseOwned(body), 1, 2)
    else if subtype == 0x41 then (if ParseRc(body).Good? then Some(OfDelivery(ParseRc(body).value.deliveryRaw)) else None)
    else if subtype == 0x42 then (if SecondRaw16(body).Good? then Some(OfDelivery(SecondRaw16(body).value)) else None)
    else if subtype == 0x61 then OfOwned(ParseOwned(body), 2, 3)
    else if subtype == 0x63 then
      (if ParseOwned(body).Good? && ParseOwned(body).value.rawEnd + 64 <= |body| then OfOwned(ParseOwned(body), 2, 3) else None)
    else None
  }

  /** The primary is there, holds the identity named, and its digest is the one in the secondary's header. */
  predicate PinnedTo(h: Hash, rows: seq<Row>, source: Octets, p: Primary) {
    && HasKey(p)
    && Lookup(rows, KeyOf(h, p)).Some?
    && HeaderPvd(source) == Sha(h, Lookup(rows, KeyOf(h, p)).value)
    && Holds(p, BodyAt(rows, KeyOf(h, p)))
  }

  /** An idempotency record's anchor also has its scope and key. */
  predicate SameScope(h: Hash, rows: seq<Row>, body: Octets, p: Primary) {
    HasKey(p) && ParseIdem(body).Good? ==>
      var a := ParseAnchor(BodyAt(rows, KeyOf(h, p)));
      a.Good? && a.value.scope == ParseIdem(body).value.scope && a.value.ikey == ParseIdem(body).value.ikey
  }

  predicate SecondaryDuty(h: Hash, rows: seq<Row>, source: Octets, subtype: Byte, body: Octets) {
    subtype in SECONDARIES ==>
      && NamedBy(subtype, body).Some?
      && PinnedTo(h, rows, source, NamedBy(subtype, body).value)
      && (subtype == 0x24 ==> SameScope(h, rows, body, NamedBy(subtype, body).value))
  }

  // ----- the check of a primary

  lemma PrimaryCheck(h: Hash, ev: PeerEval, source: Octets, peer: Octets, p: Primary)
    requires HasKey(p) && ev.checkPvd && !ev.skipPvd && ev.rawBijection && ev.dualRaw2.None?
    requires match p
             case OfService(raw) => (if ev.dualRaw.Some? then ev.dualRaw else ev.subjectRaw) == Some(raw)
             case OfAnchor(txn) => ev.subjectRaw == Some(txn)
             case OfIngress(sequence) => ev.subjectRaw == Some(sequence)
             case OfDelivery(raw) => ev.subjectRaw.Some? && NestedDelivery(ev, ev.subjectRaw.value) == raw
    requires FramingOf(peer) == Current && Extract(peer).Good?
    requires Extract(peer).value.subtype == match p case OfService(_) => 0x10 case OfAnchor(_) => 0x20 case OfIngress(_) => 0x27 case OfDelivery(_) => 0x40
    ensures CheckPeer(h, 17, ev, source, peer) == Met <==>
      HeaderPvd(source) == Sha(h, peer) && Holds(p, Extract(peer).value.body)
  {
    hide Extract, FramingOf, HeaderPvd, Sha, ParseAnchor, FirstRaw16, ParseIngress, ParseDelivery, NestedDelivery;
  }

  lemma IdemAnchorCheck(h: Hash, ev: PeerEval, source: Octets, peer: Octets, i: Idem)
    requires |i.txn| == 16 && ev.checkPvd && !ev.skipPvd && ev.rawBijection
    requires ev.dualRaw == Some(i.scope) && ev.dualRaw2 == Some(i.ikey) && ev.subjectRaw == Some(i.txn)
    requires FramingOf(peer) == Current && Extract(peer).Good? && Extract(peer).value.subtype == 0x20
    ensures CheckPeer(h, 17, ev, source, peer) == Met <==>
      && HeaderPvd(source) == Sha(h, peer)
      && var a := ParseAnchor(Extract(peer).value.body);
         a.Good? && a.value.txn == i.txn && a.value.scope == i.scope && a.value.ikey == i.ikey
  {
    hide Extract, FramingOf, HeaderPvd, Sha, ParseAnchor;
  }

  lemma KeyParts(h: Hash, p: Primary) returns (kind: Byte, ident: Octets)
    requires HasKey(p)
    ensures |ident| <= 255
    ensures KeyOf(h, p) ==
      BKey(6, match p case OfService(_) => 0x10 case OfAnchor(_) => 0x20 case OfIngress(_) => 0x27 case OfDelivery(_) => 0x40,
           kind, ident)
  {
    hide BKey, Digested, KComposite, Composite, Field;
    match p {
      case OfService(raw) =>
        DigestedIs(h, 0x10, Field(raw));
        kind, ident := 5, Composite(h, 0x10, Field(raw));
      case OfAnchor(txn) => kind, ident := 2, txn;
      case OfIngress(sequence) => kind, ident := 3, sequence;
      case OfDelivery(raw) =>
        DigestedIs(h, 0x40, Field(raw));
        kind, ident := 5, Composite(h, 0x40, Field(raw));
    }
  }

  /** The evaluation a primary is checked by. */
  predicate Probes(h: Hash, ev: PeerEval, p: Primary) {
    && HasKey(p) && ev.peerKey == KeyOf(h, p) && ev.expectPresent
    && ev.checkPvd && !ev.skipPvd && ev.rawBijection && ev.dualRaw2.None?
    && match p
       case OfService(raw) => (if ev.dualRaw.Some? then ev.dualRaw else ev.subjectRaw) == Some(raw)
       case OfAnchor(txn) => ev.subjectRaw == Some(txn)
       case OfIngress(sequence) => ev.subjectRaw == Some(sequence)
       case OfDelivery(raw) => ev.subjectRaw.Some? && NestedDelivery(ev, ev.subjectRaw.value) == raw
  }

  lemma PinnedIff(h: Hash, rows: seq<Row>, source: Octets, ev: PeerEval, p: Primary)
    requires Readable(rows) && Probes(h, ev, p)
    ensures EvalMet(h, 17, rows, source, ev) <==> PinnedTo(h, rows, source, p)
  {
    var kind, ident := KeyParts(h, p);
    var subtype: Byte :=
      match p case OfService(_) => 0x10 case OfAnchor(_) => 0x20 case OfIngress(_) => 0x27 case OfDelivery(_) => 0x40;
    PeerIsRecord(rows, subtype, kind, ident);
    hide Readable, Extract, FramingOf, BKey, Lookup, HeaderPvd, Sha, CheckPeer, KeyOf, Holds, NestedDelivery;
    if Lookup(rows, ev.peerKey).Some? {
      PrimaryCheck(h, ev, source, Lookup(rows, ev.peerKey).value, p);
    }
  }

  /** The plan probes the primary, or fails when the primary can have no key. */
  predicate Reaches(h: Hash, r: Res<Option<PeerEval>>, p: Primary) {
    if HasKey(p) then r.Good? && r.value.Some? && Probes(h, r.value.value, p) else !r.Good?
  }

  lemma ReachedIff(h: Hash, rows: seq<Row>, source: Octets, r: Res<Option<PeerEval>>, p: Primary)
    requires Readable(rows) && Reaches(h, r, p)
    ensures PlanMet(h, 17, rows, source, r) <==> PinnedTo(h, rows, source, p)
  {
    hide Readable, EvalMet, Probes;
    if HasKey(p) {
      PinnedIff(h, rows, source, r.value.value, p);
    }
  }

  lemma AnchorReached(h: Hash, txn: Octets)
    ensures Reaches(h, ToAnchor(txn), OfAnchor(txn))
  {
    hide BKey;
  }

  lemma DeliveryReached(h: Hash, raw: Octets)
    ensures Reaches(h, ToDelivery(h, raw), OfDelivery(raw))
  {
    hide Digested, KOver, Field;
    OverIs(h, 0x40, [], raw);
    assert [] + Field(raw) == Field(raw);
  }

  lemma OwnerReached(h: Hash, kind: nat, raw: Octets, anchorKind: nat, deliveryKind: nat)
    requires kind != 5
    ensures var p := OfOwner(kind, raw, anchorKind, deliveryKind);
      var r := ToOwner(h, kind, raw, anchorKind, deliveryKind);
      if p.Some? then Reaches(h, r, p.value) else !r.Good?
  {
    hide Digested, KOver, Field, BKey;
    OverIs(h, 0x40, [], raw);
    assert [] + Field(raw) == Field(raw);
  }

  lemma OwnerUnknown(h: Hash, kind: nat, raw: Octets, anchorKind: nat, deliveryKind: nat)
    requires kind == 5 && anchorKind != 5 && deliveryKind != 5
    ensures OfOwner(kind, raw, anchorKind, deliveryKind).None? && !ToOwner(h, kind, raw, anchorKind, deliveryKind).Good?
  {
  }

  lemma ScheduledReached(h: Hash, body: Octets)
    ensures var p := NamedBy(0x26, body);
      if p.Some? then Reaches(h, ReversePlan(h, 0x26, body), p.value) else !ReversePlan(h, 0x26, body).Good?
  {
    hide Digested, KOver, Field, BKey, ParseSched;
    if ParseSched(body).Good? {
      var s := ParseSched(body).value;
      OverIs(h, 0x40, [], s.subject);
      assert [] + Field(s.subject) == Field(s.subject);
    }
  }

  /** What the gate asks of a callback reservation. */
  predicate CallbackNested(o: Res<Owned>) {
    o.Good? && o.value.kind == 5 ==> |o.value.raw| >= 90 && FromBe(Clip(o.value.raw, 0, 2)) == 80
  }

  lemma ReservationReached(h: Hash, body: Octets)
    requires CallbackNested(ParseOwned(body))
    ensures var p := NamedBy(0x23, body);
      if p.Some? then Reaches(h, ReversePlan(h, 0x23, body), p.value) else !ReversePlan(h, 0x23, body).Good?
  {
    hide Digested, KOver, Field, BKey, ParseOwned, FromBe;
    if ParseOwned(body).Good? {
      var raw := ParseOwned(body).value.raw;
      OverIs(h, 0x10, [], raw);
      OverIs(h, 0x40, [], raw);
      OverIs(h, 0x40, [], Clip(raw, 2, 82));
      assert [] + Field(raw) == Field(raw);
      assert [] + Field(Clip(raw, 2, 82)) == Field(Clip(raw, 2, 82));
      if |raw| >= 90 {
        assert raw[..2] == Clip(raw, 0, 2);
      }
    }
  }

  lemma QuotaReached(h: Hash, body: Octets)
    ensures var p := NamedBy(0x11, body);
      if p.Some? then Reaches(h, ReversePlan(h, 0x11, body), p.value) else !ReversePlan(h, 0x11, body).Good?
  {
    hide Digested, KOver, Field, BKey, FirstRaw16;
    if FirstRaw16(body).Good? {
      OverIs(h, 0x10, [], FirstRaw16(body).value);
      assert [] + Field(FirstRaw16(body).value) == Field(FirstRaw16(body).value);
    }
  }

  /** Every other secondary but the idempotency record names an anchor or a delivery. */
  lemma OtherReached(h: Hash, subtype: Byte, body: Octets)
    requires subtype in SECONDARIES - {0x11, 0x23, 0x24, 0x26}
    ensures var p := NamedBy(subtype, body);
      if p.Some? then Reaches(h, ReversePlan(h, subtype, body), p.value) else !ReversePlan(h, subtype, body).Good?
  {
    hide Reaches, ToAnchor, ToDelivery, ToOwner, OfOwner, ParseOwned, EvmapTxn, ParseAttempt, ParseRc, SecondRaw16;
    if subtype in {0x21, 0x22, 0x50, 0x51, 0x34, 0x52, 0x25} {
      AnchorReached(h, Clip(body, 8, 24));
      AnchorReached(h, Clip(body, 0, 16));
      AnchorReached(h, Clip(body, 16, 32));
      AnchorReached(h, Clip(body, 28, 44));
      if EvmapTxn(body).Good? {
        AnchorReached(h, EvmapTxn(body).value);
      }
    } else if subtype == 0x41 {
      if ParseRc(body).Good? {
        DeliveryReached(h, ParseRc(body).value.deliveryRaw);
      }
    } else if subtype == 0x42 {
      if SecondRaw16(body).Good? {
        DeliveryReached(h, SecondRaw16(body).value);
      }
    } else if subtype == 0x31 {
      if ParseAttempt(body).Good? {
        OwnerCases(h, ParseAttempt(body).value.ownerKind, ParseAttempt(body).value.ownerRaw, 1, 2);
      }
    } else {
      if ParseOwned(body).Good? {
        OwnerCases(h, ParseOwned(body).value.kind, ParseOwned(body).value.raw, 1, 2);
        OwnerCases(h, ParseOwned(body).value.kind, ParseOwned(body).value.raw, 2, 3);
      }
    }
  }

  lemma OwnerCases(h: Hash, kind: nat, raw: Octets, anchorKind: nat, deliveryKind: nat)
    requires anchorKind != 5 && deliveryKind != 5
    ensures var p := OfOwner(kind, raw, anchorKind, deliveryKind);
      var r := ToOwner(h, kind, raw, anchorKind, deliveryKind);
      if p.Some? then Reaches(h, r, p.value) else !r.Good?
  {
    hide Reaches, ToOwner, OfOwner;
    if kind == 5 {
      OwnerUnknown(h, kind, raw, anchorKind, deliveryKind);
    } else {
      OwnerReached(h, kind, raw, anchorKind, deliveryKind);
    }
  }

  lemma IdemReverse(h: Hash, rows: seq<Row>, source: Octets, body: Octets)
    requires Readable(rows)
    ensures PlanMet(h, 17, rows, source, ReversePlan(h, 0x24, body)) <==> SecondaryDuty(h, rows, source, 0x24, body)
  {
    hide Readable, Extract, FramingOf, BKey, Lookup, HeaderPvd, Sha, CheckPeer, ParseAnchor, ParseIdem;
    if ParseIdem(body).Good? && |ParseIdem(body).value.txn| == 16 {
      var i := ParseIdem(body).value;
      var key := ById(0x20, i.txn);
      PeerIsRecord(rows, 0x20, 2, i.txn);
      if Lookup(rows, key).Some? {
        IdemAnchorCheck(h, WithSubject(Expecting(key).(dualRaw := Some(i.scope), dualRaw2 := Some(i.ikey)), i.txn),
          source, Lookup(rows, key).value, i);
      }
    }
  }

  lemma SecondaryIff(h: Hash, rows: seq<Row>, source: Octets, subtype: Byte, body: Octets)
    requires Readable(rows) && (subtype == 0x23 ==> CallbackNested(ParseOwned(body)))
    ensures PlanMet(h, 17, rows, source, ReversePlan(h, subtype, body)) <==> SecondaryDuty(h, rows, source, subtype, body)
  {
    if subtype == 0x24 {
      IdemReverse(h, rows, source, body);
    } else if subtype in SECONDARIES {
      hide Readable, EvalMet, ReversePlan, NamedBy, PinnedTo, Reaches, CallbackNested, ParseOwned;
      if subtype == 0x11 {
        QuotaReached(h, body);
      } else if subtype == 0x23 {
        ReservationReached(h, body);
      } else if subtype == 0x26 {
        ScheduledReached(h, body);
      } else {
        OtherReached(h, subtype, body);
      }
      var p := NamedBy(subtype, body);
      if p.Some? {
        ReachedIff(h, rows, source, ReversePlan(h, subtype, body), p.value);
      }
    } else {
      NoReverse(h, subtype, body);
      hide ReversePlan;
    }
  }

  lemma NoReverse(h: Hash, subtype: Byte, body: Octets)
    requires subtype !in SECONDARIES
    ensures ReversePlan(h, subtype, body) == Good(None)
  {
  }
}
