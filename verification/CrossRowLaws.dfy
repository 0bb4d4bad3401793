/** What an adopted cross-row session says about the records of the snapshot. */
module CrossRowLaws {
  import opened Octets
  import opened Catalog
  import opened Records
  import opened SessionMachine
  import opened Isolation
  import opened Adoption
  import opened CrossRow

  // ----- the declarative check, on records

  /** The row's peer is present or absent as it must be, and fits. */
  predicate MeetsPeer(h: Hash, mode: int, rows: seq<Row>, row: Row) {
    match RebuildPeer(h, mode, row.key, row.val)
    case Good(None) => true
    case Good(Some(ev)) =>
      (match Lookup(rows, ev.peerKey)
       case None => !ev.expectPresent
       case Some(peer) => ev.expectPresent && CheckPeer(h, mode, ev, row.val, peer) == Met)
    case _ => false
  }

  predicate RecordGood(h: Hash, mode: int, rows: seq<Row>, row: Row) {
    && ClassifyRoot(row.key, row.val) == CurrentRoot
    && match ClassifyRow(h, row.key, row.val)
       case RowTyped => MeetsPeer(h, mode, rows, row)
       case RowUntyped => true
       case _ => false
  }

  predicate ProfileMatches(binding: Octets, rows: seq<Row>) {
    ProfileComplete(rows) && JudgeProfile(binding, ProfileValues(rows)) == Exact
  }

  /** Everything a mode asks of a snapshot, with no session in it. */
  predicate RelationallyConsistent(h: Hash, binding: Octets, mode: int, rows: seq<Row>) {
    && ProfileMatches(binding, rows)
    && forall i :: 0 <= i < |rows| ==>
         InPlace(rows, i) && (CatalogId(rows[i].key).Some? || RecordGood(h, mode, rows, rows[i]))
  }

  lemma VerdictIsMeeting(h: Hash, binding: Octets, alts: map<string, seq<Row>>, mode: int, rows: seq<Row>, row: Row)
    ensures PeerVerdict(CrossRowEnv(h, binding, [], alts), mode, rows, row) == Met <==> MeetsPeer(h, mode, rows, row)
  {
    hide RebuildPeer, CheckPeer, Lookup;
  }

  lemma RecordIsDomain(h: Hash, binding: Octets, alts: map<string, seq<Row>>, mode: int, rows: seq<Row>, row: Row)
    ensures DomainGood(CrossRowEnv(h, binding, [], alts), true, mode, rows, row) <==> RecordGood(h, mode, rows, row)
  {
    hide ClassifyRow, ClassifyRoot, PeerVerdict, MeetsPeer;
    VerdictIsMeeting(h, binding, alts, mode, rows, row);
  }

  lemma ConsistentIsRelational(h: Hash, binding: Octets, alts: map<string, seq<Row>>, mode: int, rows: seq<Row>)
    ensures Consistent(CrossRowEnv(h, binding, [], alts), true, mode, rows)
      <==> RelationallyConsistent(h, binding, mode, rows)
  {
    var env := CrossRowEnv(h, binding, [], alts);
    assert ProfileExact(env, rows) <==> ProfileMatches(binding, rows) by {
      hide ProfileComplete, ProfileValues, JudgeProfile;
    }
    hide CrossRowEnv, ProfileExact, ProfileMatches, DomainGood, RecordGood, InPlace, CatalogId;
    forall i | 0 <= i < |rows|
      ensures RowGood(env, true, mode, rows, i) <==>
        InPlace(rows, i) && (CatalogId(rows[i].key).Some? || RecordGood(h, mode, rows, rows[i]))
    {
      RecordIsDomain(h, binding, alts, mode, rows, rows[i]);
    }
  }

  predicate ScanAdopted(h: Hash, binding: Octets, mode: int, rows: seq<Row>, budgets: seq<int>) {
    var calls := ScanCalls(true, mode, budgets);
    Adopted(calls, Run(CrossRowEnv(h, binding, [], map[]), FreshMachine(rows), calls))
  }

  /** The fault-free cross-row scan adopts a snapshot if and only if it is relationally consistent. */
  lemma ScanDecidesConsistency(h: Hash, binding: Octets, mode: int, rows: seq<Row>, budgets: seq<int>)
    requires 1 <= mode <= 20 && TotalBudget(budgets) > |rows|
    ensures ScanAdopted(h, binding, mode, rows, budgets) <==> RelationallyConsistent(h, binding, mode, rows)
  {
    var env := CrossRowEnv(h, binding, [], map[]);
    assert env.faults == [];
    hide CrossRowEnv, Consistent, RelationallyConsistent, Adopted, Run, TotalBudget;
    AdoptedIffConsistent(env, true, mode, rows, budgets);
    ConsistentIsRelational(h, binding, map[], mode, rows);
  }

  // ----- single records of a consistent snapshot

  lemma DomainKeyIsCurrent(key: Octets, val: Octets)
    requires ParseDomainKey(key).Some?
    ensures CatalogId(key).None? && ClassifyRoot(key, val) == CurrentRoot
  {
    assert key[7] == key[..8][7] == 1;
  }

  /** Every family 6 row of a consistent snapshot is well formed and meets its peer. */
  lemma RowOfConsistent(h: Hash, binding: Octets, mode: int, rows: seq<Row>, i: nat)
    requires RelationallyConsistent(h, binding, mode, rows) && i < |rows|
    requires ParseDomainKey(rows[i].key).Some? && ParseDomainKey(rows[i].key).value.family == 6
    ensures RowStructure(h, rows[i].key, rows[i].val) == Fine
    ensures MeetsPeer(h, mode, rows, rows[i])
  {
    hide RowStructure, MeetsPeer, InPlace, ProfileMatches;
    DomainKeyIsCurrent(rows[i].key, rows[i].val);
    hide CatalogId, ParseDomainKey, ClassifyRoot, FramingOf;
    assert RecordGood(h, mode, rows, rows[i]);
  }

  lemma {:induction false} LookedUpRow(rows: seq<Row>, key: Octets) returns (i: nat)
    requires Lookup(rows, key).Some?
    ensures i < |rows| && rows[i] == Row(key, Lookup(rows, key).value)
  {
    if rows[0].key == key {
      i := 0;
    } else {
      i := LookedUpRow(rows[1..], key);
      i := i + 1;
    }
  }

  /** A well-formed record's envelope has the subtype of its key. */
  lemma FineSubtype(h: Hash, key: Octets, val: Octets)
    requires ParseDomainKey(key).Some? && ParseDomainKey(key).value.family == 6
    requires RowStructure(h, key, val) == Fine
    ensures Extract(val).Good? && Extract(val).value.subtype == ParseDomainKey(key).value.subtype
  {
    hide ParseDomainKey, Extract, FramingOf, IngressStructure, CleanupStructure, AnchorStructure,
         ReservationStructure, SchedStructure, IsPrimary;
  }

  /** The scheduler row a plan with an owner leads to leads back to that owner's key. */
  lemma SchedulerLeadsBack(h: Hash, binding: Octets, mode: int, rows: seq<Row>, source: Octets,
                           ev: PeerEval, seqNo: Octets, kind: nat, subject: Octets)
    requires RelationallyConsistent(h, binding, mode, rows) && mode != 17
    requires |seqNo| == 8 && ev.peerKey == BKey(6, ST_SCHED, 3, seqNo) && ev.expectPresent
    requires ev.dualRaw.None? && ev.rawBijection && ev.ownerKind == Some(kind) && ev.subjectRaw == Some(subject)
    requires Lookup(rows, ev.peerKey).Some?
    requires CheckPeer(h, mode, ev, source, Lookup(rows, ev.peerKey).value) == Met
    ensures var back := RebuildPeer(h, 17, ev.peerKey, Lookup(rows, ev.peerKey).value);
      && SchedPrimary(h, kind, subject).Good?
      && back.Good? && back.value.Some?
      && back.value.value.peerKey == SchedPrimary(h, kind, subject).value
  {
    var val := Lookup(rows, ev.peerKey).value;
    KeyRoundTrip(DomainKey(6, ST_SCHED, 3, seqNo));
    var j := LookedUpRow(rows, ev.peerKey);
    RowOfConsistent(h, binding, mode, rows, j);
    FineSubtype(h, ev.peerKey, val);
    hide ParseDomainKey, BKey, Lookup, MeetsPeer, RelationallyConsistent, SchedPrimary, ParseSched, Extract, FramingOf;
    SchedIsFine(h, ev.peerKey, val);
    SchedMatches(h, mode, ev, source, val, kind, subject);
    hide PeerRawOk, CheckPeer, RowStructure;
    ReverseOfSched(h, ev.peerKey, val);
  }

  lemma SchedIsFine(h: Hash, key: Octets, val: Octets)
    requires ParseDomainKey(key).Some? && ParseDomainKey(key).value.family == 6
    requires ParseDomainKey(key).value.subtype == ST_SCHED
    requires RowStructure(h, key, val) == Fine && Extract(val).Good?
    ensures ParseSched(Extract(val).value.body).Good?
    ensures var s := ParseSched(Extract(val).value.body).value; SchedPrimary(h, s.ownerKind, s.subject).Good?
  {
    hide ParseDomainKey, Extract, ParseSched, SchedPrimary, FramingOf, KeyDigest;
  }

  lemma SchedMatches(h: Hash, mode: int, ev: PeerEval, source: Octets, val: Octets, kind: nat, subject: Octets)
    requires mode != 17 && ev.dualRaw.None? && ev.rawBijection
    requires ev.ownerKind == Some(kind) && ev.subjectRaw == Some(subject)
    requires CheckPeer(h, mode, ev, source, val) == Met
    requires Extract(val).Good? && Extract(val).value.subtype == ST_SCHED
    requires ParseSched(Extract(val).value.body).Good?
    ensures var s := ParseSched(Extract(val).value.body).value; s.ownerKind == kind && s.subject == subject
  {
    hide Extract, ParseSched, FramingOf;
  }

  lemma ReverseOfSched(h: Hash, key: Octets, val: Octets)
    requires ParseDomainKey(key).Some? && ParseDomainKey(key).value.family == 6
    requires ParseDomainKey(key).value.subtype == ST_SCHED
    requires Extract(val).Good? && ParseSched(Extract(val).value.body).Good?
    requires var s := ParseSched(Extract(val).value.body).value; SchedPrimary(h, s.ownerKind, s.subject).Good?
    ensures var s := ParseSched(Extract(val).value.body).value;
      var back := RebuildPeer(h, 17, key, val);
      back.Good? && back.value.Some? && back.value.value.peerKey == SchedPrimary(h, s.ownerKind, s.subject).value
  {
    hide ParseDomainKey, Extract, ParseSched, SchedPrimary;
  }

  // ----- forward and back again

  predicate IsRecord(row: Row, subtype: Byte) {
    ParseDomainKey(row.key).Some? && ParseDomainKey(row.key).value.family == 6
    && ParseDomainKey(row.key).value.subtype == subtype
  }

  /** The forward plan finds a row, and the reverse plan of that row names the key. */
  predicate FoundAndBackTo(h: Hash, mode: int, rows: seq<Row>, row: Row, key: Octets) {
    var there := RebuildPeer(h, mode, row.key, row.val);
    && there.Good? && there.value.Some?
    && var ev := there.value.value;
       Lookup(rows, ev.peerKey).Some?
       && var back := RebuildPeer(h, 17, ev.peerKey, Lookup(rows, ev.peerKey).value);
          back.Good? && back.value.Some? && back.value.value.peerKey == key
  }

  /** A row whose plan asks for a scheduler row of a given owner leads to that owner's key. */
  lemma PlanLeadsBack(h: Hash, binding: Octets, mode: int, rows: seq<Row>, i: nat, seqNo: Octets, kind: nat, subject: Octets)
    requires RelationallyConsistent(h, binding, mode, rows) && mode != 17 && i < |rows|
    requires ParseDomainKey(rows[i].key).Some? && ParseDomainKey(rows[i].key).value.family == 6
    requires |seqNo| == 8
    requires var plan := RebuildPeer(h, mode, rows[i].key, rows[i].val);
      plan == Good(Some(WithOwner(Expecting(BKey(6, ST_SCHED, 3, seqNo)), kind, subject)))
    ensures SchedPrimary(h, kind, subject).Good?
    ensures FoundAndBackTo(h, mode, rows, rows[i], SchedPrimary(h, kind, subject).value)
  {
    RowOfConsistent(h, binding, mode, rows, i);
    hide RebuildPeer, Lookup, CheckPeer, RelationallyConsistent, BKey, SchedPrimary, RowStructure, ParseDomainKey;
    var ev := RebuildPeer(h, mode, rows[i].key, rows[i].val).value.value;
    SchedulerLeadsBack(h, binding, mode, rows, rows[i].val, ev, seqNo, kind, subject);
  }

  lemma AnchorIsStructured(h: Hash, key: Octets, val: Octets)
    requires IsRecord(Row(key, val), ST_ANCHOR) && RowStructure(h, key, val) == Fine
    ensures Extract(val).Good?
    ensures AnchorStructure(h, ParseDomainKey(key).value, Extract(val).value.body) == Fine
  {
    hide Extract, FramingOf, ParseDomainKey, AnchorStructure;
  }

  lemma AnchorIsFine(h: Hash, key: Octets, val: Octets)
    requires IsRecord(Row(key, val), ST_ANCHOR) && RowStructure(h, key, val) == Fine
    ensures Extract(val).Good? && ParseAnchor(Extract(val).value.body).Good?
    ensures var a := ParseAnchor(Extract(val).value.body).value;
      |a.txn| == 16 && key == BKey(6, ST_ANCHOR, 2, a.txn)
  {
    AnchorIsStructured(h, key, val);
    KeyOfParsed(key);
    hide Extract, ParseAnchor, BKey, ParseDomainKey, KComposite, Splice, KeyDigest, Raw16, RowStructure;
  }

  lemma AnchorPlanned(h: Hash, key: Octets, val: Octets)
    requires IsRecord(Row(key, val), ST_ANCHOR)
    requires Extract(val).Good? && ParseAnchor(Extract(val).value.body).Good?
    ensures var a := ParseAnchor(Extract(val).value.body).value;
      RebuildPeer(h, 7, key, val) == Good(Some(WithOwner(Expecting(BKey(6, ST_SCHED, 3, Be64(a.schedSeq))), 1, a.txn)))
  {
    hide Extract, ParseAnchor, BKey, ParseDomainKey;
  }

  /** Mode 7: every anchor leads to a scheduler row that leads back to exactly that anchor. */
  lemma AnchorLeadsBack(h: Hash, binding: Octets, rows: seq<Row>, budgets: seq<int>, i: nat)
    requires TotalBudget(budgets) > |rows| && ScanAdopted(h, binding, 7, rows, budgets)
    requires i < |rows| && IsRecord(rows[i], ST_ANCHOR)
    ensures FoundAndBackTo(h, 7, rows, rows[i], rows[i].key)
  {
    ScanDecidesConsistency(h, binding, 7, rows, budgets);
    RowOfConsistent(h, binding, 7, rows, i);
    AnchorIsFine(h, rows[i].key, rows[i].val);
    AnchorPlanned(h, rows[i].key, rows[i].val);
    hide RebuildPeer, RelationallyConsistent, ScanAdopted, FoundAndBackTo, RowStructure, MeetsPeer, ParseAnchor, Extract, BKey;
    var a := ParseAnchor(Extract(rows[i].val).value.body).value;
    PlanLeadsBack(h, binding, 7, rows, i, Be64(a.schedSeq), 1, a.txn);
  }

  lemma IngressIsFine(h: Hash, key: Octets, val: Octets)
    requires IsRecord(Row(key, val), ST_INGRESS) && RowStructure(h, key, val) == Fine
    ensures Extract(val).Good? && ParseIngress(Extract(val).value.body).Good?
    ensures var g := ParseIngress(Extract(val).value.body).value;
      key == BKey(6, ST_INGRESS, 3, g.orderedSeq)
      && (g.binding == BIND_NEW_DELIVERY ==>
            RebuildPeer(h, 16, key, val)
            == Good(Some(WithOwner(Expecting(BKey(6, ST_SCHED, 3, Be64(g.ownerSeq))), 3, g.orderedSeq))))
  {
    hide Extract, ParseIngress, FramingOf, BKey, ParseDomainKey, KComposite, KeyDigest, Raw16, IngressStructure,
         RebuildPeer, RowStructure;
    KeyOfParsed(key);
    FineIngress(h, key, val);
    IngressStructured(h, ParseDomainKey(key).value, Extract(val).value.body);
    IngressPlanned(h, key, val);
  }

  lemma FineIngress(h: Hash, key: Octets, val: Octets)
    requires IsRecord(Row(key, val), ST_INGRESS) && RowStructure(h, key, val) == Fine
    ensures Extract(val).Good? && IngressStructure(h, ParseDomainKey(key).value, Extract(val).value.body) == Fine
  {
    hide Extract, FramingOf, ParseDomainKey, IngressStructure, CleanupStructure, AnchorStructure, ReservationStructure,
         SchedStructure;
  }

  lemma IngressStructured(h: Hash, k: DomainKey, body: Octets)
    requires IngressStructure(h, k, body) == Fine
    ensures ParseIngress(body).Good? && k.kind == 3 && k.ident == ParseIngress(body).value.orderedSeq
  {
    hide ParseIngress, KComposite, KeyDigest, Raw16;
  }

  lemma IngressPlanned(h: Hash, key: Octets, val: Octets)
    requires IsRecord(Row(key, val), ST_INGRESS)
    requires Extract(val).Good? && ParseIngress(Extract(val).value.body).Good?
    ensures var g := ParseIngress(Extract(val).value.body).value;
      g.binding == BIND_NEW_DELIVERY ==>
        RebuildPeer(h, 16, key, val)
        == Good(Some(WithOwner(Expecting(BKey(6, ST_SCHED, 3, Be64(g.ownerSeq))), 3, g.orderedSeq)))
  {
    hide Extract, ParseIngress, BKey, ParseDomainKey;
  }

  /** Mode 16: an ingress row of a new delivery and its scheduler row name each other. */
  lemma IngressLeadsBack(h: Hash, binding: Octets, rows: seq<Row>, budgets: seq<int>, i: nat)
    requires TotalBudget(budgets) > |rows| && ScanAdopted(h, binding, 16, rows, budgets)
    requires i < |rows| && IsRecord(rows[i], ST_INGRESS)
    ensures Extract(rows[i].val).Good? && ParseIngress(Extract(rows[i].val).value.body).Good?
    ensures ParseIngress(Extract(rows[i].val).value.body).value.binding == BIND_NEW_DELIVERY ==>
      FoundAndBackTo(h, 16, rows, rows[i], rows[i].key)
  {
    ScanDecidesConsistency(h, binding, 16, rows, budgets);
    RowOfConsistent(h, binding, 16, rows, i);
    IngressIsFine(h, rows[i].key, rows[i].val);
    hide RebuildPeer, RelationallyConsistent, ScanAdopted, FoundAndBackTo, RowStructure, MeetsPeer, ParseIngress, Extract, BKey;
    var g := ParseIngress(Extract(rows[i].val).value.body).value;
    if g.binding == BIND_NEW_DELIVERY {
      PlanLeadsBack(h, binding, 16, rows, i, Be64(g.ownerSeq), 3, g.orderedSeq);
    }
  }

  lemma DeliveryPlanned(h: Hash, key: Octets, val: Octets)
    requires IsRecord(Row(key, val), ST_DELIVERY)
    requires Extract(val).Good?
    ensures var d := ParseDelivery(Extract(val).value.body);
      if d.Good? then
        RebuildPeer(h, 13, key, val)
        == Good(Some(WithOwner(Expecting(BKey(6, ST_SCHED, 3, Be64(d.value.schedSeq))), 2, d.value.raw)))
      else RebuildPeer(h, 13, key, val).Invalid?
  {
    hide Extract, ParseDelivery, BKey, ParseDomainKey;
  }

  /**
   Mode 13: a delivery's scheduler row leads back to the delivery if and only if the
   delivery is stored under the composite key of its own raw key.
   */
  lemma DeliveryLeadsBackIff(h: Hash, binding: Octets, rows: seq<Row>, budgets: seq<int>, i: nat)
    requires TotalBudget(budgets) > |rows| && ScanAdopted(h, binding, 13, rows, budgets)
    requires i < |rows| && IsRecord(rows[i], ST_DELIVERY)
    ensures Extract(rows[i].val).Good? && ParseDelivery(Extract(rows[i].val).value.body).Good?
    ensures var d := ParseDelivery(Extract(rows[i].val).value.body).value;
      FoundAndBackTo(h, 13, rows, rows[i], rows[i].key) <==> KOver(h, ST_DELIVERY, [], d.raw) == Good(rows[i].key)
  {
    ScanDecidesConsistency(h, binding, 13, rows, budgets);
    RowOfConsistent(h, binding, 13, rows, i);
    FineSubtype(h, rows[i].key, rows[i].val);
    DeliveryPlanned(h, rows[i].key, rows[i].val);
    hide RelationallyConsistent, ScanAdopted, RowStructure, ParseDelivery, Extract, BKey, KOver, Lookup, RebuildPeer, CheckPeer;
    var d := ParseDelivery(Extract(rows[i].val).value.body).value;
    PlanLeadsBack(h, binding, 13, rows, i, Be64(d.schedSeq), 2, d.raw);
  }

  // ----- an attempt and its index entry

  /** The key an attempt of a transaction is stored under. */
  function AttemptKey(h: Hash, txn: Octets, attemptId: Octets): Octets
    requires |txn| <= 255
  {
    KComposite(h, ST_ATTEMPT, AttemptMaterial(txn, attemptId))
  }

  function AttemptMaterial(txn: Octets, attemptId: Octets): Octets
    requires |txn| <= 255
  {
    Be16(1) + Raw16(txn).value + attemptId
  }

  function IndexTxn(body: Octets): (t: Octets)
    ensures |t| <= 16
  {
    Clip(body, 16, 32)
  }

  lemma AttemptPlanned(h: Hash, key: Octets, val: Octets)
    requires IsRecord(Row(key, val), ST_ATTEMPT) && Extract(val).Good?
    requires ParseAttempt(Extract(val).value.body).Good? && ParseAttempt(Extract(val).value.body).value.ownerKind == 1
    ensures var a := ParseAttempt(Extract(val).value.body).value;
      RebuildPeer(h, 18, key, val) == Good(Some(WithOwner(
        Unpinned(Expecting(BKey(6, ST_AII, 2, a.attemptId))).(mode18Pair := true), 1, a.ownerRaw + a.attemptId)))
  {
    hide Extract, ParseAttempt, BKey, ParseDomainKey;
  }

  lemma IndexPlanned(h: Hash, key: Octets, val: Octets)
    requires IsRecord(Row(key, val), ST_AII) && Extract(val).Good?
    ensures var body := Extract(val).value.body;
      RebuildPeer(h, 18, key, val) == Good(Some(WithSubject(
        Unpinned(Expecting(AttemptKey(h, IndexTxn(body), Clip(body, 0, 16)))).(mode18Pair := true),
        IndexTxn(body) + Clip(body, 0, 16))))
  {
    hide Extract, KComposite, ParseDomainKey, Raw16;
  }

  lemma IndexMatches(h: Hash, ev: PeerEval, source: Octets, val: Octets, owner: Octets, attemptId: Octets)
    requires ev.mode18Pair && ev.dualRaw.None? && ev.subjectRaw == Some(owner + attemptId) && |attemptId| == 16
    requires CheckPeer(h, 18, ev, source, val) == Met
    requires Extract(val).Good? && Extract(val).value.subtype == ST_AII
    ensures Clip(Extract(val).value.body, 0, 16) == attemptId
  {
    hide Extract, FramingOf, Clip, HeaderPvd;
    var subject := owner + attemptId;
    assert subject[|subject| - 16..] == attemptId;
  }

  /** The plan of the row finds a row whose plan, in the same mode, names the key. */
  predicate PairedWith(h: Hash, rows: seq<Row>, row: Row, key: Octets) {
    var there := RebuildPeer(h, 18, row.key, row.val);
    && there.Good? && there.value.Some?
    && var k := there.value.value.peerKey;
       Lookup(rows, k).Some?
       && var back := RebuildPeer(h, 18, k, Lookup(rows, k).value);
          back.Good? && back.value.Some? && back.value.value.peerKey == key
  }

  /** The index entry of a local attempt is there, and holds the attempt's identity and some transaction. */
  lemma IndexIsThere(h: Hash, binding: Octets, rows: seq<Row>, i: nat)
    requires RelationallyConsistent(h, binding, 18, rows)
    requires i < |rows| && IsRecord(rows[i], ST_ATTEMPT) && Extract(rows[i].val).Good?
    requires ParseAttempt(Extract(rows[i].val).value.body).Good?
    requires ParseAttempt(Extract(rows[i].val).value.body).value.ownerKind == 1
    ensures var a := ParseAttempt(Extract(rows[i].val).value.body).value;
      var k := BKey(6, ST_AII, 2, a.attemptId);
      && Lookup(rows, k).Some? && Extract(Lookup(rows, k).value).Good?
      && IsRecord(Row(k, Lookup(rows, k).value), ST_AII)
      && Clip(Extract(Lookup(rows, k).value).value.body, 0, 16) == a.attemptId
  {
    RowOfConsistent(h, binding, 18, rows, i);
    AttemptPlanned(h, rows[i].key, rows[i].val);
    hide RelationallyConsistent, RowStructure, ParseAttempt, Extract, BKey, Lookup, RebuildPeer, CheckPeer, ParseDomainKey,
         Clip;
    var a := ParseAttempt(Extract(rows[i].val).value.body).value;
    var k := BKey(6, ST_AII, 2, a.attemptId);
    KeyRoundTrip(DomainKey(6, ST_AII, 2, a.attemptId));
    var j := LookedUpRow(rows, k);
    RowOfConsistent(h, binding, 18, rows, j);
    FineSubtype(h, k, rows[j].val);
    IndexMatches(h, RebuildPeer(h, 18, rows[i].key, rows[i].val).value.value, rows[i].val, rows[j].val, a.ownerRaw, a.attemptId);
  }

  lemma SameOwner(h: Hash, txn: Octets, owner: Octets, attemptId: Octets)
    requires |txn| <= 255 && |owner| <= 255
    requires !Collide(h, CompositePreimage(ST_ATTEMPT, AttemptMaterial(txn, attemptId)),
                         CompositePreimage(ST_ATTEMPT, AttemptMaterial(owner, attemptId)))
    ensures AttemptKey(h, txn, attemptId) == AttemptKey(h, owner, attemptId) <==> txn == owner
  {
    hide KComposite, CompositePreimage, Raw16;
    if AttemptKey(h, txn, attemptId) == AttemptKey(h, owner, attemptId) {
      var x, y := AttemptMaterial(txn, attemptId), AttemptMaterial(owner, attemptId);
      CompositeInjective(h, ST_ATTEMPT, x, ST_ATTEMPT, y);
      assert x[2..] == Raw16(txn).value + attemptId && y[2..] == Raw16(owner).value + attemptId;
      Raw16PrefixFree(txn, attemptId, owner, attemptId);
    }
  }

  /**
   Mode 18 compares the index entry by the attempt's identity only: a local attempt stored under its
   own key is led back to if and only if the entry's transaction is the attempt's owner.
   */
  lemma AttemptLeadsBackIff(h: Hash, binding: Octets, rows: seq<Row>, budgets: seq<int>, i: nat)
    requires TotalBudget(budgets) > |rows| && ScanAdopted(h, binding, 18, rows, budgets)
    requires i < |rows| && IsRecord(rows[i], ST_ATTEMPT)
    requires Extract(rows[i].val).Good? && ParseAttempt(Extract(rows[i].val).value.body).Good?
    requires ParseAttempt(Extract(rows[i].val).value.body).value.ownerKind == 1
    ensures var a := ParseAttempt(Extract(rows[i].val).value.body).value;
      var entry := Lookup(rows, BKey(6, ST_AII, 2, a.attemptId));
      && entry.Some? && Extract(entry.value).Good?
      && var txn := IndexTxn(Extract(entry.value).value.body);
         && (PairedWith(h, rows, rows[i], rows[i].key) <==> rows[i].key == AttemptKey(h, txn, a.attemptId))
         && (|a.ownerRaw| <= 255 && rows[i].key == AttemptKey(h, a.ownerRaw, a.attemptId)
             && !Collide(h, CompositePreimage(ST_ATTEMPT, AttemptMaterial(txn, a.attemptId)),
                            CompositePreimage(ST_ATTEMPT, AttemptMaterial(a.ownerRaw, a.attemptId)))
             ==> (PairedWith(h, rows, rows[i], rows[i].key) <==> txn == a.ownerRaw))
  {
    ScanDecidesConsistency(h, binding, 18, rows, budgets);
    IndexIsThere(h, binding, rows, i);
    AttemptPlanned(h, rows[i].key, rows[i].val);
    var a := ParseAttempt(Extract(rows[i].val).value.body).value;
    var k := BKey(6, ST_AII, 2, a.attemptId);
    var entry := Lookup(rows, k).value;
    IndexPlanned(h, k, entry);
    hide RelationallyConsistent, ScanAdopted, ParseAttempt, Extract, BKey, Lookup, RebuildPeer, ParseDomainKey, Clip,
         AttemptKey, Collide, CompositePreimage, AttemptMaterial, IndexTxn;
    var txn := IndexTxn(Extract(entry).value.body);
    if |a.ownerRaw| <= 255 && !Collide(h, CompositePreimage(ST_ATTEMPT, AttemptMaterial(txn, a.attemptId)),
                                          CompositePreimage(ST_ATTEMPT, AttemptMaterial(a.ownerRaw, a.attemptId))) {
      SameOwner(h, txn, a.ownerRaw, a.attemptId);
    }
  }

  // ----- presence exactly when due

  lemma CallbackPlanned(h: Hash, key: Octets, val: Octets)
    requires IsRecord(Row(key, val), ST_RC) && Extract(val).Good?
    ensures RebuildPeer(h, 19, key, val) == CallbackPlan(h, Extract(val).value.body)
  {
    hide Extract, CallbackPlan, ParseDomainKey;
  }

  /** The reservation key of a result cache row's callback. */
  function CallbackKey(h: Hash, rc: ResultCache): Res<Octets> {
    var owner: Octets :- CallbackOwner(rc);
    KOver(h, ST_RES, Be16(5), owner)
  }

  /** Mode 19: a callback is reserved if and only if the result cache row has it active. */
  lemma CallbackReservedIffActive(h: Hash, binding: Octets, rows: seq<Row>, budgets: seq<int>, i: nat)
    requires TotalBudget(budgets) > |rows| && ScanAdopted(h, binding, 19, rows, budgets)
    requires i < |rows| && IsRecord(rows[i], ST_RC)
    ensures Extract(rows[i].val).Good? && ParseRc(Extract(rows[i].val).value.body).Good?
    ensures var rc := ParseRc(Extract(rows[i].val).value.body).value;
      CallbackKey(h, rc).Good? && (Lookup(rows, CallbackKey(h, rc).value).Some? <==> CallbackActive(rc))
  {
    ScanDecidesConsistency(h, binding, 19, rows, budgets);
    RowOfConsistent(h, binding, 19, rows, i);
    FineSubtype(h, rows[i].key, rows[i].val);
    CallbackPlanned(h, rows[i].key, rows[i].val);
    hide RelationallyConsistent, ScanAdopted, RowStructure, Extract, KOver, Lookup, RebuildPeer, CheckPeer,
         ParseRc, CallbackActive, CallbackOwner, IsRecord;
  }

  lemma RetentionPlanned(h: Hash, key: Octets, val: Octets, subtype: Byte)
    requires IsRecord(Row(key, val), subtype) && Extract(val).Good?
    ensures RebuildPeer(h, 20, key, val) == RetentionPlan(h, subtype, Extract(val).value.body)
  {
    hide Extract, RetentionPlan, ParseDomainKey;
  }

  /** Mode 20: a transaction has a retention basis if and only if it is terminal. */
  lemma TransactionRetainedIffTerminal(h: Hash, binding: Octets, rows: seq<Row>, budgets: seq<int>, i: nat)
    requires TotalBudget(budgets) > |rows| && ScanAdopted(h, binding, 20, rows, budgets)
    requires i < |rows| && IsRecord(rows[i], ST_STATE)
    ensures Extract(rows[i].val).Good?
    ensures var body := Extract(rows[i].val).value.body;
      var key := KOver(h, ST_RB, Be16(2), Clip(body, 0, 16));
      key.Good? && (Lookup(rows, key.value).Some? <==> TxTerminal(body))
  {
    ScanDecidesConsistency(h, binding, 20, rows, budgets);
    RowOfConsistent(h, binding, 20, rows, i);
    FineSubtype(h, rows[i].key, rows[i].val);
    RetentionPlanned(h, rows[i].key, rows[i].val, ST_STATE);
    hide RelationallyConsistent, ScanAdopted, RowStructure, Extract, KOver, Lookup, RebuildPeer, CheckPeer,
         TxTerminal, IsRecord, Clip;
  }

  /** Mode 20: a result has a retention basis if and only if its state is terminal. */
  lemma ResultRetainedIffTerminal(h: Hash, binding: Octets, rows: seq<Row>, budgets: seq<int>, i: nat)
    requires TotalBudget(budgets) > |rows| && ScanAdopted(h, binding, 20, rows, budgets)
    requires i < |rows| && IsRecord(rows[i], ST_RC)
    ensures Extract(rows[i].val).Good? && ParseRc(Extract(rows[i].val).value.body).Good?
    ensures var rc := ParseRc(Extract(rows[i].val).value.body).value;
      var key := KOver(h, ST_RB, Be16(3), rc.deliveryRaw);
      key.Good? && (Lookup(rows, key.value).Some? <==> RcTerminal(rc))
  {
    ScanDecidesConsistency(h, binding, 20, rows, budgets);
    RowOfConsistent(h, binding, 20, rows, i);
    FineSubtype(h, rows[i].key, rows[i].val);
    RetentionPlanned(h, rows[i].key, rows[i].val, ST_RC);
    hide RelationallyConsistent, ScanAdopted, RowStructure, Extract, KOver, Lookup, RebuildPeer, CheckPeer,
         ParseRc, RcTerminal, IsRecord;
  }

  // ----- secondaries are pinned to their primaries

  /** Mode 17: every record with a primary carries the digest of the primary that is there. */
  lemma SecondaryIsPinned(h: Hash, binding: Octets, rows: seq<Row>, budgets: seq<int>, i: nat)
    requires TotalBudget(budgets) > |rows| && ScanAdopted(h, binding, 17, rows, budgets)
    requires i < |rows| && ParseDomainKey(rows[i].key).Some? && ParseDomainKey(rows[i].key).value.family == 6
    ensures var plan := RebuildPeer(h, 17, rows[i].key, rows[i].val);
      plan.Good? && (plan.value.Some? ==>
        var primary := Lookup(rows, plan.value.value.peerKey);
        primary.Some? && HeaderPvd(rows[i].val) == Sha(h, primary.value))
  {
    ScanDecidesConsistency(h, binding, 17, rows, budgets);
    RowOfConsistent(h, binding, 17, rows, i);
    var val := rows[i].val;
    ReverseAlwaysPins(h, rows[i].key, val);
    hide RelationallyConsistent, ScanAdopted, RowStructure, Lookup, RebuildPeer, PeerRawOk, FramingOf, ParseDomainKey, Sha, HeaderPvd;
  }

  lemma ReverseAlwaysPins(h: Hash, key: Octets, val: Octets)
    ensures var plan := RebuildPeer(h, 17, key, val);
      plan.Good? && plan.value.Some? ==>
        plan.value.value.expectPresent && plan.value.value.checkPvd && !plan.value.value.skipPvd
  {
    hide Extract, ParseDomainKey, KOver, KId128, KU64, ParseOwned, ParseSched, ParseIdem, ParseAttempt, ParseRc,
         FirstRaw16, SecondRaw16, EvmapTxn, SchedPrimary, ReservationPrimary, Clip;
  }

  // ----- where the structural gate does not return a verdict

  /** The subject does not fit the key of its owner kind. */
  predicate SubjectMisfits(s: Sched) {
    match s.ownerKind
    case 1 => |s.subject| != 16
    case 2 => |s.subject| > 255
    case 3 => |s.subject| != 8
    case _ => false
  }

  /** A scheduler body whose owner has no key: the owner is known and sequenced, the subject is not its identity. */
  predicate OwnerWithoutKey(body: Octets) {
    && ParseSched(body).Good? && ParseSched(body).value.ownerSeq != 0
    && SubjectMisfits(ParseSched(body).value)
  }

  lemma SchedulerBodyRaisesIff(h: Hash, body: Octets)
    ensures SchedStructure(h, body) == Raises <==> OwnerWithoutKey(body)
  {
    hide ParseSched, KeyDigest, KComposite, BKey;
  }

  /** A current, secondary scheduler record with such a body, under any scheduler key with an identity. */
  predicate RaisingRow(key: Octets, val: Octets) {
    && FramingOf(val) == Current && ParseDomainKey(key).Some? && Extract(val).Good?
    && RaisingRecord(ParseDomainKey(key).value, Extract(val).value)
  }

  predicate RaisingRecord(k: DomainKey, e: Envelope) {
    && k.family == 6 && k.subtype == ST_SCHED && k.ident != []
    && e.subtype == ST_SCHED && e.pvd != Zeros(32) && OwnerWithoutKey(e.body)
  }

  /**
   The gate is meant to return one of three verdicts on every row; it raises exactly on
   these scheduler rows.
   */
  lemma GateRaisesIff(h: Hash, key: Octets, val: Octets)
    ensures RowStructure(h, key, val) == Raises <==> RaisingRow(key, val)
  {
    hide SchedStructure, OwnerWithoutKey, Extract, ParseDomainKey, FramingOf, IngressStructure, CleanupStructure,
         AnchorStructure, ReservationStructure, Zeros;
    if ParseDomainKey(key).Some? && Extract(val).Good? {
      var e := Extract(val).value;
      SchedulerBodyRaisesIff(h, e.body);
      OthersReturn(h, ParseDomainKey(key).value, e);
    }
  }

  /** The other structural checks always return. */
  lemma OthersReturn(h: Hash, k: DomainKey, e: Envelope)
    ensures !IngressStructure(h, k, e.body).Raises? && !AnchorStructure(h, k, e.body).Raises?
    ensures !CleanupStructure(e.body, e.pvd).Raises? && !ReservationStructure(e.body).Raises?
  {
    hide ParseIngress, ParseOwned, ParseAnchor, KeyDigest, Splice, KComposite, FromBe, Raw16;
  }

  // ----- where a plan or a comparison does not return a verdict

  /** An owner of the kind that is keyed by 16 bytes, and that is not so long. */
  predicate OwnerMisfits(o: Res<Owned>, kind: nat) {
    o.Good? && o.value.kind == kind && |o.value.raw| != 16
  }

  predicate SchedMisfits(s: Res<Sched>) {
    && s.Good?
    && ((s.value.ownerKind == 1 && |s.value.subject| != 16) || (s.value.ownerKind == 3 && |s.value.subject| != 8))
  }

  /** A secondary record that names its primary by an identity of another length than the primary's key holds. */
  predicate IdentityMisfits(subtype: Byte, body: Octets) {
    || (subtype == ST_SEQ && |body| < 24)
    || (subtype in {ST_STATE, ST_ES, ST_RETRY} && |body| < 16)
    || (subtype == ST_AII && |body| < 32)
    || (subtype == ST_MGMT && |body| < 44)
    || (subtype == ST_IDEM && ParseIdem(body).Good? && |ParseIdem(body).value.txn| != 16)
    || (subtype == ST_EVMAP && EvmapTxn(body).Good? && |EvmapTxn(body).value| != 16)
    || (subtype == ST_SCHED && SchedMisfits(ParseSched(body)))
    || (subtype == ST_ATTEMPT && ParseAttempt(body).Good?
        && ParseAttempt(body).value.ownerKind == 1 && |ParseAttempt(body).value.ownerRaw| != 16)
    || (subtype == ST_RES && (OwnerMisfits(ParseOwned(body), 2)
        || (ParseOwned(body).Good? && ParseOwned(body).value.kind == 3 && |ParseOwned(body).value.raw| != 8)))
    || (subtype in {ST_CANCEL, ST_EVIDENCE} && OwnerMisfits(ParseOwned(body), 1))
    || (subtype == ST_RB && OwnerMisfits(ParseOwned(body), 2))
    || (subtype == ST_CP && OwnerMisfits(ParseOwned(body), 2) && ParseOwned(body).value.rawEnd + 64 <= |body|)
  }

  lemma ReverseRaisesIff(h: Hash, subtype: Byte, body: Octets)
    ensures ReversePlan(h, subtype, body).Broken? <==> IdentityMisfits(subtype, body)
  {
    hide ParseOwned, ParseIdem, EvmapTxn, ParseSched, ParseAttempt, ParseRc, FirstRaw16, SecondRaw16, KOver, KComposite,
         BKey, FromBe;
  }

  lemma OtherPlansReturn(h: Hash, mode: int, subtype: Byte, body: Octets)
    requires mode != 17
    ensures !BodyPlan(h, mode, subtype, body).Broken?
  {
    hide FromBe, BKey, KComposite, Raw16;
  }

  /** A plan is meant to be a peer, none, or an error; it raises in Mode 17 only, and exactly on such records. */
  lemma PlanRaisesIff(h: Hash, mode: int, key: Octets, val: Octets)
    ensures PlanOf(RebuildPeer(h, mode, key, val)) == PlanCrash <==>
      && mode == 17 && ParseDomainKey(key).Some? && ParseDomainKey(key).value.family == 6
      && Extract(val).Good? && IdentityMisfits(ParseDomainKey(key).value.subtype, Extract(val).value.body)
  {
    hide ParseDomainKey, Extract, ReversePlan, IdentityMisfits, ServicePlan, AnchorPlan, DeliveryPlan, IngressPlan,
         AttemptPlan, CallbackPlan, RetentionPlan, ParseAnchor, ParseDelivery, ParseIngress;
    if ParseDomainKey(key).Some? && Extract(val).Good? {
      var subtype, body := ParseDomainKey(key).value.subtype, Extract(val).value.body;
      if mode == 17 {
        ReverseRaisesIff(h, subtype, body);
      } else {
        OtherPlansReturn(h, mode, subtype, body);
      }
    }
  }

  /** The records whose bodies a comparison looks into, under the plan's material. */
  predicate LooksInto(mode: int, ev: PeerEval, subtype: Byte) {
    if ev.dualRaw.Some? && ev.dualRaw2.Some? then subtype == ST_IDEM || subtype == ST_ANCHOR
    else
      || (mode == 17 && IsPrimary(subtype))
      || (subtype == ST_SCHED && (OwnerDeclared(ev) || (ev.rawBijection && mode in {7, 13, 16})))
      || (subtype in {ST_RES, ST_RB} && OwnerDeclared(ev))
      || (subtype == ST_SERVICE && OwnerDeclared(ev) && ev.dualRaw.Some?)
      || (subtype == ST_ATTEMPT && ev.mode18Pair)
  }

  predicate BodyParses(subtype: Byte, body: Octets) {
    && (subtype == ST_IDEM ==> ParseIdem(body).Good?)
    && (subtype == ST_ANCHOR ==> ParseAnchor(body).Good?)
    && (subtype == ST_SERVICE ==> FirstRaw16(body).Good?)
    && (subtype == ST_INGRESS ==> ParseIngress(body).Good?)
    && (subtype == ST_DELIVERY ==> ParseDelivery(body).Good?)
    && (subtype == ST_SCHED ==> ParseSched(body).Good?)
    && (subtype in {ST_RES, ST_RB} ==> ParseOwned(body).Good?)
    && (subtype == ST_ATTEMPT ==> ParseAttempt(body).Good?)
  }

  /** The peer's digest and framing let the comparison begin. */
  predicate Comparable(h: Hash, mode: int, ev: PeerEval, source: Octets, peer: Octets) {
    && (ev.rawBijection || ev.dualRaw.Some? || ev.mode18Pair)
    && if mode == 17 then (ev.checkPvd && !ev.skipPvd ==> HeaderPvd(source) == Sha(h, peer)) && FramingOf(peer) == Current
       else ev.checkPvd && !ev.skipPvd && HeaderPvd(peer) != [] ==> HeaderPvd(peer) == Sha(h, source)
  }

  /** Comparing raises exactly when it looks into a body that does not parse. */
  lemma ComparisonRaisesIff(h: Hash, mode: int, ev: PeerEval, source: Octets, peer: Octets)
    ensures CheckPeer(h, mode, ev, source, peer) == CheckCrash <==>
      && Comparable(h, mode, ev, source, peer) && Extract(peer).Good?
      && LooksInto(mode, ev, Extract(peer).value.subtype)
      && !BodyParses(Extract(peer).value.subtype, Extract(peer).value.body)
  {
    hide Extract, HeaderPvd, Sha, FramingOf, ParseIdem, ParseAnchor, FirstRaw16, ParseIngress, ParseDelivery, ParseSched,
         ParseOwned, ParseAttempt, Clip, NestedDelivery;
  }

  /** Checking the row's peer raises. */
  predicate PeerRaises(h: Hash, mode: int, rows: seq<Row>, row: Row) {
    match RebuildPeer(h, mode, row.key, row.val)
    case Broken => true
    case Good(Some(ev)) =>
      (match Lookup(rows, ev.peerKey)
       case None => false
       case Some(peer) => ev.expectPresent && CheckPeer(h, mode, ev, row.val, peer) == CheckCrash)
    case _ => false
  }

  /** A row that a scan in the mode does not survive: one the gate raises on, or a well-formed one whose peer check raises. */
  predicate StopsScan(h: Hash, mode: int, rows: seq<Row>, row: Row) {
    || RaisingRow(row.key, row.val)
    || (ParseDomainKey(row.key).Some? && ClassifyRow(h, row.key, row.val) == RowTyped && PeerRaises(h, mode, rows, row))
  }

  lemma VerdictRaises(h: Hash, binding: Octets, mode: int, rows: seq<Row>, row: Row)
    ensures PeerVerdict(CrossRowEnv(h, binding, [], map[]), mode, rows, row) == CheckCrash <==> PeerRaises(h, mode, rows, row)
  {
    hide RebuildPeer, CheckPeer, Lookup;
  }

  lemma StoppingRowRaises(h: Hash, binding: Octets, mode: int, rows: seq<Row>, i: nat)
    requires i < |rows| && InPlace(rows, i) && StopsScan(h, mode, rows, rows[i])
    ensures RowRaises(CrossRowEnv(h, binding, [], map[]), true, mode, rows, i)
  {
    hide RowStructure, ClassifyRoot, InPlace, CatalogId, FramingOf, ParseDomainKey, Extract, RaisingRecord, PeerVerdict,
         PeerRaises;
    GateRaisesIff(h, rows[i].key, rows[i].val);
    DomainKeyIsCurrent(rows[i].key, rows[i].val);
    VerdictRaises(h, binding, mode, rows, rows[i]);
  }

  lemma GoodRecordIsGoodRow(h: Hash, binding: Octets, mode: int, rows: seq<Row>, j: nat)
    requires j < |rows| && InPlace(rows, j)
    requires CatalogId(rows[j].key).Some? || RecordGood(h, mode, rows, rows[j])
    ensures RowGood(CrossRowEnv(h, binding, [], map[]), true, ModeOf(true, mode), rows, j)
  {
    hide CrossRowEnv, DomainGood, RecordGood, InPlace, CatalogId;
    RecordIsDomain(h, binding, map[], mode, rows, rows[j]);
  }

  /** A scan of a snapshot with a matching profile stops at the first such row, when all before it is good. */
  lemma ScanStopsAtRow(h: Hash, binding: Octets, mode: int, rows: seq<Row>, budgets: seq<int>, i: nat)
    requires 1 <= mode <= 20 && i < |rows| && TotalBudget(budgets) > i
    requires ProfileMatches(binding, rows) && InPlace(rows, i) && StopsScan(h, mode, rows, rows[i])
    requires forall j :: 0 <= j < i ==>
      InPlace(rows, j) && (CatalogId(rows[j].key).Some? || RecordGood(h, mode, rows, rows[j]))
    ensures Run(CrossRowEnv(h, binding, [], map[]), FreshMachine(rows), ScanCalls(true, mode, budgets)) == Halted
  {
    var env := CrossRowEnv(h, binding, [], map[]);
    assert env.faults == [];
    hide ProfileComplete, ProfileValues, JudgeProfile, RecordGood, RowRaises, StopsScan, InPlace, CatalogId, RowStructure,
         ClassifyRoot, RowGood, Run, TotalBudget, ScanCalls, DomainGood, ClassifyRow, CheckPeer, RebuildPeer;
    assert ProfileExact(env, rows);
    hide ProfileExact, ProfileMatches;
    StoppingRowRaises(h, binding, mode, rows, i);
    forall j | 0 <= j < i ensures RowGood(env, true, ModeOf(true, mode), rows, j) {
      assert InPlace(rows, j);
      GoodRecordIsGoodRow(h, binding, mode, rows, j);
    }
    ScanRaises(env, true, mode, rows, budgets, i);
  }

  // ----- the scan without peers

  /** Everything the composition scan asks of a snapshot. */
  predicate Composed(binding: Octets, rows: seq<Row>) {
    && ProfileMatches(binding, rows)
    && forall i :: 0 <= i < |rows| ==>
         InPlace(rows, i) && (CatalogId(rows[i].key).Some? || ClassifyRoot(rows[i].key, rows[i].val) == CurrentRoot)
  }

  predicate CompositionAdopted(binding: Octets, rows: seq<Row>, budgets: seq<int>) {
    var calls := ScanCalls(false, 0, budgets);
    Adopted(calls, Run(CompositionEnv(binding, [], map[]), FreshMachine(rows), calls))
  }

  /**
   The composition scan adopts a snapshot if and only if its profile is exact, its rows are
   in order and within bounds, and no row is of a future root.
   */
  lemma CompositionDecides(binding: Octets, rows: seq<Row>, budgets: seq<int>)
    requires TotalBudget(budgets) > |rows|
    ensures CompositionAdopted(binding, rows, budgets) <==> Composed(binding, rows)
  {
    var env := CompositionEnv(binding, [], map[]);
    assert env.faults == [];
    assert ProfileExact(env, rows) <==> ProfileMatches(binding, rows) by {
      hide ProfileComplete, ProfileValues, JudgeProfile;
    }
    forall i | 0 <= i < |rows|
      ensures RowGood(env, false, 0, rows, i) <==>
        InPlace(rows, i) && (CatalogId(rows[i].key).Some? || ClassifyRoot(rows[i].key, rows[i].val) == CurrentRoot)
    {
      hide ClassifyRoot, InPlace, CatalogId;
    }
    hide CompositionEnv, ProfileExact, ProfileMatches, RowGood, InPlace, CatalogId, ClassifyRoot, Adopted, Run, TotalBudget;
    AdoptedIffConsistent(env, false, 0, rows, budgets);
  }
}
