/** Snapshots that show the laws are about something: adopted ones, a misfiled delivery, a row that raises. */
module Witness {
  import opened Octets
  import opened Catalog
  import opened Crc32c
  import opened Records
  import opened SessionMachine
  import opened Reconcile
  import opened Adoption
  import opened CrossRow
  import opened CrossRowLaws
  import opened Builders

  // ----- order

  lemma {:induction false} LessAfter(p: Octets, x: Octets, y: Octets)
    requires Less(x, y)
    ensures Less(p + x, p + y)
  {
    if p == [] {
      assert p + x == x && p + y == y;
    } else {
      LessAfter(p[1..], x, y);
      assert (p + x)[1..] == p[1..] + x && (p + y)[1..] == p[1..] + y;
    }
  }

  lemma {:induction false} PlacesAscend(rows: seq<Row>, n: nat)
    requires n <= |rows| && forall i :: 0 <= i < |rows| ==> InPlace(rows, i)
    ensures Ascending(rows[..n])
    decreases n
  {
    hide Less;
    if n > 0 {
      PlacesAscend(rows, n - 1);
      assert InPlace(rows, n - 1);
      AscendingExtends(rows, n - 1);
    }
  }

  // ----- the profile rows

  /** An empty record of version 1, sealed. */
  function ProfileBody(): (b: Octets)
    ensures |b| == 12 && b[..4] == NLR1 && b[6..8] == [0, 1]
  {
    NLR1 + [0, 0, 0, 1, 0, 0, 0, 0]
  }

  function ProfileValue(): (v: Octets)
    ensures |v| == 16
  {
    Sealed(ProfileBody())
  }

  lemma ProfileValueIsKnown()
    ensures !ProfileCorrupt(ProfileValue()) && !ProfileUnknown(ProfileValue())
  {
    hide CrcBytes, Sealed, ProfileBody, FromBe;
    SealedParts(ProfileBody());
    One();
    var v := ProfileValue();
    assert v[..12] == ProfileBody();
    assert v[..4] == v[..12][..4] && v[6..8] == v[..12][6..8];
  }

  lemma One()
    ensures FromBe([0, 1]) == 1
  {
  }

  function ProfileRow(id: nat): Row
    requires IsId(id)
  {
    Row(CatalogKey(id), ProfileValue())
  }

  /** The rows of the first n profile identities. */
  function ProfileRows(n: nat): (rows: seq<Row>)
    requires n <= 17
    ensures |rows| == n
  {
    if n == 0 then [] else ProfileRows(n - 1) + [ProfileRow(n)]
  }

  lemma {:induction false} ProfileRowAt(n: nat, id: nat)
    requires 1 <= id <= n <= 17
    ensures ProfileRows(n)[id - 1] == ProfileRow(id)
    decreases n
  {
    hide ProfileRow;
    if id < n {
      ProfileRowAt(n - 1, id);
    }
  }

  lemma KeysAscend(id: nat)
    requires 1 <= id < 17
    ensures Less(CatalogKey(id), CatalogKey(id + 1))
  {
    if id == 1 {
      LessAfter(ROOT_V1, [1], [2]);
    } else if id == 2 {
      LessAfter(ROOT_V1, [2], [3, 1]);
    } else if id < 6 {
      LessAfter(ROOT_V1, [3, id - 2], [3, id - 1]);
    } else if id == 6 {
      LessAfter(ROOT_V1, [3, 4], [4, 1]);
    } else {
      LessAfter(ROOT_V1, [4, id - 6], [4, id - 5]);
    }
  }

  /** Rows of family 6 in order. */
  predicate DomainRows(extra: seq<Row>) {
    forall i :: 0 <= i < |extra| ==>
      && WithinCaps(extra[i]) && (i > 0 ==> Less(extra[i - 1].key, extra[i].key))
      && |extra[i].key| > 8 && extra[i].key[..8] == ROOT_V1 && extra[i].key[8] == 6
  }

  function Snapshot(extra: seq<Row>): seq<Row> {
    ProfileRows(17) + extra
  }

  lemma DomainAfterCatalog(key: Octets)
    requires |key| > 8 && key[..8] == ROOT_V1 && key[8] == 6
    ensures Less(CatalogKey(17), key) && CatalogId(key).None?
  {
    assert key == ROOT_V1 + key[8..];
    LessAfter(ROOT_V1, [4, 11], key[8..]);
  }

  lemma SnapshotInPlace(extra: seq<Row>)
    requires DomainRows(extra)
    ensures forall i :: 0 <= i < |Snapshot(extra)| ==> InPlace(Snapshot(extra), i)
  {
    hide Less, CatalogId, CatalogKey, ProfileValue;
    var rows := Snapshot(extra);
    forall i | 0 <= i < |rows| ensures InPlace(rows, i) {
      if i < 17 {
        ProfileRowAt(17, i + 1);
        assert rows[i] == ProfileRow(i + 1);
        KeyIsShort(i + 1);
        if i > 0 {
          ProfileRowAt(17, i);
          assert rows[i - 1] == ProfileRow(i);
          KeysAscend(i);
        }
      } else {
        assert rows[i] == extra[i - 17];
        if i == 17 {
          ProfileRowAt(17, 17);
          assert rows[16] == ProfileRow(17);
          DomainAfterCatalog(rows[i].key);
        } else {
          assert rows[i - 1] == extra[i - 18];
        }
      }
    }
  }

  lemma KeyIsShort(id: nat)
    requires IsId(id)
    ensures 1 <= |CatalogKey(id)| <= 10
  {
  }

  lemma SnapshotHolds(extra: seq<Row>, i: nat)
    requires DomainRows(extra) && i < |Snapshot(extra)|
    ensures Lookup(Snapshot(extra), Snapshot(extra)[i].key) == Some(Snapshot(extra)[i].val)
  {
    hide Lookup, Less, InPlace, DomainRows, Snapshot;
    SnapshotInPlace(extra);
    PlacesAscend(Snapshot(extra), i + 1);
    LookupAscending(Snapshot(extra), i);
  }

  lemma ProfileHolds(extra: seq<Row>, id: nat)
    requires DomainRows(extra) && IsId(id)
    ensures Lookup(Snapshot(extra), CatalogKey(id)) == Some(ProfileValue())
  {
    hide Lookup, Less, CatalogKey, ProfileValue;
    SnapshotHolds(extra, id - 1);
    ProfileRowAt(17, id);
    assert Snapshot(extra)[id - 1] == ProfileRow(id);
  }

  lemma ProfileIsExact(binding: Octets, extra: seq<Row>)
    requires DomainRows(extra)
    ensures ProfileMatches(binding, Snapshot(extra))
  {
    hide Lookup, CatalogKey, ProfileValue, DomainRows, ProfileCorrupt, ProfileUnknown, Snapshot;
    var rows := Snapshot(extra);
    forall id | id in AllIds() ensures Lookup(rows, CatalogKey(id)) == Some(ProfileValue()) {
      ProfileHolds(extra, id);
    }
    ProfileValueIsKnown();
    assert forall id :: id in AllIds() ==> ProfileValues(rows)[id] == ProfileValue();
  }

  /** A snapshot of the profile and good domain rows is consistent. */
  lemma SnapshotIsConsistent(h: Hash, binding: Octets, mode: int, extra: seq<Row>)
    requires DomainRows(extra)
    requires forall i :: 0 <= i < |extra| ==> RecordGood(h, mode, Snapshot(extra), extra[i])
    ensures RelationallyConsistent(h, binding, mode, Snapshot(extra))
  {
    hide ProfileMatches, InPlace, RecordGood, CatalogKey, CatalogId, ProfileValue, DomainRows;
    ProfileIsExact(binding, extra);
    SnapshotInPlace(extra);
    var rows := Snapshot(extra);
    forall i | 0 <= i < |rows| ensures CatalogId(rows[i].key).Some? || RecordGood(h, mode, rows, rows[i]) {
      if i < 17 {
        ProfileRowAt(17, i + 1);
        assert rows[i] == ProfileRow(i + 1);
        CatalogIdOfKey(i + 1);
      } else {
        assert rows[i] == extra[i - 17];
      }
    }
  }

  /** The profile alone is adopted in every mode, however the budget is split. */
  lemma ProfileAloneIsAdopted(h: Hash, binding: Octets, mode: int, budgets: seq<int>)
    requires 1 <= mode <= 20 && TotalBudget(budgets) > 17
    ensures ScanAdopted(h, binding, mode, ProfileRows(17), budgets)
  {
    hide RelationallyConsistent, ScanAdopted, TotalBudget, RecordGood, ProfileRows;
    SnapshotIsConsistent(h, binding, mode, []);
    assert Snapshot([]) == ProfileRows(17);
    ScanDecidesConsistency(h, binding, mode, ProfileRows(17), budgets);
  }

  // ----- records of family 6

  function RecordMeta(): Meta {
    Meta(6, 1, 0, 1, Zeros(16), Zeros(32))
  }

  predicate Storable(e: Envelope) {
    |e.pvd| == 32 && 112 + |e.body| <= VALUE_CAP
  }

  function Record(subtype: Byte, kind: Byte, ident: Octets, e: Envelope): Row
    requires |ident| <= 32 && Storable(e)
  {
    Row(BKey(6, subtype, kind, ident), EncodeEnvelope(RecordMeta(), e))
  }

  lemma KeyReads(subtype: Byte, kind: Byte, ident: Octets)
    requires |ident| <= 32
    ensures var key := BKey(6, subtype, kind, ident);
      && ParseDomainKey(key) == Some(DomainKey(6, subtype, kind, ident))
      && 8 < |key| <= 45 && key[..8] == ROOT_V1 && key[8] == 6
  {
    KeyRoundTrip(DomainKey(6, subtype, kind, ident));
    hide ParseDomainKey;
    assert BKey(6, subtype, kind, ident)[..8] == ROOT_V1;
  }

  lemma ValueReads(e: Envelope)
    requires Storable(e)
    ensures var val := EncodeEnvelope(RecordMeta(), e);
      Extract(val) == Good(e) && FramingOf(val) == Current && |val| <= VALUE_CAP
  {
    hide Extract, FramingOf, EncodeEnvelope;
    EnvelopeRoundTrip(RecordMeta(), e);
  }

  /** A stored record reads as what was stored, and is a row of family 6. */
  lemma RecordReadsBack(subtype: Byte, kind: Byte, ident: Octets, e: Envelope)
    requires |ident| <= 32 && Storable(e)
    ensures var r := Record(subtype, kind, ident, e);
      && ParseDomainKey(r.key) == Some(DomainKey(6, subtype, kind, ident))
      && Extract(r.val) == Good(e) && FramingOf(r.val) == Current
      && WithinCaps(r) && |r.key| > 8 && r.key[..8] == ROOT_V1 && r.key[8] == 6
  {
    hide EncodeEnvelope, Extract, FramingOf, ParseDomainKey, BKey;
    KeyReads(subtype, kind, ident);
    ValueReads(e);
  }

  function Marked(): (pvd: Octets)
    ensures |pvd| == 32 && pvd != Zeros(32)
  {
    assert ([1] + Zeros(31))[0] != Zeros(32)[0];
    [1] + Zeros(31)
  }

  // ----- a row on which the gate raises

  /** A transaction owner with an empty subject. */
  function OwnerlessBody(): (body: Octets)
    ensures |body| == 14
  {
    Be64(1) + Be16(1) + Be16(1) + Raw16([]).value
  }

  lemma OwnerlessBodyHasNoKey()
    ensures OwnerWithoutKey(OwnerlessBody())
  {
    var before := Be64(1) + Be16(1) + Be16(1);
    Raw16RoundTrip(before, [], []);
    assert before + Raw16([]).value + [] == OwnerlessBody();
    Widths();
    BeRoundTrip(1, 8);
    BeRoundTrip(1, 2);
    hide Be64, Be16, Pow256, FromBe, Raw16;
    assert OwnerlessBody()[0..8] == Be64(1) && OwnerlessBody()[8..10] == Be16(1);
  }

  function OwnerlessRow(): Row {
    Record(ST_SCHED, 3, [1], Envelope(ST_SCHED, OwnerlessBody(), Marked()))
  }

  /** The gate raises on a row, and a scan of the profile and that row does not return. */
  lemma GateRaisesOnARow(h: Hash, binding: Octets, mode: int, budgets: seq<int>)
    requires 1 <= mode <= 20 && TotalBudget(budgets) > 17
    ensures RowStructure(h, OwnerlessRow().key, OwnerlessRow().val) == Raises
    ensures Run(CrossRowEnv(h, binding, [], map[]), FreshMachine(Snapshot([OwnerlessRow()])), ScanCalls(true, mode, budgets))
      == Halted
  {
    hide OwnerlessBody, OwnerWithoutKey, Extract, FramingOf, ParseDomainKey, RowStructure, ProfileMatches, InPlace,
         CatalogId, CatalogKey, ProfileValue, RecordGood, Run, ScanCalls, TotalBudget, Record;
    var r := OwnerlessRow();
    OwnerlessBodyHasNoKey();
    RecordReadsBack(ST_SCHED, 3, [1], Envelope(ST_SCHED, OwnerlessBody(), Marked()));
    GateRaisesIff(h, r.key, r.val);
    var extra := [r];
    ProfileIsExact(binding, extra);
    SnapshotInPlace(extra);
    var rows := Snapshot(extra);
    forall j | 0 <= j < 17 ensures CatalogId(rows[j].key).Some? {
      ProfileRowAt(17, j + 1);
      CatalogIdOfKey(j + 1);
    }
    ScanStopsAtRow(h, binding, mode, rows, budgets, 17);
  }

  // ----- a delivery stored under another identity

  const RAW: Octets := [7]
  const SEQUENCE: nat := 9

  /** The raw key, the sequence of its scheduler row, and no names. */
  function DeliveryBody(): (body: Octets)
    ensures |body| == 415
  {
    Raw16(RAW).value + Zeros(4) + Be64(SEQUENCE) + Zeros(400)
  }

  lemma DeliveryBodyReads()
    ensures ParseDelivery(DeliveryBody()).Good?
    ensures ParseDelivery(DeliveryBody()).value.raw == RAW && ParseDelivery(DeliveryBody()).value.schedSeq == SEQUENCE
  {
    hide FromBe, ToBe;
    var body := DeliveryBody();
    var after := Zeros(4) + Be64(SEQUENCE) + Zeros(400);
    Raw16RoundTrip([], RAW, after);
    assert [] + Raw16(RAW).value + after == body;
    assert body[7..15] == Be64(SEQUENCE);
    Widths();
    BeRoundTrip(SEQUENCE, 8);
    NamesSkipped(body, 247);
  }

  lemma NamesSkipped(body: Octets, off: nat)
    requires off + 2 < |body| && body[off] == 0 && body[off + 1] == 0 && body[off + 2] == 0
    ensures SkipTextIds(body, off, 3) == Good(off + 3)
  {
    assert SkipTextIds(body, off + 2, 1) == Good(off + 3);
    assert SkipTextIds(body, off + 1, 2) == Good(off + 3);
  }

  function Delivery(): Row {
    Record(ST_DELIVERY, 1, [1], Envelope(ST_DELIVERY, DeliveryBody(), Zeros(32)))
  }

  function Plain(): Work {
    Work(1, 1, 0)
  }

  lemma SchedBodyIsMade(h: Hash)
    ensures MakeSchedBody(h, SEQUENCE, 2, RAW, Plain()).Good?
    ensures |MakeSchedBody(h, SEQUENCE, 2, RAW, Plain()).value| <= 200
  {
    hide KeyDigest, KComposite, BKey;
  }

  function SchedulerOf(h: Hash): Row {
    SchedBodyIsMade(h);
    Record(ST_SCHED, 3, Be64(SEQUENCE),
           Envelope(ST_SCHED, MakeSchedBody(h, SEQUENCE, 2, RAW, Plain()).value, Sha(h, Delivery().val)))
  }

  lemma KeysInOrder(a: Byte, b: Byte, kind: Byte, other: Byte, x: Octets, y: Octets)
    requires a < b && |x| <= 32 && |y| <= 32
    ensures Less(BKey(6, a, kind, x), BKey(6, b, other, y))
  {
    var s, t := [6, a, 1, kind, |x|] + x, [6, b, 1, other, |y|] + y;
    assert s[0] == t[0] && s[1..][0] < t[1..][0];
    assert BKey(6, a, kind, x) == ROOT_V1 + s && BKey(6, b, other, y) == ROOT_V1 + t;
    LessAfter(ROOT_V1, s, t);
  }

  lemma MisfiledIsDomain(h: Hash)
    ensures DomainRows([SchedulerOf(h), Delivery()])
  {
    hide EncodeEnvelope, Extract, FramingOf, ParseDomainKey, BKey, DeliveryBody, MakeSchedBody, Sha, Less, Plain;
    SchedBodyIsMade(h);
    RecordReadsBack(ST_DELIVERY, 1, [1], Envelope(ST_DELIVERY, DeliveryBody(), Zeros(32)));
    RecordReadsBack(ST_SCHED, 3, Be64(SEQUENCE),
      Envelope(ST_SCHED, MakeSchedBody(h, SEQUENCE, 2, RAW, Plain()).value, Sha(h, Delivery().val)));
    KeysInOrder(ST_SCHED, ST_DELIVERY, 3, 1, Be64(SEQUENCE), [1]);
  }

  lemma SchedulerIsGood(h: Hash, rows: seq<Row>)
    requires Sha(h, Delivery().val) != Zeros(32)
    ensures RecordGood(h, 13, rows, SchedulerOf(h))
  {
    hide EncodeEnvelope, Extract, FramingOf, ParseDomainKey, BKey, MakeSchedBody, Sha, SchedStructure, ClassifyRoot, Plain,
         Delivery, Lookup, CheckPeer;
    SchedBodyIsMade(h);
    var e := Envelope(ST_SCHED, MakeSchedBody(h, SEQUENCE, 2, RAW, Plain()).value, Sha(h, Delivery().val));
    RecordReadsBack(ST_SCHED, 3, Be64(SEQUENCE), e);
    SchedBodyPassesGate(h, SEQUENCE, 2, RAW, Plain());
    DomainKeyIsCurrent(SchedulerOf(h).key, SchedulerOf(h).val);
    NotApplicableSched(h, SchedulerOf(h).key, SchedulerOf(h).val);
  }

  lemma NotApplicableSched(h: Hash, key: Octets, val: Octets)
    requires ParseDomainKey(key).Some? && ParseDomainKey(key).value.subtype == ST_SCHED
    ensures RebuildPeer(h, 13, key, val) == Good(None)
  {
    hide Extract, ParseDomainKey;
  }

  lemma DeliveryIsPlanned(h: Hash)
    ensures RebuildPeer(h, 13, Delivery().key, Delivery().val) ==
      Good(Some(WithOwner(Expecting(SchedulerOf(h).key), 2, RAW)))
    ensures RowStructure(h, Delivery().key, Delivery().val) == Fine
    ensures ParseDomainKey(Delivery().key) == Some(DomainKey(6, ST_DELIVERY, 1, [1]))
    ensures Extract(Delivery().val) == Good(Envelope(ST_DELIVERY, DeliveryBody(), Zeros(32)))
  {
    hide EncodeEnvelope, Extract, FramingOf, ParseDomainKey, BKey, MakeSchedBody, Sha, Plain, DeliveryBody, ParseDelivery,
         RebuildPeer, Zeros;
    var e := Envelope(ST_DELIVERY, DeliveryBody(), Zeros(32));
    RecordReadsBack(ST_DELIVERY, 1, [1], e);
    DeliveryBodyReads();
    DeliveryPlanned(h, Delivery().key, Delivery().val);
  }

  lemma StorableIsEncodable(e: Envelope)
    requires Storable(e)
    ensures Encodable(RecordMeta(), e)
  {
  }

  lemma SchedulerMeetsDelivery(h: Hash)
    ensures CheckPeer(h, 13, WithOwner(Expecting(SchedulerOf(h).key), 2, RAW), Delivery().val, SchedulerOf(h).val) == Met
  {
    hide BKey, MakeSchedBody, Sha, Plain, Delivery, CheckPeer, EncodeEnvelope, Encodable, RecordMeta;
    SchedBodyIsMade(h);
    var body := MakeSchedBody(h, SEQUENCE, 2, RAW, Plain()).value;
    var ev := WithOwner(Expecting(SchedulerOf(h).key), 2, RAW);
    StorableIsEncodable(Envelope(ST_SCHED, body, Sha(h, Delivery().val)));
    BuiltSchedulerIsMetIff(h, 13, ev, Delivery().val, RecordMeta(), SEQUENCE, 2, RAW, Plain(), body);
  }

  lemma DeliveryIsGood(h: Hash)
    ensures RecordGood(h, 13, Snapshot([SchedulerOf(h), Delivery()]), Delivery())
  {
    hide Extract, FramingOf, ParseDomainKey, ClassifyRoot, Delivery, SchedulerOf, Lookup, CheckPeer, RebuildPeer, DomainRows,
         RowStructure, ProfileRows, DeliveryBody;
    var extra := [SchedulerOf(h), Delivery()];
    MisfiledIsDomain(h);
    DeliveryIsPlanned(h);
    DomainKeyIsCurrent(Delivery().key, Delivery().val);
    SnapshotHolds(extra, 17);
    assert Snapshot(extra)[17] == SchedulerOf(h);
    SchedulerMeetsDelivery(h);
  }

  lemma CompositeIsLonger(h: Hash)
    ensures KOver(h, ST_DELIVERY, [], RAW) != Good(BKey(6, ST_DELIVERY, 1, [1]))
  {
    assert |KComposite(h, ST_DELIVERY, [] + Raw16(RAW).value)| == 45;
  }

  /**
   A delivery stored under another identity than its own passes the gate and is adopted in
   Mode 13, and its scheduler row does not lead back to it.
   */
  lemma MisfiledDeliveryIsAdopted(h: Hash, binding: Octets, budgets: seq<int>)
    requires TotalBudget(budgets) > 19 && Sha(h, Delivery().val) != Zeros(32)
    ensures var rows := Snapshot([SchedulerOf(h), Delivery()]);
      && ScanAdopted(h, binding, 13, rows, budgets)
      && !FoundAndBackTo(h, 13, rows, Delivery(), Delivery().key)
  {
    hide RelationallyConsistent, ScanAdopted, TotalBudget, RecordGood, DomainRows, SchedulerOf, Delivery, FoundAndBackTo,
         Extract, ParseDomainKey, ProfileRows, Lookup, RowStructure, RebuildPeer, Sha, KOver, DeliveryBody, ParseDelivery;
    var extra := [SchedulerOf(h), Delivery()];
    var rows := Snapshot(extra);
    MisfiledIsDomain(h);
    SchedulerIsGood(h, rows);
    DeliveryIsGood(h);
    SnapshotIsConsistent(h, binding, 13, extra);
    ScanDecidesConsistency(h, binding, 13, rows, budgets);
    assert rows[18] == Delivery();
    DeliveryIsPlanned(h);
    DeliveryBodyReads();
    DeliveryLeadsBackIff(h, binding, rows, budgets, 18);
    CompositeIsLonger(h);
    DeliveryKeyIs();
  }

  lemma DeliveryKeyIs()
    ensures Delivery().key == BKey(6, ST_DELIVERY, 1, [1])
  {
    hide BKey, EncodeEnvelope;
  }
}
