/**
 The whole of what a cross-row scan adopts, in terms of stored bytes and records: the profile, every row
 on its own, and the duties of the mode.
 */
module CrossRowSpec {
  import opened Octets
  import opened Catalog
  import opened Crc32c
  import opened Records
  import opened SessionMachine
  import opened Adoption
  import opened CrossRow
  import opened CrossRowLaws
  import opened CrossRowDuties

  // ----- a record on its own

  /** The digest by which a record names a key. */
  function NameOf(h: Hash, key: Octets): Octets {
    Sha(h, Ascii("NINLIL-DOMAIN-ENCODED-KEY-V1") + key)
  }

  /** A sealed domain record of the version given, of at most 4096 bytes behind its frame. */
  predicate SealedRecord(val: Octets, version: nat) {
    && |val| >= 16 && val[..4] == [0x4E, 0x4C, 0x52, 0x31]
    && FromBe(val[4..6]) == 6 && FromBe(val[6..8]) == version
    && FromBe(val[8..12]) <= 4096 && |val| == FromBe(val[8..12]) + 16
    && val[|val| - 4..] == CrcBytes(val[..|val| - 4])
  }

  lemma FramingIff(val: Octets)
    ensures FramingOf(val) == Current <==> |val| >= 112 && SealedRecord(val, 1)
    ensures FramingOf(val) == FutureVersion <==> |val| >= 16 && FromBe(val[6..8]) >= 2 && SealedRecord(val, FromBe(val[6..8]))
  {
    hide FromBe, CrcBytes;
  }

  /** Where an envelope keeps its subtype, its peer's digest and its body. */
  lemma EnvelopeIs(val: Octets)
    requires |val| >= 112 && SealedRecord(val, 1)
    ensures Extract(val).Good? <==> 108 + FromBe(val[104..108]) <= |val|
    ensures Extract(val).Good? ==>
      Extract(val).value == Envelope(val[14], val[108..108 + FromBe(val[104..108])], val[72..104])
  {
    hide FromBe, CrcBytes;
    var n := FromBe(val[104..108]);
    if 108 + n <= |val| {
      assert Clip(val, 108, 108 + n) == val[108..108 + n];
    }
  }

  /** The bytes of a key. */
  lemma KeyIs(subtype: Byte, kind: Byte, ident: Octets)
    requires |ident| <= 255
    ensures BKey(6, subtype, kind, ident) ==
      [0x4E, 0x49, 0x4E, 0x4C, 0x49, 0x4C, 0x00, 0x01, 6, subtype, 1, kind, |ident|] + ident
  {
  }

  predicate IngressWellFormed(h: Hash, k: DomainKey, body: Octets) {
    && |body| >= 276
    && k.kind == 3 && k.ident == body[0..8]
    && FromBe(body[0..8]) != 0 && FromBe(body[8..16]) != 0
    && (var message, binding := FromBe(body[20..24]), FromBe(body[16..18]);
        || (message in {1, 5} && binding in {2, 3})
        || (message in {2, 3, 4, 6} && binding == 1))
    && body[|body| - 32..] == NameOf(h, Digested(h, 0x23, [0, 3] + Field(body[0..8])))
  }

  /** A cleanup plan repeats the digest in its header behind its subject and a key digest. */
  predicate CleanupWellFormed(body: Octets, pvd: Octets) {
    && ParseOwned(body).Good?
    && var at := 6 + |ParseOwned(body).value.raw| + 32;
       at + 32 <= |body| && body[at..at + 32] == pvd && pvd != Zeros(32)
  }

  predicate AnchorWellFormed(h: Hash, k: DomainKey, body: Octets) {
    && ParseAnchor(body).Good?
    && var a := ParseAnchor(body).value;
       && 1 <= |a.scope| <= 255 && 1 <= |a.ikey| <= 255
       && k.kind == 2 && |k.ident| == 16 && k.ident == a.txn && a.txn != Zeros(16)
       && a.ikeyEnd + 64 <= |body|
       && body[a.ikeyEnd + 32..a.ikeyEnd + 64] == NameOf(h, Digested(h, 0x24, Field(a.scope) + Field(a.ikey)))
  }

  /** A callback reservation holds an 80-byte delivery key and a token that is not zero. */
  predicate ReservationWellFormed(body: Octets) {
    && ParseOwned(body).Good?
    && var o := ParseOwned(body).value;
       o.kind == 5 ==> |o.raw| >= 90 && FromBe(o.raw[0..2]) == 80 && FromBe(o.raw[82..90]) != 0
  }

  predicate SchedulerWellFormed(h: Hash, body: Octets) {
    && ParseSched(body).Good?
    && var s := ParseSched(body).value;
       var at := 14 + |s.subject|;
       && s.ownerSeq != 0 && OfScheduled(s).Some? && HasKey(OfScheduled(s).value)
       && Clip(body, at, at + 32) == NameOf(h, KeyOf(h, OfScheduled(s).value))
  }

  /** An envelope of its key's subtype; only primaries carry no digest of another row. */
  predicate EnvelopeWellFormed(h: Hash, k: DomainKey, e: Envelope) {
    && e.subtype == k.subtype && k.ident != []
    && (e.pvd == Zeros(32) <==> k.subtype in {0x10, 0x20, 0x27, 0x40})
    && (k.subtype == 0x27 ==> IngressWellFormed(h, k, e.body))
    && (k.subtype == 0x63 ==> CleanupWellFormed(e.body, e.pvd))
    && (k.subtype == 0x20 ==> AnchorWellFormed(h, k, e.body))
    && (k.subtype == 0x23 ==> ReservationWellFormed(e.body))
    && (k.subtype == 0x26 ==> SchedulerWellFormed(h, e.body))
  }

  /** A sealed record of version 1 whose envelope is well formed. */
  predicate WellFormed(h: Hash, k: DomainKey, val: Octets) {
    && |val| >= 112 && SealedRecord(val, 1) && 108 + FromBe(val[104..108]) <= |val|
    && EnvelopeWellFormed(h, k, Envelope(val[14], val[108..108 + FromBe(val[104..108])], val[72..104]))
  }

  lemma IngressIff(h: Hash, k: DomainKey, body: Octets)
    ensures IngressStructure(h, k, body) == Fine <==> IngressWellFormed(h, k, body)
  {
    TwoBytes(3);
    hide Be16, FromBe, Digested, KComposite, Ascii, Sha;
    if |body| >= 276 {
      FieldIsRaw16(body[0..8]);
      DigestedIs(h, 0x23, [0, 3] + Field(body[0..8]));
    }
  }

  lemma CleanupIff(body: Octets, pvd: Octets)
    ensures CleanupStructure(body, pvd) == Fine <==> CleanupWellFormed(body, pvd)
  {
    hide FromBe;
  }

  lemma SplicedIff(body: Octets, at: nat, digest: Octets)
    requires |digest| == 32
    ensures Splice(body, at, at + 32, digest) == body <==> at + 32 <= |body| && body[at..at + 32] == digest
  {
    var s := Splice(body, at, at + 32, digest);
    if at + 32 <= |body| {
      assert s[at..at + 32] == digest;
      assert body == body[..at] + body[at..at + 32] + body[at + 32..];
    } else {
      assert |s| != |body|;
    }
  }

  lemma AnchorFormIff(h: Hash, k: DomainKey, body: Octets)
    ensures AnchorStructure(h, k, body) == Fine <==> AnchorWellFormed(h, k, body)
  {
    hide ParseAnchor, Digested, KComposite, Ascii, Sha, Splice, Raw16, Field;
    if ParseAnchor(body).Good? {
      AnchorParts(body);
      var a := ParseAnchor(body).value;
      FieldIsRaw16(a.scope);
      FieldIsRaw16(a.ikey);
      DigestedIs(h, 0x24, Field(a.scope) + Field(a.ikey));
      if |a.scope| <= 255 && |a.ikey| <= 255 {
        SplicedIff(body, a.ikeyEnd + 32, KeyDigest(h, KComposite(h, 0x24, Field(a.scope) + Field(a.ikey))));
      }
    }
  }

  lemma ReservationIff(body: Octets)
    ensures ReservationStructure(body) == Fine <==> ReservationWellFormed(body)
  {
    hide ParseOwned, FromBe;
  }

  lemma PrimaryOfScheduled(h: Hash, s: Sched)
    ensures var p := OfScheduled(s);
      var r := SchedPrimary(h, s.ownerKind, s.subject);
      r.Good? <==> p.Some? && HasKey(p.value)
    ensures var p := OfScheduled(s);
      p.Some? && HasKey(p.value) ==> SchedPrimary(h, s.ownerKind, s.subject).value == KeyOf(h, p.value)
  {
    hide Digested, KOver, Field, BKey;
    OverIs(h, 0x40, [], s.subject);
    assert [] + Field(s.subject) == Field(s.subject);
  }

  lemma SubjectEnd(body: Octets)
    requires ParseSched(body).Good?
    ensures ParseSched(body).value.subjectEnd == 14 + |ParseSched(body).value.subject|
  {
    hide FromBe;
  }

  lemma SchedulerIff(h: Hash, body: Octets)
    ensures SchedStructure(h, body) == Fine <==> SchedulerWellFormed(h, body)
  {
    hide ParseSched, SchedPrimary, KeyOf, Ascii, Sha, HasKey;
    if ParseSched(body).Good? {
      SubjectEnd(body);
      PrimaryOfScheduled(h, ParseSched(body).value);
    }
  }

  lemma EnvelopeIff(h: Hash, key: Octets, val: Octets, k: DomainKey, e: Envelope)
    requires ParseDomainKey(key) == Some(k) && k.family == 6 && FramingOf(val) == Current && Extract(val) == Good(e)
    ensures RowStructure(h, key, val) == Fine <==> EnvelopeWellFormed(h, k, e)
  {
    hide ParseDomainKey, Extract, FramingOf, IngressStructure, CleanupStructure, AnchorStructure, ReservationStructure,
         SchedStructure, IngressWellFormed, CleanupWellFormed, AnchorWellFormed, ReservationWellFormed, SchedulerWellFormed,
         Zeros;
    IngressIff(h, k, e.body);
    CleanupIff(e.body, e.pvd);
    AnchorFormIff(h, k, e.body);
    ReservationIff(e.body);
    SchedulerIff(h, e.body);
  }

  lemma NotReadable(h: Hash, key: Octets, val: Octets)
    requires ParseDomainKey(key).Some? && ParseDomainKey(key).value.family == 6
    requires FramingOf(val) != Current || !Extract(val).Good?
    ensures RowStructure(h, key, val) != Fine
  {
    hide ParseDomainKey, Extract, FramingOf, IngressStructure, CleanupStructure, AnchorStructure, ReservationStructure,
         SchedStructure;
  }

  /** The gate accepts a family 6 row exactly when it is well formed. */
  lemma GateAcceptsIff(h: Hash, key: Octets, val: Octets)
    requires ParseDomainKey(key).Some? && ParseDomainKey(key).value.family == 6
    ensures RowStructure(h, key, val) == Fine <==> WellFormed(h, ParseDomainKey(key).value, val)
  {
    hide ParseDomainKey, Extract, FramingOf, RowStructure, EnvelopeWellFormed, SealedRecord, FromBe;
    FramingIff(val);
    if |val| >= 112 && SealedRecord(val, 1) {
      EnvelopeIs(val);
    }
    if FramingOf(val) == Current && Extract(val).Good? {
      EnvelopeIff(h, key, val, ParseDomainKey(key).value, Extract(val).value);
    } else {
      NotReadable(h, key, val);
    }
  }

  // ----- the profile

  predicate VersionOne(val: Octets) {
    && |val| >= 16 && val[..4] == [0x4E, 0x4C, 0x52, 0x31] && FromBe(val[6..8]) == 1
    && val[|val| - 4..] == CrcBytes(val[..|val| - 4])
  }

  function Widest(id: nat): nat {
    if id == 1 then 183 else if id == 2 then 84 else if id <= 6 then 32 else 68
  }

  /** The key of a profile row: the root, and one byte or two. */
  function ProfileKey(id: nat): Octets
    requires 1 <= id <= 17
  {
    [0x4E, 0x49, 0x4E, 0x4C, 0x49, 0x4C, 0x00, 0x01]
      + (if id <= 2 then [id] else if id <= 6 then [3, id - 2] else [4, id - 6])
  }

  predicate ProfileRow(rows: seq<Row>, id: nat)
    requires 1 <= id <= 17
  {
    var v := Lookup(rows, ProfileKey(id)); v.Some? && |v.value| <= Widest(id) && VersionOne(v.value)
  }

  /** Each of the seventeen rows is there and sealed; the binding, when it is complete, is the one asked for. */
  predicate ProfileSound(binding: Octets, rows: seq<Row>) {
    && (forall id :: 1 <= id <= 17 ==> ProfileRow(rows, id))
    && (var b := Lookup(rows, ProfileKey(1)); b.Some? && |b.value| >= 183 ==> b.value == binding)
  }

  lemma ProfileValueIff(val: Octets)
    ensures !ProfileCorrupt(val) && !ProfileUnknown(val) <==> VersionOne(val)
  {
    hide FromBe, CrcBytes;
  }

  lemma GateExactIff(binding: Octets, retained: map<nat, Octets>)
    ensures JudgeProfile(binding, retained) == Exact <==>
      && (forall id :: id in AllIds() ==> id in retained && !ProfileCorrupt(retained[id]) && !ProfileUnknown(retained[id]))
      && (1 in retained && |retained[1]| >= 183 ==> retained[1] == binding)
  {
    hide ProfileCorrupt, ProfileUnknown;
    if id :| id in AllIds() && id !in retained {
    }
  }

  lemma ProfileRowIff(rows: seq<Row>, id: nat)
    requires 1 <= id <= 17
    ensures var v := Lookup(rows, CatalogKey(id));
      ProfileRow(rows, id) <==>
        v.Some? && |v.value| <= Capacity(id) && !ProfileCorrupt(v.value) && !ProfileUnknown(v.value)
  {
    assert ProfileKey(id) == CatalogKey(id);
    hide ProfileCorrupt, ProfileUnknown, VersionOne, Lookup, CatalogKey, ProfileKey;
    if Lookup(rows, CatalogKey(id)).Some? {
      ProfileValueIff(Lookup(rows, CatalogKey(id)).value);
    }
  }

  lemma ProfileIff(binding: Octets, rows: seq<Row>)
    ensures ProfileMatches(binding, rows) <==> ProfileSound(binding, rows)
  {
    assert forall id: nat :: id in AllIds() <==> 1 <= id <= 17;
    assert ProfileKey(1) == CatalogKey(1);
    hide ProfileCorrupt, ProfileUnknown, ProfileRow, ProfileKey, Lookup, JudgeProfile, CatalogKey, Capacity, AllIds;
    forall id: nat | 1 <= id <= 17
      ensures var v := Lookup(rows, CatalogKey(id));
        ProfileRow(rows, id) <==>
          v.Some? && |v.value| <= Capacity(id) && !ProfileCorrupt(v.value) && !ProfileUnknown(v.value)
    {
      ProfileRowIff(rows, id);
    }
    if ProfileComplete(rows) {
      var retained := ProfileValues(rows);
      GateExactIff(binding, retained);
      assert forall id :: id in AllIds() ==> retained[id] == Lookup(rows, CatalogKey(id)).value;
      assert 1 in AllIds();
    } else {
      var id :| id in AllIds() && !(Lookup(rows, CatalogKey(id)).Some? && |Lookup(rows, CatalogKey(id)).value| <= Capacity(id));
      assert !ProfileRow(rows, id);
    }
  }

  // ----- rows

  predicate IsDomain(row: Row) {
    ParseDomainKey(row.key).Some? && ParseDomainKey(row.key).value.family == 6
  }

  /** The root of a later version of the key space. */
  predicate LaterRoot(key: Octets) {
    |key| >= 8 && key[..7] == [0x4E, 0x49, 0x4E, 0x4C, 0x49, 0x4C, 0x00] && key[7] >= 2
  }

  /** A sealed domain record of a later version. */
  predicate LaterRecord(val: Octets) {
    |val| >= 16 && FromBe(val[6..8]) >= 2 && SealedRecord(val, FromBe(val[6..8]))
  }

  /** A row on its own: in order, of bounded size, of this root, and well formed when it is a domain record. */
  predicate RowSound(h: Hash, rows: seq<Row>, i: nat)
    requires i < |rows|
  {
    var row := rows[i];
    && 1 <= |row.key| <= 255 && |row.val| <= 4096
    && (i > 0 ==> Less(rows[i - 1].key, row.key))
    && (CatalogId(row.key).None? ==>
         && !LaterRoot(row.key)
         && (IsDomain(row) ==> WellFormed(h, ParseDomainKey(row.key).value, row.val))
         && (ParseDomainKey(row.key).None? ==> !LaterRecord(row.val)))
  }

  lemma RootIff(key: Octets, val: Octets)
    ensures ClassifyRoot(key, val) == CurrentRoot <==> !LaterRoot(key)
  {
    assert ROOT_V1[..7] == [0x4E, 0x49, 0x4E, 0x4C, 0x49, 0x4C, 0x00];
    hide CrcValid;
  }

  /** How a row of this root is classified. */
  lemma ClassIff(h: Hash, key: Octets, val: Octets)
    ensures ClassifyRow(h, key, val) == RowTyped <==>
      && ParseDomainKey(key).Some?
      && (ParseDomainKey(key).value.family == 6 ==> WellFormed(h, ParseDomainKey(key).value, val))
    ensures ClassifyRow(h, key, val) == RowUntyped <==> ParseDomainKey(key).None? && !LaterRecord(val)
  {
    FramingIff(val);
    hide ParseDomainKey, WellFormed, FramingOf, RowStructure, SealedRecord, FromBe;
    FamilyFine(h, key, val);
    if ParseDomainKey(key).Some? && ParseDomainKey(key).value.family == 6 {
      GateAcceptsIff(h, key, val);
    }
  }

  lemma FamilyFine(h: Hash, key: Octets, val: Octets)
    ensures ParseDomainKey(key).None? ==> RowStructure(h, key, val) == Malformed
    ensures ParseDomainKey(key).Some? && ParseDomainKey(key).value.family != 6 ==> RowStructure(h, key, val) == Fine
  {
    hide ParseDomainKey, FramingOf, Extract;
  }

  // ----- the duties

  predicate Duty(h: Hash, mode: int, rows: seq<Row>, row: Row) {
    var st, body, source := (if ParseDomainKey(row.key).Some? then ParseDomainKey(row.key).value.subtype else 0), BodyOf(row.val), row.val;
    if mode in {1, 2} then st == 0x10 ==> ServiceDuty(h, mode, rows, source, body)
    else if 3 <= mode <= 10 then st == 0x20 ==> AnchorDuty(h, mode, rows, source, body)
    else if 11 <= mode <= 14 then st == 0x40 ==> DeliveryDuty(h, mode, rows, source, body)
    else if mode in {15, 16} then st == 0x27 ==> IngressDuty(h, mode, rows, source, body)
    else if mode == 17 then SecondaryDuty(h, rows, source, st, body)
    else if mode == 18 then (st == 0x31 ==> AttemptDuty(rows, body)) && (st == 0x34 ==> IndexDuty(h, rows, body))
    else if mode == 19 then st == 0x41 ==> CallbackDuty(h, rows, body)
    else (st == 0x22 ==> TransactionDuty(h, rows, body)) && (st == 0x41 ==> ResultDuty(h, rows, body))
  }

  lemma PlanOfDomain(h: Hash, mode: int, rows: seq<Row>, row: Row)
    requires IsDomain(row) && Extract(row.val).Good?
    ensures MeetsPeer(h, mode, rows, row) <==>
      PlanMet(h, mode, rows, row.val, BodyPlan(h, mode, ParseDomainKey(row.key).value.subtype, BodyOf(row.val)))
  {
    hide ParseDomainKey, Extract, BodyPlan, Lookup, CheckPeer;
  }

  lemma BodyDuty(h: Hash, mode: int, rows: seq<Row>, row: Row)
    requires Readable(rows) && 1 <= mode <= 20 && IsDomain(row) && Extract(row.val).Good?
    requires ParseDomainKey(row.key).value.subtype == 0x23 ==> CallbackNested(ParseOwned(BodyOf(row.val)))
    ensures PlanMet(h, mode, rows, row.val, BodyPlan(h, mode, ParseDomainKey(row.key).value.subtype, BodyOf(row.val)))
      <==> Duty(h, mode, rows, row)
  {
    hide Readable, PlanMet, ParseDomainKey, BodyOf, ServiceDuty, AnchorDuty, DeliveryDuty, IngressDuty, SecondaryDuty,
         AttemptDuty, IndexDuty, CallbackDuty, TransactionDuty, ResultDuty, CallbackNested, EvalMet;
    var st, body := ParseDomainKey(row.key).value.subtype, BodyOf(row.val);
    NothingToMeet(h, mode, rows, row.val);
    if mode in {1, 2} {
      ServiceIff(h, mode, rows, row.val, body);
    } else if 3 <= mode <= 10 {
      AnchorIff(h, mode, rows, row.val, body);
    } else if 11 <= mode <= 14 {
      DeliveryIff(h, mode, rows, row.val, body);
    } else if mode in {15, 16} {
      CrossRowDuties.IngressIff(h, mode, rows, row.val, body);
    } else if mode == 17 {
      SecondaryIff(h, rows, row.val, st, body);
    } else if mode == 18 {
      AttemptIff(h, rows, row.val, body);
      IndexIff(h, rows, row.val, body);
    } else if mode == 19 {
      CallbackIff(h, rows, row.val, body);
    } else {
      TransactionIff(h, rows, row.val, body);
      ResultIff(h, rows, row.val, body);
    }
    hide ReversePlan, ServicePlan, AnchorPlan, DeliveryPlan, IngressPlan, AttemptPlan, CallbackPlan, RetentionPlan;
  }

  lemma NothingToMeet(h: Hash, mode: int, rows: seq<Row>, source: Octets)
    ensures PlanMet(h, mode, rows, source, Good(None))
  {
  }

  // ----- adoption

  /** A snapshot that is sound in a mode: the profile, every row on its own, and every duty of the mode. */
  predicate SoundIn(h: Hash, binding: Octets, mode: int, rows: seq<Row>) {
    && ProfileSound(binding, rows)
    && (forall i :: 0 <= i < |rows| ==> RowSound(h, rows, i))
    && (forall i :: 0 <= i < |rows| && IsDomain(rows[i]) ==> Duty(h, mode, rows, rows[i]))
  }

  lemma SoundIsReadable(h: Hash, rows: seq<Row>)
    requires forall i :: 0 <= i < |rows| ==> RowSound(h, rows, i)
    ensures Readable(rows)
  {
    hide ParseDomainKey, Extract, FramingOf, WellFormed;
    forall i | 0 <= i < |rows| ensures ReadableRow(rows[i]) {
      assert RowSound(h, rows, i);
      if IsDomain(rows[i]) {
        DomainKeyIsCurrent(rows[i].key, rows[i].val);
        WellFormedIsReadable(h, ParseDomainKey(rows[i].key).value, rows[i].val);
      }
    }
  }

  lemma SoundDomain(h: Hash, rows: seq<Row>, i: nat)
    requires i < |rows| && RowSound(h, rows, i) && IsDomain(rows[i])
    ensures WellFormed(h, ParseDomainKey(rows[i].key).value, rows[i].val) && CatalogId(rows[i].key).None?
  {
    hide ParseDomainKey, WellFormed;
    DomainKeyIsCurrent(rows[i].key, rows[i].val);
  }

  lemma WellFormedIsReadable(h: Hash, k: DomainKey, val: Octets)
    requires WellFormed(h, k, val)
    ensures FramingOf(val) == Current && Extract(val).Good? && Extract(val).value.subtype == k.subtype
    ensures k.subtype == 0x23 ==> CallbackNested(ParseOwned(BodyOf(val)))
  {
    FramingIff(val);
    EnvelopeIs(val);
    hide ParseOwned, FromBe, Extract, FramingOf, SealedRecord, IngressWellFormed, CleanupWellFormed, AnchorWellFormed,
         SchedulerWellFormed, Zeros;
  }

  lemma DomainMeets(h: Hash, mode: int, rows: seq<Row>, row: Row)
    requires Readable(rows) && 1 <= mode <= 20 && IsDomain(row)
    requires WellFormed(h, ParseDomainKey(row.key).value, row.val)
    ensures MeetsPeer(h, mode, rows, row) <==> Duty(h, mode, rows, row)
  {
    WellFormedIsReadable(h, ParseDomainKey(row.key).value, row.val);
    hide Readable, ParseDomainKey, WellFormed, MeetsPeer, Duty, BodyPlan, CallbackNested, Extract;
    PlanOfDomain(h, mode, rows, row);
    BodyDuty(h, mode, rows, row);
  }

  lemma OtherFamilyMeets(h: Hash, mode: int, rows: seq<Row>, row: Row)
    requires !IsDomain(row)
    ensures MeetsPeer(h, mode, rows, row)
  {
    hide ParseDomainKey, Extract, BodyPlan;
  }

  /** What the machine asks of a row is what the specification asks of it. */
  lemma RowIff(h: Hash, mode: int, rows: seq<Row>, i: nat)
    requires i < |rows| && 1 <= mode <= 20
    ensures InPlace(rows, i) && (CatalogId(rows[i].key).Some? || RecordGood(h, mode, rows, rows[i])) <==>
      RowSound(h, rows, i) && (CatalogId(rows[i].key).None? && IsDomain(rows[i]) ==> MeetsPeer(h, mode, rows, rows[i]))
  {
    hide ParseDomainKey, WellFormed, MeetsPeer, LaterRecord, ClassifyRow, ClassifyRoot, CatalogId, Less, LaterRoot;
    var row := rows[i];
    RootIff(row.key, row.val);
    ClassIff(h, row.key, row.val);
    if !IsDomain(row) {
      OtherFamilyMeets(h, mode, rows, row);
    }
  }

  lemma ConsistentIff(h: Hash, binding: Octets, mode: int, rows: seq<Row>)
    requires 1 <= mode <= 20
    ensures RelationallyConsistent(h, binding, mode, rows) <==> SoundIn(h, binding, mode, rows)
  {
    hide InPlace, CatalogId, RecordGood, ProfileMatches, ProfileSound, RowSound, IsDomain, Duty, MeetsPeer;
    ProfileIff(binding, rows);
    forall i | 0 <= i < |rows|
      ensures InPlace(rows, i) && (CatalogId(rows[i].key).Some? || RecordGood(h, mode, rows, rows[i])) <==>
        RowSound(h, rows, i) && (CatalogId(rows[i].key).None? && IsDomain(rows[i]) ==> MeetsPeer(h, mode, rows, rows[i]))
    {
      RowIff(h, mode, rows, i);
    }
    if forall i :: 0 <= i < |rows| ==> RowSound(h, rows, i) {
      SoundIsReadable(h, rows);
      forall i | 0 <= i < |rows| && IsDomain(rows[i])
        ensures CatalogId(rows[i].key).None? && (MeetsPeer(h, mode, rows, rows[i]) <==> Duty(h, mode, rows, rows[i]))
      {
        SoundDomain(h, rows, i);
        assert IsDomain(rows[i]);
        DomainMeets(h, mode, rows, rows[i]);
      }
    }
  }

  /** A fault-free scan in any of the twenty modes adopts exactly the sound snapshots. */
  lemma AdoptedIffSound(h: Hash, binding: Octets, mode: int, rows: seq<Row>, budgets: seq<int>)
    requires 1 <= mode <= 20 && TotalBudget(budgets) > |rows|
    ensures ScanAdopted(h, binding, mode, rows, budgets) <==> SoundIn(h, binding, mode, rows)
  {
    hide ScanAdopted, RelationallyConsistent, SoundIn, TotalBudget;
    ScanDecidesConsistency(h, binding, mode, rows, budgets);
    ConsistentIff(h, binding, mode, rows);
  }

  /** Mode 4, spelled out: in an adopted snapshot every anchor's transaction has its state, pinned to the anchor. */
  lemma StateOfEveryAnchor(h: Hash, binding: Octets, rows: seq<Row>, budgets: seq<int>, i: nat)
    requires TotalBudget(budgets) > |rows| && ScanAdopted(h, binding, 4, rows, budgets)
    requires i < |rows| && IsRecord(rows[i], 0x20)
    ensures ParseAnchor(BodyOf(rows[i].val)).Good?
    ensures var txn := ParseAnchor(BodyOf(rows[i].val)).value.txn;
      |txn| == 16 && Linked(h, rows, BKey(6, 0x22, 2, txn), rows[i].val)
  {
    hide ParseAnchor, BKey, ProfileSound, RowSound, TotalBudget, ScanAdopted, ParseDomainKey, Linked, BodyOf;
    AdoptedIffSound(h, binding, 4, rows, budgets);
    assert IsDomain(rows[i]);
    assert Duty(h, 4, rows, rows[i]);
  }
}
