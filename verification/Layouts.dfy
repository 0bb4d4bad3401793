/** Record bodies as they are laid out field by field, and that the parsers read every field back. */
module Layouts {
  import opened Octets
  import opened Records
  import opened CrossRow
  import opened CrossRowDuties

  // ----- parts of a body

  /** What stands at a place, and what follows it. */
  predicate StandsAt(body: Octets, at: nat, part: Octets, rest: Octets) {
    at <= |body| && body[at..] == part + rest
  }

  lemma Part(body: Octets, at: nat, part: Octets, rest: Octets)
    requires StandsAt(body, at, part, rest)
    ensures at + |part| <= |body| && Clip(body, at, at + |part|) == part && body[at..at + |part|] == part
    ensures body[at + |part|..] == rest
  {
    assert body[at..at + |part|] == body[at..][..|part|];
    assert body[at + |part|..] == body[at..][|part|..];
  }

  lemma NumberPart(body: Octets, at: nat, n: nat, width: nat, rest: Octets)
    requires StandsAt(body, at, ToBe(n, width), rest) && n < Pow256(width)
    ensures Num(body, at, width) == n && body[at + width..] == rest && at + width <= |body|
  {
    Part(body, at, ToBe(n, width), rest);
    BeRoundTrip(n, width);
    hide ToBe, FromBe;
  }

  lemma FieldPart(body: Octets, at: nat, text: Octets, rest: Octets)
    requires StandsAt(body, at, Field(text), rest) && |text| <= 255
    ensures ParseRaw16(body, at) == Good(Parsed(text, at + 2 + |text|)) && body[at + 2 + |text|..] == rest
  {
    Part(body, at, Field(text), rest);
    FieldIsRaw16(text);
    Raw16RoundTrip(body[..at], text, rest);
    assert body == body[..at] + Raw16(text).value + rest;
    hide Field;
  }

  /** An identifier behind its length in one byte. */
  function Short(text: Octets): Octets
    requires |text| < 256
  {
    [|text|] + text
  }

  lemma ShortPart(body: Octets, at: nat, text: Octets, rest: Octets)
    requires |text| < 256 && StandsAt(body, at, Short(text), rest)
    ensures at + 1 + |text| <= |body| && body[at] == |text| && body[at + 1 + |text|..] == rest
  {
    Part(body, at, Short(text), rest);
    assert body[at] == body[at..][0];
  }

  function Three(a: Octets, b: Octets, c: Octets): Octets
    requires |a| < 256 && |b| < 256 && |c| < 256
  {
    Short(a) + (Short(b) + Short(c))
  }

  lemma ThreePart(body: Octets, at: nat, a: Octets, b: Octets, c: Octets, rest: Octets)
    requires |a| < 256 && |b| < 256 && |c| < 256 && StandsAt(body, at, Three(a, b, c), rest)
    ensures SkipTextIds(body, at, 3) == Good(at + 3 + |a| + |b| + |c|) && body[at + 3 + |a| + |b| + |c|..] == rest
  {
    hide Short;
    assert Three(a, b, c) + rest == Short(a) + (Short(b) + (Short(c) + rest));
    ShortPart(body, at, a, Short(b) + (Short(c) + rest));
    ShortPart(body, at + 1 + |a|, b, Short(c) + rest);
    ShortPart(body, at + 2 + |a| + |b|, c, rest);
    var z := at + 3 + |a| + |b| + |c|;
    assert SkipTextIds(body, z, 0) == Good(z);
    assert SkipTextIds(body, at + 2 + |a| + |b|, 1) == Good(z);
    assert SkipTextIds(body, at + 1 + |a|, 2) == Good(z);
  }

  // ----- small records

  lemma IdemReadsBack(scope: Octets, ikey: Octets, txn: Octets, rest: Octets)
    requires |scope| <= 255 && |ikey| <= 255 && |txn| == 16
    ensures ParseIdem(Field(scope) + (Field(ikey) + (txn + rest))) == Good(Idem(scope, ikey, txn))
  {
    hide Field, ParseRaw16;
    var body := Field(scope) + (Field(ikey) + (txn + rest));
    assert body[0..] == body;
    FieldPart(body, 0, scope, Field(ikey) + (txn + rest));
    FieldPart(body, 2 + |scope|, ikey, txn + rest);
    Part(body, 4 + |scope| + |ikey|, txn, rest);
  }

  lemma EvmapReadsBack(scope: Octets, event: Octets, txn: Octets, rest: Octets)
    requires |scope| <= 255 && |event| == |txn| == 16
    ensures EvmapTxn(Field(scope) + (event + (txn + rest))) == Good(txn)
  {
    hide Field, ParseRaw16;
    var body := Field(scope) + (event + (txn + rest));
    assert body[0..] == body;
    FieldPart(body, 0, scope, event + (txn + rest));
    Part(body, 2 + |scope|, event, txn + rest);
    Part(body, 18 + |scope|, txn, rest);
  }

  lemma AttemptReadsBack(attempt: Octets, kind: nat, reserved: Octets, owner: Octets, rest: Octets)
    requires |attempt| == 16 && kind < 0x1_0000 && |reserved| == 2 && |owner| <= 255
    ensures ParseAttempt(attempt + (ToBe(kind, 2) + (reserved + (Field(owner) + rest)))) == Good(Attempt(attempt, kind, owner))
  {
    assert Pow256(2) == 0x1_0000;
    hide Field, ParseRaw16, ToBe, FromBe, Pow256;
    var body := attempt + (ToBe(kind, 2) + (reserved + (Field(owner) + rest)));
    assert body[0..] == body;
    Part(body, 0, attempt, ToBe(kind, 2) + (reserved + (Field(owner) + rest)));
    NumberPart(body, 16, kind, 2, reserved + (Field(owner) + rest));
    Part(body, 18, reserved, Field(owner) + rest);
    FieldPart(body, 20, owner, rest);
  }

  lemma OwnedReadsBack(kind: nat, reserved: Octets, owner: Octets, rest: Octets)
    requires kind < 0x1_0000 && |reserved| == 2 && |owner| <= 255
    ensures ParseOwned(ToBe(kind, 2) + (reserved + (Field(owner) + rest))) == Good(Owned(kind, owner, 6 + |owner|))
  {
    assert Pow256(2) == 0x1_0000;
    hide Field, ParseRaw16, ToBe, FromBe, Pow256;
    var body := ToBe(kind, 2) + (reserved + (Field(owner) + rest));
    assert body[0..] == body;
    NumberPart(body, 0, kind, 2, reserved + (Field(owner) + rest));
    Part(body, 2, reserved, Field(owner) + rest);
    FieldPart(body, 4, owner, rest);
  }

  lemma SchedReadsBack(sequence: nat, kind: nat, work: Octets, subject: Octets, rest: Octets)
    requires sequence < 0x1_0000_0000_0000_0000 && kind < 0x1_0000 && |work| == 2 && |subject| <= 255
    ensures ParseSched(ToBe(sequence, 8) + (ToBe(kind, 2) + (work + (Field(subject) + rest)))) ==
      Good(Sched(sequence, kind, subject, 14 + |subject|))
  {
    assert Pow256(2) == 0x1_0000 && Pow256(8) == 0x1_0000_0000_0000_0000;
    hide Field, ParseRaw16, ToBe, FromBe, Pow256;
    var body := ToBe(sequence, 8) + (ToBe(kind, 2) + (work + (Field(subject) + rest)));
    assert body[0..] == body;
    NumberPart(body, 0, sequence, 8, ToBe(kind, 2) + (work + (Field(subject) + rest)));
    NumberPart(body, 8, kind, 2, work + (Field(subject) + rest));
    Part(body, 10, work, Field(subject) + rest);
    FieldPart(body, 12, subject, rest);
  }

  lemma ReplyReadsBack(reply: Octets, delivery: Octets, rest: Octets)
    requires |reply| <= 255 && |delivery| <= 255
    ensures SecondRaw16(Field(reply) + (Field(delivery) + rest)) == Good(delivery)
    ensures FirstRaw16(Field(reply) + (Field(delivery) + rest)) == Good(reply)
  {
    hide Field, ParseRaw16;
    var body := Field(reply) + (Field(delivery) + rest);
    assert body[0..] == body;
    FieldPart(body, 0, reply, Field(delivery) + rest);
    FieldPart(body, 2 + |reply|, delivery, rest);
  }

  // ----- primaries

  lemma DeliveryFront(body: Octets, at: nat, creation: Octets, sequence: nat, ids: Octets, parties: Octets, rest: Octets)
    requires |creation| == 4 && sequence < Pow256(8) && |ids| == 32 && |parties| == 200
    requires StandsAt(body, at, creation, ToBe(sequence, 8) + (ids + (parties + rest)))
    ensures Num(body, at + 4, 8) == sequence && at + 244 <= |body| && body[at + 244..] == rest
  {
    hide ToBe, Num, Pow256;
    Part(body, at, creation, ToBe(sequence, 8) + (ids + (parties + rest)));
    NumberPart(body, at + 4, sequence, 8, ids + (parties + rest));
    Part(body, at + 12, ids, parties + rest);
    Part(body, at + 44, parties, rest);
  }

  lemma DeliveryEnd(body: Octets, at: nat, a: Octets, b: Octets, c: Octets, versions: Octets, family: nat, rest: Octets)
    requires |a| < 256 && |b| < 256 && |c| < 256 && |versions| == 44 && family < Pow256(4)
    requires StandsAt(body, at, Three(a, b, c), versions + (ToBe(family, 4) + rest))
    ensures SkipTextIds(body, at, 3).Good? && Num(body, SkipTextIds(body, at, 3).value + 44, 4) == family
  {
    hide ToBe, Num, Pow256, Three, SkipTextIds;
    ThreePart(body, at, a, b, c, versions + (ToBe(family, 4) + rest));
    var f := at + 3 + |a| + |b| + |c|;
    ThreeInside(body, at, a, b, c, versions + (ToBe(family, 4) + rest));
    Part(body, f, versions, ToBe(family, 4) + rest);
    NumberPart(body, f + 44, family, 4, rest);
  }

  lemma ThreeInside(body: Octets, at: nat, a: Octets, b: Octets, c: Octets, rest: Octets)
    requires |a| < 256 && |b| < 256 && |c| < 256 && StandsAt(body, at, Three(a, b, c), rest)
    ensures at + 3 + |a| + |b| + |c| <= |body|
  {
    assert |body[at..]| == |Three(a, b, c)| + |rest|;
  }

  /** A delivery: its key, how it came to be, its scheduler sequence, its parties, its service and family. */
  lemma DeliveryReadsBack(raw: Octets, creation: Octets, sequence: nat, ids: Octets, parties: Octets,
                          a: Octets, b: Octets, c: Octets, versions: Octets, family: nat, rest: Octets)
    requires |raw| <= 255 && |creation| == 4 && sequence < Pow256(8) && |ids| == 32 && |parties| == 200
    requires |a| < 256 && |b| < 256 && |c| < 256 && |versions| == 44 && family < Pow256(4)
    ensures ParseDelivery(Field(raw) + (creation + (ToBe(sequence, 8) + (ids + (parties + (Three(a, b, c)
      + (versions + (ToBe(family, 4) + rest)))))))) == Good(Delivery(raw, sequence, family))
  {
    hide Field, ParseRaw16, ToBe, Pow256, Three, SkipTextIds, Num;
    var end := Three(a, b, c) + (versions + (ToBe(family, 4) + rest));
    var front := creation + (ToBe(sequence, 8) + (ids + (parties + end)));
    var body := Field(raw) + front;
    assert body[0..] == body;
    FieldPart(body, 0, raw, front);
    var o := 2 + |raw|;
    DeliveryFront(body, o, creation, sequence, ids, parties, end);
    DeliveryEnd(body, o + 244, a, b, c, versions, family, rest);
  }

  /** An ordered ingress record: sequence, owner, binding, message kind, transaction, source and target. */
  lemma IngressReadsBack(sequence: Octets, owner: nat, binding: nat, kinds: Octets, txn: Octets, ids: Octets,
                         sourceRuntime: Octets, sourceApp: Octets, sourceRest: Octets,
                         flags: Octets, targetRuntime: Octets, targetApp: Octets, rest: Octets)
    requires |sequence| == 8 && owner < 0x1_0000_0000_0000_0000 && binding < 0x1_0000 && |kinds| == 10 && |txn| == 16
    requires |ids| == 32 && |sourceRuntime| == |sourceApp| == 16 && |sourceRest| == 68
    requires |flags| == 4 && |targetRuntime| == |targetApp| == 16 && |rest| >= 64
    ensures ParseIngress(sequence + (ToBe(owner, 8) + (ToBe(binding, 2) + (kinds + (txn + (ids
      + (sourceRuntime + (sourceApp + (sourceRest + (flags + (targetRuntime + (targetApp + rest)))))))))))) ==
      Good(Ingress(sequence, owner, binding, txn, sourceRuntime, sourceApp, targetRuntime, targetApp))
  {
    assert Pow256(2) == 0x1_0000 && Pow256(8) == 0x1_0000_0000_0000_0000;
    hide ToBe, FromBe, Pow256;
    var r9 := flags + (targetRuntime + (targetApp + rest));
    var r6 := sourceRuntime + (sourceApp + (sourceRest + r9));
    var r3 := kinds + (txn + (ids + r6));
    var body := sequence + (ToBe(owner, 8) + (ToBe(binding, 2) + r3));
    assert body[0..] == body;
    Part(body, 0, sequence, ToBe(owner, 8) + (ToBe(binding, 2) + r3));
    NumberPart(body, 8, owner, 8, ToBe(binding, 2) + r3);
    NumberPart(body, 16, binding, 2, r3);
    Part(body, 18, kinds, txn + (ids + r6));
    Part(body, 28, txn, ids + r6);
    Part(body, 44, ids, r6);
    Part(body, 76, sourceRuntime, sourceApp + (sourceRest + r9));
    Part(body, 92, sourceApp, sourceRest + r9);
    Part(body, 108, sourceRest, r9);
    Part(body, 176, flags, targetRuntime + (targetApp + rest));
    Part(body, 180, targetRuntime, targetApp + rest);
    Part(body, 196, targetApp, rest);
    PartsOfIngress(body);
  }

  lemma PartsOfIngress(body: Octets)
    requires |body| >= 276
    ensures Num(body, 8, 8) == FromBe(body[8..16]) && Num(body, 16, 2) == FromBe(body[16..18])
  {
  }

  lemma AnchorFront(body: Octets, txn: Octets, sequence: nat, schema: Octets, family: nat, party: Octets, rest: Octets)
    requires |txn| == 16 && sequence < Pow256(8) && |schema| == 8 && family < Pow256(4) && |party| == 100
    requires StandsAt(body, 0, txn, ToBe(sequence, 8) + (schema + (ToBe(family, 4) + (party + rest))))
    ensures Clip(body, 0, 16) == txn && Num(body, 16, 8) == sequence && Num(body, 32, 4) == family
    ensures 136 <= |body| && body[136..] == rest
  {
    hide ToBe, Num, Pow256;
    Part(body, 0, txn, ToBe(sequence, 8) + (schema + (ToBe(family, 4) + (party + rest))));
    NumberPart(body, 16, sequence, 8, schema + (ToBe(family, 4) + (party + rest)));
    Part(body, 24, schema, ToBe(family, 4) + (party + rest));
    NumberPart(body, 32, family, 4, party + rest);
    Part(body, 36, party, rest);
  }

  lemma AnchorMiddle(body: Octets, at: nat, middle: Octets, event: Octets, deadlines: Octets, rest: Octets)
    requires |middle| == 112 && |event| == 16 && |deadlines| == 172
    requires StandsAt(body, at, middle, event + (deadlines + rest))
    ensures Clip(body, at + 112, at + 128) == event && at + 300 <= |body| && body[at + 300..] == rest
  {
    Part(body, at, middle, event + (deadlines + rest));
    Part(body, at + 112, event, deadlines + rest);
    Part(body, at + 128, deadlines, rest);
  }

  lemma AnchorEnd(body: Octets, at: nat, scope: Octets, ikey: Octets, digests: Octets, scheduled: nat, rest: Octets)
    requires |scope| <= 255 && |ikey| <= 255 && |digests| == 128 && scheduled < Pow256(8)
    requires StandsAt(body, at, Field(scope), Field(ikey) + (digests + (ToBe(scheduled, 8) + rest)))
    ensures ParseRaw16(body, at) == Good(Parsed(scope, at + 2 + |scope|))
    ensures ParseRaw16(body, at + 2 + |scope|) == Good(Parsed(ikey, at + 4 + |scope| + |ikey|))
    ensures var e := at + 4 + |scope| + |ikey|;
      e + 128 <= |body| && body[e..e + 128] == digests && Num(body, e + 128, 8) == scheduled
  {
    hide ToBe, Num, Pow256, Field, ParseRaw16;
    FieldPart(body, at, scope, Field(ikey) + (digests + (ToBe(scheduled, 8) + rest)));
    FieldPart(body, at + 2 + |scope|, ikey, digests + (ToBe(scheduled, 8) + rest));
    var e := at + 4 + |scope| + |ikey|;
    Part(body, e, digests, ToBe(scheduled, 8) + rest);
    NumberPart(body, e + 128, scheduled, 8, rest);
  }

  lemma AnchorParses(body: Octets, at: nat, event: Octets, scope: Octets, ikey: Octets)
    requires 36 + 100 <= |body| && SkipTextIds(body, 136, 3) == Good(at)
    requires Clip(body, at + 112, at + 128) == event
    requires ParseRaw16(body, at + 300) == Good(Parsed(scope, at + 302 + |scope|))
    requires ParseRaw16(body, at + 302 + |scope|) == Good(Parsed(ikey, at + 304 + |scope| + |ikey|))
    ensures ParseAnchor(body) == Good(Anchor(Clip(body, 0, 16), Num(body, 16, 8), Num(body, 32, 4), event, scope, ikey,
      at + 304 + |scope| + |ikey|, Num(body, at + 432 + |scope| + |ikey|, 8)))
  {
    hide Num, ParseRaw16, SkipTextIds, Clip;
  }

  /** A transaction anchor. */
  lemma AnchorReadsBack(txn: Octets, sequence: nat, schema: Octets, family: nat, party: Octets,
                        a: Octets, b: Octets, c: Octets, middle: Octets, event: Octets, deadlines: Octets,
                        scope: Octets, ikey: Octets, digests: Octets, scheduled: nat, rest: Octets)
    requires |txn| == 16 && sequence < Pow256(8) && |schema| == 8 && family < Pow256(4) && |party| == 100
    requires |a| < 256 && |b| < 256 && |c| < 256 && |middle| == 112 && |event| == 16 && |deadlines| == 172
    requires |scope| <= 255 && |ikey| <= 255 && |digests| == 128 && scheduled < Pow256(8)
    ensures var body := txn + (ToBe(sequence, 8) + (schema + (ToBe(family, 4) + (party + (Three(a, b, c) + (middle
      + (event + (deadlines + (Field(scope) + (Field(ikey) + (digests + (ToBe(scheduled, 8) + rest))))))))))));
      ParseAnchor(body).Good?
      && var r := ParseAnchor(body).value;
         && r.txn == txn && r.txnSeq == sequence && r.family == family && r.eventId == event
         && r.scope == scope && r.ikey == ikey && r.schedSeq == scheduled
         && r.ikeyEnd + 128 <= |body| && body[r.ikeyEnd..r.ikeyEnd + 128] == digests
  {
    hide Field, ParseRaw16, ToBe, Pow256, Three, SkipTextIds, Num, Clip, ParseAnchor;
    var end := Field(scope) + (Field(ikey) + (digests + (ToBe(scheduled, 8) + rest)));
    var mid := middle + (event + (deadlines + end));
    var ids := Three(a, b, c) + mid;
    var body := txn + (ToBe(sequence, 8) + (schema + (ToBe(family, 4) + (party + ids))));
    assert body[0..] == body;
    AnchorFront(body, txn, sequence, schema, family, party, ids);
    ThreePart(body, 136, a, b, c, mid);
    ThreeInside(body, 136, a, b, c, mid);
    var o := 139 + |a| + |b| + |c|;
    AnchorMiddle(body, o, middle, event, deadlines, end);
    AnchorEnd(body, o + 300, scope, ikey, digests, scheduled, rest);
    AnchorParses(body, o, event, scope, ikey);
  }

  /** A result cache record. */
  lemma ResultReadsBack(delivery: Octets, ids: Octets, state: nat, reply: Octets, generation: nat, timers: Octets,
                        token: nat, rest: Octets)
    requires |delivery| <= 255 && |ids| == 64 && state < 0x1_0000_0000 && |reply| == 20
    requires generation < 0x1_0000_0000_0000_0000 && |timers| == 168 && token < 0x1_0000_0000
    ensures ParseRc(Field(delivery) + (ids + (ToBe(state, 4) + (reply + (ToBe(generation, 8) + (timers + (ToBe(token, 4) + rest))))))) ==
      Good(ResultCache(delivery, state, generation, token))
  {
    assert Pow256(4) == 0x1_0000_0000 && Pow256(8) == 0x1_0000_0000_0000_0000;
    hide Field, ParseRaw16, ToBe, FromBe, Pow256;
    var r3 := ToBe(generation, 8) + (timers + (ToBe(token, 4) + rest));
    var r1 := ToBe(state, 4) + (reply + r3);
    var body := Field(delivery) + (ids + r1);
    assert body[0..] == body;
    FieldPart(body, 0, delivery, ids + r1);
    var o := 2 + |delivery|;
    Part(body, o, ids, r1);
    NumberPart(body, o + 64, state, 4, reply + r3);
    Part(body, o + 68, reply, r3);
    NumberPart(body, o + 88, generation, 8, timers + (ToBe(token, 4) + rest));
    Part(body, o + 96, timers, ToBe(token, 4) + rest);
    NumberPart(body, o + 264, token, 4, rest);
  }
}
