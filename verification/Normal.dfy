/** The `normal` scenario from end to end: one presence and one SOS, over clear air. */
module Normal {
  import opened Bits
  import opened Keys
  import E = EnvelopeV3
  import W = ProtoWire
  import opened Compact
  import opened Model
  import opened Heapq
  import opened Channel
  import opened Node
  import opened Pipeline
  import opened Theorems
  import opened Liveness
  import opened Phone
  import opened Scenario

  lemma PayloadsSmall(p: PhoneCfg, now: nat, safety: nat)
    ensures |E.PresenceBytes(PresenceAt(p, now))| < U64
    ensures |E.StatusBytes(SosAt(now, safety))| < U64
  {
    hide E.LocBytes, W.Write;
    var a, b := PresenceAt(p, now), SosAt(now, safety);
    E.LocSize(a.location);
    E.LocSize(b.location.value);
    var f, g := W.BlobField(1, a.anonUserId), W.BlobField(2, E.LocBytes(a.location));
    E.TwoSizes(f, 16, g, 240);
    W.WriteConcat(f + g, W.NumField(3, a.batteryHint));
    E.OneSize(W.NumField(3, a.batteryHint), 0);
    assert E.NeedsFields([]) == [];
    assert W.NumField(1, safety) + [] == W.NumField(1, safety);
    E.TwoSizes(W.NumField(1, safety), 0, [W.Blob(3, E.LocBytes(b.location.value))], 240);
  }

  /** Packing does not raise while the numbers fit. */
  lemma BuildSucceeds(p: PhoneCfg, counter: nat, now: nat, eventType: nat, priority: nat, payload: Bytes, validity: nat)
    requires counter < U32 && now + validity < U64 && eventType < U32 && priority < U32
    ensures var e := BuildEnvelope(p, counter, now, eventType, priority, payload, validity);
      && e.Some? && e.value.createdAt == E.Hlc(now, counter) && e.value.maxHops == 0
      && e.value.envelopeId == p.EnvelopeId(eventType, counter) && e.value.eventType == eventType
      && e.value.priority == priority && e.value.payload == payload
  {
    hide E.Canonical;
    var e := E.Envelope(E.PROTOCOL_VERSION_V3, p.EnvelopeId(eventType, counter), eventType, priority, E.Hlc(now, counter),
      E.Hlc(now + validity, 0), 0, p.crypto.publicKey(p.seed), E.SIG_ALGO_ED25519, [], payload, [], false, p.field.fieldId, []);
    E.CanonicalPackable(E.ClaimOf(p.crypto, e));
  }

  /** The effect of an ingest that stores without evicting. */
  lemma Stored(cfg: Cfg, s: Sys, l: Label, s': Sys, e: QueuedEvent, anon: map<Bytes, Bytes>)
    requires l.Ingest? && Next(cfg, s, l, s') && OnlyIngested(s)
    requires Decide(cfg.a, s.node, l.now, l.data) == Store(e, anon, [])
    ensures OnlyIngested(s') && s'.node.dropped == s.node.dropped && |s'.node.queue| == |s.node.queue| + 1
    ensures s'.node.seenBle == s.node.seenBle + {e.envelopeId} && s'.h.accepted == s.h.accepted + [e]
    ensures IsAccepted(l.out)
  {
    hide Decide;
    IngestOnly(cfg, s, l, s');
    IngestMoves(cfg, s, l, s');
    AcceptedIffNews(cfg.a, s.node, l.now, l.data, s'.node, l.out);
    assert |multiset(s'.node.queue) + multiset([])| == |multiset(s.node.queue) + multiset([e])|;
    assert Ids([e]) == {e.envelopeId};
  }

  function PriorityFor(eventType: nat): nat {
    if eventType == 1 then SOS_RED else 3
  }

  function PayloadFor(p: PhoneCfg, eventType: nat, now: nat): Bytes {
    if eventType == 1 then E.StatusBytes(SosAt(now, 4)) else E.PresenceBytes(PresenceAt(p, now))
  }

  /** What the phone's `presence` (type 3) or `sos` (type 1) builds. */
  function Built(p: PhoneCfg, eventType: nat, counter: nat, now: nat): Option<E.Envelope> {
    BuildEnvelope(p, counter, now, eventType, PriorityFor(eventType), PayloadFor(p, eventType, now), DEFAULT_VALIDITY_MS)
  }

  /** The bytes are those of such an envelope. */
  ghost predicate Offered(p: PhoneCfg, data: Bytes, eventType: nat, counter: nat, now: nat) {
    && (eventType == 1 || eventType == 3) && now <= INGEST_MS && counter < U32
    && Built(p, eventType, counter, now).Some?
    && data == E.EnvelopeBytes(Built(p, eventType, counter, now).value)
  }

  /** What the node queues for it: its id, a time-to-live that does not wrap, and the phone's clock. */
  ghost predicate QueuedFor(p: PhoneCfg, e: QueuedEvent, eventType: nat, counter: nat, now: nat) {
    e.envelopeId == p.EnvelopeId(eventType, counter) && e.ttl == DEFAULT_TTL && e.createdMs == now
  }

  lemma TakesFromPhone(p: PhoneCfg, cfg: NodeCfg, s: NodeState, data: Bytes, eventType: nat, counter: nat, now: nat)
    requires p.crypto.SignaturesVerify() && cfg.crypto == p.crypto && cfg.field == p.field
    requires Offered(p, data, eventType, counter, now)
    requires p.EnvelopeId(eventType, counter) !in s.seenBle && |s.queue| < cfg.maxQueueSize
    ensures var d := Decide(cfg, s, INGEST_MS, data);
      d.Store? && d.gone == [] && QueuedFor(p, d.event, eventType, counter, now)
  {
    PayloadsSmall(p, now, 4);
    var priority, payload := PriorityFor(eventType), PayloadFor(p, eventType, now);
    BuildSucceeds(p, counter, now, eventType, priority, payload, DEFAULT_VALIDITY_MS);
    var e := Built(p, eventType, counter, now).value;
    BuildersTranslate(p, cfg, s.anonByAuthor, now, 4, INGEST_MS, e);
    hide BuildEnvelope, Translate, Decide, E.EnvelopeBytes;
    NodeStores(p, cfg, s, counter, now, eventType, priority, payload, DEFAULT_VALIDITY_MS, INGEST_MS);
  }

  lemma TakenInTime(cfg: Cfg, p: PhoneCfg, e: QueuedEvent, f: QueuedEvent)
    requires ClearAir(cfg.air) && cfg.air.delayMsMax < 15800
    requires QueuedFor(p, e, 3, 1, 0) && QueuedFor(p, f, 1, 2, 1)
    ensures Undisturbed(cfg, [e, f])
  {
  }

  /** What the SOS and the presence come to at the gateway. */
  function SosReported(cfg: Cfg, p: PhoneCfg): Row {
    Row(p.EnvelopeId(1, 2), 1, 1, cfg.a.nodeNum % U16,
        SosView(p.anonUserId[..8], 4, Loc13(1, 250339805, 1215654177, 12, 0)))
  }

  function PresenceReported(cfg: Cfg, p: PhoneCfg): Row {
    Row(p.EnvelopeId(3, 1), 3, 3, cfg.a.nodeNum % U16, PresenceView(p.anonUserId[..8], 87, 1))
  }

  /** Phone and sender are on one field, the ids of the two envelopes differ, and both fit the queue. */
  ghost predicate Paired(cfg: Cfg, p: PhoneCfg) {
    && p.crypto.SignaturesVerify() && cfg.a.crypto == p.crypto && cfg.a.field == p.field
    && p.EnvelopeId(3, 1) != p.EnvelopeId(1, 2) && cfg.a.maxQueueSize >= 2
  }

  lemma OfferedAccepted(cfg: Cfg, ls: seq<Label>, i: nat, p: PhoneCfg, data: Bytes, out: IngestResult, eventType: nat, counter: nat, now: nat)
    requires SameField(cfg) && Paired(cfg, p) && Offered(p, data, eventType, counter, now)
    requires i < |ls| && ls[i] == Ingest(INGEST_MS, data, out) && IsAccepted(out)
    ensures AcceptedFromPhone(cfg, ls, i, p, counter, now, eventType, PriorityFor(eventType), PayloadFor(p, eventType, now), DEFAULT_VALIDITY_MS)
  {
    hide BuildEnvelope, E.StatusBytes, E.PresenceBytes, E.EnvelopeBytes;
    PayloadsSmall(p, now, 4);
  }

  /** The two labels at the start of the run. */
  ghost predicate BothAccepted(ls: seq<Label>, p: PhoneCfg, presence: Bytes, sos: Bytes, first: IngestResult, second: IngestResult) {
    && |ls| >= 2 && ls[0] == Ingest(INGEST_MS, presence, first) && ls[1] == Ingest(INGEST_MS, sos, second)
    && IsAccepted(first) && IsAccepted(second)
    && Offered(p, presence, 3, 1, 0) && Offered(p, sos, 1, 2, 1)
  }

  lemma LocationFits(now: nat, src: nat, accM: nat)
    requires now < U64 && src < U64 && accM < U64
    ensures E.LocFits(LocationAt(now, src, accM)) && |E.LocBytes(LocationAt(now, src, accM))| < U64
  {
    hide E.LocBytes;
    E.LocSize(LocationAt(now, src, accM));
  }

  lemma PayloadsFit(p: PhoneCfg)
    ensures E.PresenceFits(PresenceAt(p, 0)) && E.StatusFits(SosAt(1, 4))
  {
    hide E.LocBytes, E.LocFits, LocationAt;
    LocationFits(0, 1, 18);
    LocationFits(1, 1, 12);
  }

  lemma PresenceRow(cfg: Cfg, ss: seq<Sys>, ls: seq<Label>, p: PhoneCfg, data: Bytes, out: IngestResult)
    requires SameField(cfg) && |ss| == |ls| + 1 && Run(cfg, ss, ls) && Paired(cfg, p) && Offered(p, data, 3, 1, 0)
    requires |ls| >= 1 && ls[0] == Ingest(INGEST_MS, data, out) && IsAccepted(out)
    ensures var rows := ss[|ls|].rows; p.EnvelopeId(3, 1) in rows ==> rows[p.EnvelopeId(3, 1)] == PresenceReported(cfg, p)
  {
    hide E.PresenceBytes, E.StatusBytes, E.PresenceFits, E.StatusFits, Run, AcceptedFromPhone, Offered, Paired, IsAccepted;
    OfferedAccepted(cfg, ls, 0, p, data, out, 3, 1, 0);
    PayloadsFit(p);
    PresenceFromPhone(cfg, ss, ls, 0, |ls|, p, 1, 0, 3, PresenceAt(p, 0), DEFAULT_VALIDITY_MS);
  }

  lemma SosRow(cfg: Cfg, ss: seq<Sys>, ls: seq<Label>, p: PhoneCfg, data: Bytes, out: IngestResult)
    requires SameField(cfg) && |ss| == |ls| + 1 && Run(cfg, ss, ls) && Paired(cfg, p) && Offered(p, data, 1, 2, 1)
    requires |ls| >= 2 && ls[1] == Ingest(INGEST_MS, data, out) && IsAccepted(out)
    requires LastId(ls, 1, p.crypto.publicKey(p.seed)) == p.anonUserId
    ensures var rows := ss[|ls|].rows; p.EnvelopeId(1, 2) in rows ==> rows[p.EnvelopeId(1, 2)] == SosReported(cfg, p)
  {
    hide E.PresenceBytes, E.StatusBytes, E.PresenceFits, E.StatusFits, Run, AcceptedFromPhone, LastId, Offered, Paired, IsAccepted;
    OfferedAccepted(cfg, ls, 1, p, data, out, 1, 2, 1);
    PayloadsFit(p);
    SosFromPhone(cfg, ss, ls, 1, |ls|, p, 2, 1, SOS_RED, SosAt(1, 4), DEFAULT_VALIDITY_MS);
  }

  lemma RowsShown(cfg: Cfg, ss: seq<Sys>, ls: seq<Label>, p: PhoneCfg, presence: Bytes, sos: Bytes, first: IngestResult, second: IngestResult)
    requires SameField(cfg) && |ss| == |ls| + 1 && Run(cfg, ss, ls) && Paired(cfg, p) && BothAccepted(ls, p, presence, sos, first, second)
    ensures var rows := ss[|ls|].rows;
      && (p.EnvelopeId(3, 1) in rows ==> rows[p.EnvelopeId(3, 1)] == PresenceReported(cfg, p))
      && (p.EnvelopeId(1, 2) in rows ==> rows[p.EnvelopeId(1, 2)] == SosReported(cfg, p))
  {
    hide Run, Paired, Offered, LastId, IsAccepted, PresenceReported, SosReported, Anon8;
    PhoneRemembered(cfg, ls, p, presence, first);
    PresenceRow(cfg, ss, ls, p, presence, first);
    SosRow(cfg, ss, ls, p, sos, second);
  }

  /** The presence makes the node remember the phone's anonymous id. */
  lemma {:induction false} PhoneRemembered(cfg: Cfg, ls: seq<Label>, p: PhoneCfg, data: Bytes, out: IngestResult)
    requires Paired(cfg, p) && Offered(p, data, 3, 1, 0)
    requires |ls| >= 1 && ls[0] == Ingest(INGEST_MS, data, out) && IsAccepted(out)
    ensures LastId(ls, 1, p.crypto.publicKey(p.seed)) == p.anonUserId
  {
    hide BuildEnvelope, E.EnvelopeBytes, E.PresenceBytes, E.PresenceOf, E.EnvelopeOf, Screen, E.LocBytes, IsAccepted;
    PayloadsSmall(p, 0, 4);
    E.LocSize(LocationAt(0, 1, 18));
    BuiltFields(p, 1, 0, 3, 3, PayloadFor(p, 3, 0), DEFAULT_VALIDITY_MS);
    NodeAgrees(p, cfg.a, 1, 0, 3, 3, PayloadFor(p, 3, 0), DEFAULT_VALIDITY_MS, INGEST_MS);
    E.PresenceRoundTrip(PresenceAt(p, 0));
  }

  /** One of the phone's envelopes, handed to the sender and taken. */
  method Hand(lab: Lab, ghost p: PhoneCfg, data: Bytes, ghost eventType: nat, ghost counter: nat, ghost now: nat)
    returns (out: IngestResult, ghost e: QueuedEvent)
    requires lab.Valid() && OnlyIngested(lab.Now()) && Paired(lab.cfg, p) && Offered(p, data, eventType, counter, now)
    requires p.EnvelopeId(eventType, counter) !in lab.nodeA.seenBle && |lab.nodeA.queue| < lab.cfg.a.maxQueueSize
    modifies lab.Objects()
    ensures lab.Valid() && OnlyIngested(lab.Now()) && lab.Stepped(old(lab.ss), old(lab.ls), Ingest(INGEST_MS, data, out))
    ensures QueuedFor(p, e, eventType, counter, now) && lab.Now().h.accepted == old(lab.Now().h.accepted) + [e]
    ensures lab.nodeA.dropped == old(lab.nodeA.dropped) && |lab.nodeA.queue| == |old(lab.nodeA.queue)| + 1
    ensures lab.nodeA.seenBle == old(lab.nodeA.seenBle) + {e.envelopeId}
    ensures IsAccepted(out)
  {
    hide Decide, Inv, Run, Next, Offered, OnlyIngested;
    ghost var s := lab.Now();
    TakesFromPhone(p, lab.cfg.a, s.node, data, eventType, counter, now);
    ghost var d := Decide(lab.cfg.a, s.node, INGEST_MS, data);
    e := d.event;
    out := lab.Send(data);
    Stored(lab.cfg, s, Ingest(INGEST_MS, data, out), lab.Now(), e, d.anon);
  }

  lemma IdOf(p: PhoneCfg, e: QueuedEvent, eventType: nat, counter: nat, now: nat)
    requires QueuedFor(p, e, eventType, counter, now)
    ensures e.envelopeId == p.EnvelopeId(eventType, counter)
  {
  }

  lemma IdsOfTwo(e: QueuedEvent, f: QueuedEvent)
    ensures Ids([e, f]) == {e.envelopeId, f.envelopeId}
  {
    assert [e, f] == [e] + [f];
    IdsConcat([e], [f]);
    assert Ids([e]) == {e.envelopeId} && Ids([f]) == {f.envelopeId};
  }

  /** The phone's presence at 0 and SOS at 1. */
  method TwoEvents(phone: FakePhone) returns (presence: PhoneEvent, sos: PhoneEvent)
    requires phone.counter == 0
    modifies phone
    ensures Offered(phone.cfg, presence.envelopeBytes, 3, 1, 0) && Offered(phone.cfg, sos.envelopeBytes, 1, 2, 1)
  {
    hide BuildEnvelope, E.StatusBytes, E.PresenceBytes, E.EnvelopeBytes;
    BuildSucceeds(phone.cfg, 1, 0, 3, 3, PayloadFor(phone.cfg, 3, 0), DEFAULT_VALIDITY_MS);
    BuildSucceeds(phone.cfg, 2, 1, 1, SOS_RED, PayloadFor(phone.cfg, 1, 1), DEFAULT_VALIDITY_MS);
    var built := phone.Presence(0);
    presence := built.value;
    built := phone.Sos(1, 4);
    sos := built.value;
  }

  /** Both handed to the sender, which takes both. */
  method HandBoth(lab: Lab, ghost p: PhoneCfg, presence: PhoneEvent, sos: PhoneEvent)
    returns (accepted: nat, ghost e: QueuedEvent, ghost f: QueuedEvent, ghost first: IngestResult, ghost second: IngestResult)
    requires lab.Valid() && lab.ls == [] && Paired(lab.cfg, p)
    requires Offered(p, presence.envelopeBytes, 3, 1, 0) && Offered(p, sos.envelopeBytes, 1, 2, 1)
    modifies lab.Objects()
    ensures lab.Valid() && OnlyIngested(lab.Now()) && lab.nodeA.dropped == []
    ensures accepted == 2 && lab.Now().h.accepted == [e, f]
    ensures QueuedFor(p, e, 3, 1, 0) && QueuedFor(p, f, 1, 2, 1)
    ensures |lab.ls| == 2 && BothAccepted(lab.ls, p, presence.envelopeBytes, sos.envelopeBytes, first, second)
  {
    hide Inv, Run, Next, OnlyIngested, Offered, QueuedFor;
    FreshLab(lab);
    accepted := 0;
    var out;
    out, e := Hand(lab, p, presence.envelopeBytes, 3, 1, 0);
    if IsAccepted(out) {
      accepted := accepted + 1;
    }
    first := out;
    IdOf(p, e, 3, 1, 0);
    out, f := Hand(lab, p, sos.envelopeBytes, 1, 2, 1);
    if IsAccepted(out) {
      accepted := accepted + 1;
    }
    second := out;
  }

  /** A presence and an SOS from the phone, handed to the sender and carried over clear air, are both
      at the gateway when the loop stops early, as it does, and nothing else is, each row showing what
      the phone reported. The two envelope ids are taken to differ. */
  method RunNormal(lab: Lab, phone: FakePhone) returns (early: bool)
    requires lab.Valid() && lab.ls == [] && phone.counter == 0 && Paired(lab.cfg, phone.cfg)
    requires ClearAir(lab.cfg.air) && lab.cfg.air.delayMsMax < 15800
    modifies lab.Objects(), phone
    ensures early && lab.Valid() && lab.nodeA.dropped == []
    ensures lab.gateway.events == map[
      phone.cfg.EnvelopeId(3, 1) := PresenceReported(lab.cfg, phone.cfg),
      phone.cfg.EnvelopeId(1, 2) := SosReported(lab.cfg, phone.cfg)]
  {
    hide Inv, Run, OnlyIngested, Offered, Undisturbed, QueuedFor, PresenceReported, SosReported, IsAccepted;
    ghost var p := phone.cfg;
    var presence, sos := TwoEvents(phone);
    var accepted;
    ghost var e, f, first, second;
    accepted, e, f, first, second := HandBoth(lab, p, presence, sos);
    TakenInTime(lab.cfg, p, e, f);
    ghost var rounds;
    early, rounds := Deliver(lab, accepted);
    AllDelivered(lab.cfg, lab.Now());
    IdOf(p, e, 3, 1, 0);
    IdOf(p, f, 1, 2, 1);
    IdsOfTwo(e, f);
    RowsShown(lab.cfg, lab.ss, lab.ls, p, presence.envelopeBytes, sos.envelopeBytes, first, second);
  }
}
