/** Inputs a node can receive on which the code falls short: an envelope whose time-to-live wraps to
    zero on air, and one that costs a queued event its place for nothing. */
module Findings {
  import opened Bits
  import opened Keys
  import opened ProtoWire
  import E = EnvelopeV3
  import L = LoraV1
  import opened Model
  import opened Heapq
  import opened Channel
  import opened Node
  import opened Pipeline
  import opened Phone
  import opened Normal
  import opened Admission

  // ---------------------------------------------------------------- a time-to-live that wraps

  /** A presence with a number of hops of the signer's choice. */
  function HopsDraft(p: PhoneCfg, counter: nat, now: nat, hops: nat): E.Envelope {
    Unsigned(p, counter, now, 3, 3, E.PresenceBytes(PresenceAt(p, now)), now + DEFAULT_VALIDITY_MS).(maxHops := hops)
  }

  lemma HopsDraftSigns(p: PhoneCfg, counter: nat, now: nat, hops: nat)
    requires counter < U32 && now + DEFAULT_VALIDITY_MS < U64 && hops < U32
    ensures Draft(p, HopsDraft(p, counter, now, hops)) && Signed(p, HopsDraft(p, counter, now, hops)).Some?
    ensures var v := Signed(p, HopsDraft(p, counter, now, hops)).value;
      v.maxHops == hops && v.eventType == 3 && v.priority == 3 && v.payload == E.PresenceBytes(PresenceAt(p, now)) && v.envelopeId == p.EnvelopeId(3, counter)
  {
    hide E.Canonical, E.PresenceBytes;
    PayloadsSmall(p, now, 4);
    E.CanonicalPackable(E.ClaimOf(p.crypto, HopsDraft(p, counter, now, hops)));
  }

  /** The node stores it, with a time-to-live of as many hops. */
  lemma HopsStored(p: PhoneCfg, cfg: NodeCfg, s: NodeState, counter: nat, now: nat, hops: nat, later: int)
    requires p.crypto.SignaturesVerify() && cfg.crypto == p.crypto && cfg.field == p.field
    requires counter < U32 && now + DEFAULT_VALIDITY_MS < U64 && 0 < hops < U32 && later <= now + DEFAULT_VALIDITY_MS
    requires p.EnvelopeId(3, counter) !in s.seenBle && |s.queue| < cfg.maxQueueSize
    ensures Signed(p, HopsDraft(p, counter, now, hops)).Some?
    ensures var d := Decide(cfg, s, later, E.EnvelopeBytes(Signed(p, HopsDraft(p, counter, now, hops)).value));
      d.Store? && d.gone == [] && d.event.ttl == hops && GoodEvent(d.event)
      && d.event.envelopeId == p.EnvelopeId(3, counter) && d.event.priority == 3
  {
    HopsDraftSigns(p, counter, now, hops);
    var draft := HopsDraft(p, counter, now, hops);
    var v := Signed(p, draft).value;
    StoredIsGood(cfg, s, later, E.EnvelopeBytes(v));
    BuildersTranslate(p, cfg, s.anonByAuthor, now, 4, later, v);
    hide Signed, Decide, Translate, E.EnvelopeBytes, E.PresenceBytes, GoodEvent;
    SignedStored(p, cfg, s, draft, later);
  }

  /** A signed envelope with max_hops a multiple of 256, 256 itself for one, is accepted, its frame is SENT
      by a channel that neither defers, loses nor corrupts it, and no receiver of the field, whatever
      its clock and ring, takes that frame: the answer is always ttl-expired. */
  lemma WrappedHopsAreLost(p: PhoneCfg, cfg: Cfg, s: NodeState, counter: nat, now: nat, hops: nat, later: int,
                           packetSeq: nat, delay: int, duplicate: bool, ring: set<Bytes>, clock: int)
    requires SameField(cfg) && p.crypto.SignaturesVerify() && cfg.a.crypto == p.crypto && cfg.a.field == p.field
    requires counter < U32 && now + DEFAULT_VALIDITY_MS < U64 && later <= now + DEFAULT_VALIDITY_MS
    requires 0 < hops < U32 && hops % 256 == 0
    requires p.EnvelopeId(3, counter) !in s.seenBle && |s.queue| < cfg.a.maxQueueSize
    ensures Signed(p, HopsDraft(p, counter, now, hops)).Some?
    ensures var d := Decide(cfg.a, s, later, E.EnvelopeBytes(Signed(p, HopsDraft(p, counter, now, hops)).value));
      && d.Store? && d.event.ttl == hops && Framable(d.event)
      && var f := BuildFrame(cfg.a, d.event, packetSeq, cfg.b.nodeId);
         && OutcomeOf(f, DrawClear(delay, duplicate)) == SENT
         && Reception(cfg.b, ring, f, Some(clock)) == Dropped(L.TtlExpired)
         && RingAfter(cfg.b, ring, f, Some(clock)) == ring
  {
    HopsStored(p, cfg.a, s, counter, now, hops, later);
    var e := Decide(cfg.a, s, later, E.EnvelopeBytes(Signed(p, HopsDraft(p, counter, now, hops)).value)).event;
    hide Decide, Signed, E.EnvelopeBytes, HopsDraft;
    WrappedFrame(cfg, e, packetSeq, ring, clock);
  }

  lemma WrappedFrame(cfg: Cfg, e: QueuedEvent, packetSeq: nat, ring: set<Bytes>, clock: int)
    requires SameField(cfg) && GoodEvent(e) && e.ttl % 256 == 0
    ensures var f := BuildFrame(cfg.a, e, packetSeq, cfg.b.nodeId);
      && f.ttl == e.ttl && Reception(cfg.b, ring, f, Some(clock)) == Dropped(L.TtlExpired)
      && RingAfter(cfg.b, ring, f, Some(clock)) == ring
  {
    var f := BuildFrame(cfg.a, e, packetSeq, cfg.b.nodeId);
    assert Carries(cfg, f, e);
    IntactVerdict(cfg, ring, f, e, clock);
    hide Checked, RawFrame;
    assert ring + {} == ring;
  }

  // ---------------------------------------------------------------- an eviction for nothing

  const UNKNOWN_TYPE: nat := 50

  /** An envelope of a type no node translates. */
  function SpoiltDraft(p: PhoneCfg, counter: nat, now: nat): E.Envelope {
    Unsigned(p, counter, now, UNKNOWN_TYPE, SOS_RED, [], now + DEFAULT_VALIDITY_MS)
  }

  lemma SpoiltSigns(p: PhoneCfg, counter: nat, now: nat)
    requires counter < U32 && now + DEFAULT_VALIDITY_MS < U64
    ensures Draft(p, SpoiltDraft(p, counter, now)) && Signed(p, SpoiltDraft(p, counter, now)).Some?
    ensures var v := Signed(p, SpoiltDraft(p, counter, now)).value;
      v.eventType == UNKNOWN_TYPE && v.priority == SOS_RED && v.envelopeId == p.EnvelopeId(UNKNOWN_TYPE, counter)
  {
    hide E.Canonical;
    E.CanonicalPackable(E.ClaimOf(p.crypto, SpoiltDraft(p, counter, now)));
  }

  function SpoiltBytes(p: PhoneCfg, counter: nat, now: nat): Bytes {
    match Signed(p, SpoiltDraft(p, counter, now))
    case Some(v) => E.EnvelopeBytes(v)
    case None => []
  }

  /** Signed, unseen and unexpired, it costs any full queue that holds something less severe than SOS_RED
      an event. */
  lemma SpoiltCostsAPlace(p: PhoneCfg, cfg: NodeCfg, s: NodeState, counter: nat, now: nat, o: Offer)
    requires p.crypto.SignaturesVerify() && cfg.crypto == p.crypto && cfg.field == p.field
    requires counter < U32 && now + DEFAULT_VALIDITY_MS < U64 && o.now <= now + DEFAULT_VALIDITY_MS
    requires o.data == SpoiltBytes(p, counter, now)
    requires p.EnvelopeId(UNKNOWN_TYPE, counter) !in s.seenBle && |s.queue| >= cfg.maxQueueSize
    requires exists x :: x in s.queue && x.priority > SOS_RED
    ensures CostsAPlace(cfg, s, o)
  {
    SpoiltSigns(p, counter, now);
    SignedAgrees(p, cfg, SpoiltDraft(p, counter, now), o.now);
    SignedIsWritable(p, SpoiltDraft(p, counter, now));
    hide Signed, Screen, E.EnvelopeBytes, E.EnvelopeOf;
  }

  /** And it happens: a node with room for one event takes the phone's presence, then raises on such an
      envelope, and is left with nothing queued although a presence was offered. */
  lemma EvictionForNothing(p: PhoneCfg, cfg: NodeCfg) returns (ns: seq<NodeState>, os: seq<Offer>)
    requires p.crypto.SignaturesVerify() && cfg.crypto == p.crypto && cfg.field == p.field && cfg.maxQueueSize == 1
    requires p.EnvelopeId(3, 1) != p.EnvelopeId(UNKNOWN_TYPE, 2)
    ensures IngestRun(cfg, ns, os) && |os| == 2
    ensures os[1].data == SpoiltBytes(p, 2, 0) && os[1].out == Raised && CostsAPlace(cfg, ns[1], os[1])
    ensures IsAccepted(os[0].out) && |ns[1].queue| == 1 && ns[2].queue == [] && ns[2].dropped == ns[1].queue
    ensures MostSevereAt(cfg, ns, os, 1) && !MostSevereAt(cfg, ns, os, 2)
  {
    hide Signed, Decide, E.EnvelopeBytes, HopsDraft, SpoiltBytes, CostsAPlace, MostSevereAt, GoodEvent, IngestStep;
    HopsStored(p, cfg, NODE_ZERO, 1, 0, 1, 0);
    var data := E.EnvelopeBytes(Signed(p, HopsDraft(p, 1, 0, 1)).value);
    var d := Decide(cfg, NODE_ZERO, 0, data);
    var e := d.event;
    var s1 := NODE_ZERO.(queue := [e], seenBle := {e.envelopeId}, anonByAuthor := d.anon);
    var s2 := s1.(queue := [], dropped := [e]);
    var o1 := Offer(0, data, Receipted(Receipt(e.envelopeId, ReceiptAccepted, 1)));
    var o2 := Offer(0, SpoiltBytes(p, 2, 0), Raised);
    FirstStored(cfg, o1, d, s1);
    assert e in s1.queue && e.priority > SOS_RED;
    SpoiltCostsAPlace(p, cfg, s1, 2, 0, o2);
    OnlyEvicted(cfg, s1, o2, e, s2);
    NothingToEvict(cfg, NODE_ZERO, o1);
    ns, os := [NODE_ZERO, s1, s2], [o1, o2];
    TwoSteps(cfg, ns, os);
  }

  lemma TwoSteps(cfg: NodeCfg, ns: seq<NodeState>, os: seq<Offer>)
    requires |ns| == 3 && |os| == 2 && ns[0] == NODE_ZERO
    requires IngestStep(cfg, ns[0], os[0].now, os[0].data, ns[1], os[0].out) && !CostsAPlace(cfg, ns[0], os[0])
    requires IngestStep(cfg, ns[1], os[1].now, os[1].data, ns[2], os[1].out) && CostsAPlace(cfg, ns[1], os[1])
    ensures IngestRun(cfg, ns, os) && MostSevereAt(cfg, ns, os, 1) && !MostSevereAt(cfg, ns, os, 2)
  {
    hide IngestStep, CostsAPlace, MostSevereAt;
    KeepsUpTo(cfg, ns, os, 1);
    BreaksAt(cfg, ns, os, 1);
  }

  lemma FirstStored(cfg: NodeCfg, o: Offer, d: Decision, s': NodeState)
    requires d == Decide(cfg, NODE_ZERO, o.now, o.data) && d.Store? && d.gone == []
    requires s' == NODE_ZERO.(queue := [d.event], seenBle := {d.event.envelopeId}, anonByAuthor := d.anon)
    requires o.out == Receipted(Receipt(d.event.envelopeId, ReceiptAccepted, 1))
    ensures IngestStep(cfg, NODE_ZERO, o.now, o.data, s', o.out)
  {
    hide Decide;
    assert Ids([d.event]) == {d.event.envelopeId};
    assert {} + Ids([d.event]) == {d.event.envelopeId};
  }

  lemma OnlyEvicted(cfg: NodeCfg, s: NodeState, o: Offer, e: QueuedEvent, s': NodeState)
    requires CostsAPlace(cfg, s, o) && s.queue == [e] && s' == s.(queue := [], dropped := s.dropped + [e]) && o.out == Raised
    ensures IngestStep(cfg, s, o.now, o.data, s', o.out)
  {
    CostDecision(cfg, s, o);
    hide Decide, CostsAPlace, WorstIndex;
    assert Ids([]) == {} && s.seenBle + {} == s.seenBle;
  }

  lemma NothingToEvict(cfg: NodeCfg, s: NodeState, o: Offer)
    requires s.queue == []
    ensures !CostsAPlace(cfg, s, o)
  {
    hide Screen;
  }

  // ---------------------------------------------------------------- an exception without a signature

  /** An envelope nobody has signed, whose event type has 33 bits. */
  function OverwideEnvelope(p: PhoneCfg): E.Envelope {
    Unsigned(p, 1, 0, U32, SOS_RED, [], 0).(signature := seq(64, _ => 0))
  }

  /** Its bytes make every node raise, of whatever field and in whatever state. */
  lemma OverwideRaises(p: PhoneCfg, cfg: NodeCfg, s: NodeState, now: int, s': NodeState, out: IngestResult)
    requires IngestStep(cfg, s, now, E.EnvelopeBytes(OverwideEnvelope(p)), s', out)
    ensures out == Raised
  {
    hide E.EnvelopeBytes, Screen, IngestStep, Unpackable, Unstorable;
    var data := E.EnvelopeBytes(OverwideEnvelope(p));
    WrittenTripsIff(cfg, now, OverwideEnvelope(p));
    ScreenTripsIff(cfg, now, data);
    IngestRaisesIff(cfg, s, now, data, s', out);
  }
}
