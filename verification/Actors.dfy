/** The simulated node and the gateway as objects. */
module Actors {
  import opened Bits
  import opened Keys
  import opened ProtoWire
  import E = EnvelopeV3
  import L = LoraV1
  import opened Compact
  import opened Model
  import opened Heapq
  import opened Channel
  import opened Node

  class SimNode {
    const cfg: NodeCfg
    const rng: Rng?
    const seenLora: L.SeenRing
    var queue: Queue
    var seenBle: set<Bytes>
    var retry: map<Bytes, RetryState>
    var packetSeq: nat
    var dropped: seq<QueuedEvent>
    var anonByAuthor: map<Bytes, Bytes>

    constructor (cfg: NodeCfg, rng: Rng?)
      ensures State() == NODE_ZERO && seenLora.ids == {} && fresh(seenLora)
      ensures this.cfg == cfg && this.rng == rng
    {
      this.cfg := cfg;
      this.rng := rng;
      this.seenLora := new L.SeenRing();
      queue, seenBle, retry, packetSeq, dropped, anonByAuthor := [], {}, map[], 0, [], map[];
    }

    ghost function State(): NodeState
      reads this
    {
      NodeState(queue, seenBle, retry, packetSeq, dropped, anonByAuthor)
    }

    method Reject(ref: Bytes) returns (out: IngestResult)
      ensures out == Receipted(Receipt(ref, ReceiptRejected, |queue|))
    {
      out := Receipted(Receipt(ref, ReceiptRejected, |queue|));
    }

    /** Verifies an envelope handed over by a phone, makes room for it if it must, translates it
        and queues it. */
    method BleIngest(now: int, data: Bytes) returns (out: IngestResult)
      requires IsHeap(queue)
      modifies this
      ensures IngestStep(cfg, old(State()), now, data, State(), out)
    {
      hide E.EnvelopeOf, E.Canonical, Translate;
      var decoded := E.DecodeEnvelope(data);
      if decoded.Malformed? {
        out := Reject([]);
        return;
      }
      var env := decoded.value;
      if env.protocolVersion != E.PROTOCOL_VERSION_V3 {
        out := Reject(env.envelopeId);
        return;
      }
      if env.sigAlgo != E.SIG_ALGO_ED25519 {
        out := Reject(env.envelopeId);
        return;
      }
      var canonical := E.CanonicalSigInput(E.ClaimOf(cfg.crypto, env));
      if canonical.None? {
        return Raised;
      }
      if !cfg.crypto.verify(env.authorKey, canonical.value, env.signature) {
        out := Reject(env.envelopeId);
        return;
      }
      if !cfg.crypto.VerifyFieldMac(cfg.field.fieldMacKey, canonical.value, env.fieldMac) {
        out := Reject(env.envelopeId);
        return;
      }
      if env.expiresAt.ms < now {
        out := Reject(env.envelopeId);
        return;
      }
      assert Screen(cfg, now, data) == Verified(env);
      hide Screen;
      out := AdmitVerified(now, env);
    }

    /** The second half of the ingest, for a verified envelope. */
    method AdmitVerified(now: int, env: E.Envelope) returns (out: IngestResult)
      requires IsHeap(queue)
      modifies this
      ensures Carried(old(State()), Admit(cfg, old(State()), now, env), State(), out)
    {
      hide Place, WorstIndex, IsHeap;
      ghost var s := State();
      assert Ids([]) == {} && s.seenBle + {} == s.seenBle && s.dropped + [] == s.dropped;
      if env.envelopeId in seenBle {
        return Receipted(Receipt(env.envelopeId, ReceiptDuplicate, |queue|));
      }
      if !WirePriority(env.priority) {
        return Raised;
      }
      if |queue| < cfg.maxQueueSize {
        out := StoreTranslated(now, env, s, []);
        return;
      }
      if queue == [] {
        return Raised;
      }
      var worstIdx := WorstIndex(queue);
      ghost var worst := queue[worstIdx];
      if queue[worstIdx].priority > env.priority {
        Evict(worstIdx);
        out := StoreTranslated(now, env, s, [worst]);
      } else {
        out := Reject(env.envelopeId);
      }
    }

    method Evict(worstIdx: nat)
      requires worstIdx < |queue|
      modifies this
      ensures IsHeap(queue)
      ensures multiset(queue) + multiset{old(queue)[worstIdx]} == multiset(old(queue))
      ensures State() == old(State()).(queue := queue, dropped := old(dropped) + [old(queue)[worstIdx]])
    {
      hide IsHeap;
      var worst := queue[worstIdx];
      Without(queue, worstIdx);
      queue := queue[..worstIdx] + queue[worstIdx + 1..];
      queue := Heapify(queue);
      dropped := dropped + [worst];
    }

    /** Translation and storage, for a node that was in state `s` and has evicted `gone`. */
    method StoreTranslated(now: int, env: E.Envelope, ghost s: NodeState, ghost gone: Queue) returns (out: IngestResult)
      requires IsHeap(queue) && multiset(queue) + multiset(gone) == multiset(s.queue)
      requires State() == s.(queue := queue, dropped := s.dropped + gone) && (gone == [] ==> queue == s.queue)
      modifies this
      ensures Carried(s, Place(cfg, s, now, env, gone), State(), out)
    {
      hide Translate, IsHeap;
      assert Ids([]) == {} && s.seenBle + {} == s.seenBle;
      var translated := TranslateAndRemember(now, env);
      if translated.Malformed? {
        return Raised;
      }
      ghost var event := EventOf(env, translated.value);
      assert Ids([event]) == {env.envelopeId};
      seenBle := seenBle + {env.envelopeId};
      queue := HeapPush(queue, EventOf(env, translated.value));
      return Receipted(Receipt(env.envelopeId, ReceiptAccepted, |queue|));
    }

    /** Decodes the typed payload, remembers the author's anonymous id and packs the compact form. */
    method TranslateAndRemember(now: int, env: E.Envelope) returns (res: Res<Bytes>)
      modifies this`anonByAuthor
      ensures var t := Translate(cfg, old(anonByAuthor), now, env);
        match t
        case Ok((payload, anon)) => res == Ok(payload) && anonByAuthor == anon
        case Malformed => res == Malformed && anonByAuthor == old(anonByAuthor)
    {
      var author := env.authorKey;
      if env.eventType == 3 {
        var p :- E.DecodePresence(env.payload);
        anonByAuthor := anonByAuthor[author := Anon8(p.anonUserId)];
        return Ok(PresenceFromTyped(p));
      }
      if env.eventType == 4 {
        var k :- E.DecodeCheckpoint(env.payload);
        anonByAuthor := anonByAuthor[author := Anon8(k.anonUserId)];
        return Ok(CheckpointFromTyped(k, cfg.nodeNum % U16));
      }
      if env.eventType == 1 {
        var s :- E.DecodeStatus(env.payload);
        var anon8 := if author in anonByAuthor then anonByAuthor[author] else seq(8, _ => 0);
        return Ok(SosFromTyped(s, anon8, now));
      }
      return Malformed;
    }

    /** A moment between the least and the largest backoff from now. */
    method Backoff(now: int) returns (at: int)
      ensures now + RETRY_BACKOFF_MS <= at <= now + RETRY_BACKOFF_MS + RETRY_JITTER_MS
    {
      var jitter := 0;
      if rng != null {
        jitter := rng.Randint(0, RETRY_JITTER_MS);
      }
      at := now + RETRY_BACKOFF_MS + jitter;
    }

    method TransmitNext(now: int, channel: FakeLoRaChannel, dst: string) returns (res: Option<TxOutcome>, ghost a: Attempt)
      requires IsHeap(queue) && forall e | e in queue :: Framable(e)
      requires channel.profile.delayMsMin <= channel.profile.delayMsMax
      modifies this, channel
      ensures TransmitStep(cfg, channel.profile, old(State()), old(channel.pending), now, dst, State(), channel.pending, a)
      ensures res == if a.OnAir? then Some(a.outcome) else None
    {
      hide ChannelStep, OutcomeOf, IsHeap, BuildFrame, RetryOf, Budget, Framable;
      if queue == [] {
        return None, Idle;
      }
      var best := queue[0];
      var rs := RetryOf(retry, best.envelopeId);
      retry := retry[best.envelopeId := rs];
      if now < rs.nextAttemptMs {
        return None, BackingOff;
      }
      var event;
      event, queue := HeapPop(queue);
      if rs.lossAttempts >= Budget(event.priority) {
        dropped := dropped + [event];
        return None, Exhausted(event);
      }
      assert channel.pending == old(channel.pending);
      res, a := PutOnAir(now, event, rs, channel, dst);
    }

    /** The frame of a popped event goes to the channel; unless it was sent, the event is queued
        again and backs off, a loss counting against its budget. */
    method PutOnAir(now: int, event: QueuedEvent, was: RetryState, channel: FakeLoRaChannel, dst: string)
      returns (res: Option<TxOutcome>, ghost a: Attempt)
      requires IsHeap(queue) && Framable(event)
      requires channel.profile.delayMsMin <= channel.profile.delayMsMax
      modifies this, channel
      ensures a.OnAir? && a.event == event && a.jitter <= RETRY_JITTER_MS && res == Some(a.outcome)
      ensures IsHeap(queue)
      ensures var frame := BuildFrame(cfg, event, old(packetSeq) + 1, dst);
        && a.outcome == OutcomeOf(frame, a.draw)
        && ChannelStep(channel.profile, old(channel.pending), now, frame, a.draw, channel.pending)
      ensures var later := RetryState(was.lossAttempts + if a.outcome == LOST then 1 else 0, now + RETRY_BACKOFF_MS + a.jitter);
        && multiset(queue) == multiset(old(queue)) + (if a.outcome == SENT then multiset{} else multiset{event})
        && State() == old(State()).(queue := queue, packetSeq := old(packetSeq) + 1,
             retry := if a.outcome == SENT then old(retry) else old(retry)[event.envelopeId := later])
    {
      hide ChannelStep, OutcomeOf, IsHeap, BuildFrame;
      packetSeq := packetSeq + 1;
      var frame := BuildFrame(cfg, event, packetSeq, dst);
      ghost var draw;
      var outcome;
      outcome, draw := channel.Transmit(now, frame);
      if outcome == SENT {
        return Some(outcome), OnAir(event, draw, outcome, 0);
      }
      var rs := was;
      if outcome == LOST {
        rs := rs.(lossAttempts := rs.lossAttempts + 1);
      }
      var at := Backoff(now);
      rs := rs.(nextAttemptMs := at);
      retry := retry[event.envelopeId := rs];
      queue := HeapPush(queue, event);
      return Some(outcome), OnAir(event, draw, outcome, at - now - RETRY_BACKOFF_MS);
    }

    method ReceiveLora(now: int, f: LoraFrame, est: Option<int>) returns (r: Received)
      modifies seenLora
      ensures r == Reception(cfg, old(seenLora.ids), f, est)
      ensures seenLora.ids == RingAfter(cfg, old(seenLora.ids), f, est)
    {
      hide L.Verify, L.RingIds;
      if f.dst != cfg.nodeId {
        return NotAddressed;
      }
      var res := L.VerifyLoraFrame(cfg.crypto, cfg.field.loraMacKey, f.raw, est, seenLora, L.HLC_REPLAY_WINDOW_MS);
      if res.Rejected? {
        L.RejectedAddsNothing(res);
        return Dropped(res.reason);
      }
      if res.frame.Ack? || !WirePriority(res.frame.priority) {
        return RaisedOnReceive;
      }
      return Delivered(ToGateway(cfg, res.frame, f.raw));
    }

    method Reboot(preserveSeen: bool)
      modifies this, seenLora
      ensures State() == old(State()).(queue := [], retry := map[], seenBle := if preserveSeen then old(seenBle) else {})
      ensures seenLora.ids == if preserveSeen then old(seenLora.ids) else {}
    {
      queue := [];
      retry := map[];
      if !preserveSeen {
        seenBle := {};
        seenLora.ids := {};
      }
    }
  }

  lemma Without(q: Queue, w: nat)
    requires w < |q|
    ensures multiset(q[..w] + q[w + 1..]) + multiset{q[w]} == multiset(q)
  {
    assert q == q[..w] + [q[w]] + q[w + 1..];
  }

  class FakeGatewaySink {
    var events: map<Bytes, Row>
    var routes: seq<Inbound>

    constructor ()
      ensures events == map[] && routes == []
    {
      events, routes := map[], [];
    }

    method Receive(inbound: Inbound)
      modifies this
      ensures events == StoreRow(old(events), inbound) && routes == old(routes) + [inbound]
    {
      routes := routes + [inbound];
      if inbound.eventId !in events {
        events := events[inbound.eventId := RowOf(inbound)];
      }
    }
  }
}
