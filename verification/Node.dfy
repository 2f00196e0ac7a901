/** What a node decides: admission of an envelope over BLE, transmission, reception. The layout
    of the heap is the only thing these descriptions leave open. */
module Node {
  import opened Bits
  import opened Keys
  import opened ProtoWire
  import E = EnvelopeV3
  import L = LoraV1
  import opened Compact
  import opened Model
  import opened Heapq
  import opened Channel

  const LOSS_BUDGET_CRITICAL := 6
  const LOSS_BUDGET_DEFAULT := 3
  const RETRY_BACKOFF_MS := 100
  const RETRY_JITTER_MS := 80
  const DEFAULT_TTL := 6

  datatype NodeCfg = NodeCfg(nodeId: string, nodeNum: nat, field: FieldKeys, crypto: Crypto, maxQueueSize: nat)

  datatype RetryState = RetryState(lossAttempts: nat, nextAttemptMs: int)

  datatype NodeState = NodeState(
    queue: Queue, seenBle: set<Bytes>, retry: map<Bytes, RetryState>, packetSeq: nat,
    dropped: seq<QueuedEvent>, anonByAuthor: map<Bytes, Bytes>)

  const NODE_ZERO := NodeState([], {}, map[], 0, [], map[])

  datatype ReceiptStatus = ReceiptAccepted | ReceiptDuplicate | ReceiptRejected

  datatype Receipt = Receipt(ref: Bytes, status: ReceiptStatus, queueDepth: nat)

  /** A receipt, or an exception that reaches the caller. */
  datatype IngestResult = Receipted(receipt: Receipt) | Raised

  // ---------------------------------------------------------------- BLE ingest

  datatype Screened = Refused(ref: Bytes) | Trips | Verified(env: E.Envelope)

  /** Everything checked before the node's own state is looked at. */
  function Screen(cfg: NodeCfg, now: int, data: Bytes): Screened {
    match E.EnvelopeOf(data)
    case Malformed => Refused([])
    case Ok(e) =>
      if e.protocolVersion != E.PROTOCOL_VERSION_V3 then Refused(e.envelopeId)
      else if e.sigAlgo != E.SIG_ALGO_ED25519 then Refused(e.envelopeId)
      else match E.Canonical(E.ClaimOf(cfg.crypto, e))
        case None => Trips
        case Some(canonical) =>
          if !cfg.crypto.verify(e.authorKey, canonical, e.signature) then Refused(e.envelopeId)
          else if !cfg.crypto.VerifyFieldMac(cfg.field.fieldMacKey, canonical, e.fieldMac) then Refused(e.envelopeId)
          else if e.expiresAt.ms < now then Refused(e.envelopeId)
          else Verified(e)
  }

  /** The compact payload and the remembered anonymous ids; Malformed when translation raises. */
  function Translate(cfg: NodeCfg, anon: map<Bytes, Bytes>, now: int, e: E.Envelope): Res<(Bytes, map<Bytes, Bytes>)> {
    if e.eventType == 3 then
      var p :- E.PresenceOf(e.payload);
      Ok((PresenceFromTyped(p), anon[e.authorKey := Anon8(p.anonUserId)]))
    else if e.eventType == 4 then
      var k :- E.CheckpointOf(e.payload);
      Ok((CheckpointFromTyped(k, cfg.nodeNum % U16), anon[e.authorKey := Anon8(k.anonUserId)]))
    else if e.eventType == 1 then
      var s :- E.StatusOf(e.payload);
      Ok((SosFromTyped(s, if e.authorKey in anon then anon[e.authorKey] else seq(8, _ => 0), now), anon))
    else Malformed
  }

  function EventOf(e: E.Envelope, payload: Bytes): QueuedEvent {
    QueuedEvent(e.createdAt.ms, e.createdAt.counter, e.envelopeId, e.eventType, e.priority,
                if e.maxHops > 0 then e.maxHops else DEFAULT_TTL, e.authorKey, payload)
  }

  datatype Decision =
    | Reply(ref: Bytes, status: ReceiptStatus)
    | Trip
    | Store(event: QueuedEvent, anon: map<Bytes, Bytes>, gone: Queue)
    | TripAfterEviction(gone: Queue)

  /** What happens to an envelope that passed the screen. */
  function Admit(cfg: NodeCfg, s: NodeState, now: int, e: E.Envelope): Decision {
    if e.envelopeId in s.seenBle then Reply(e.envelopeId, ReceiptDuplicate)
    else if !WirePriority(e.priority) then Trip
    else if |s.queue| < cfg.maxQueueSize then Place(cfg, s, now, e, [])
    else if s.queue == [] then Trip
    else
      var worst := s.queue[WorstIndex(s.queue)];
      if worst.priority > e.priority then Place(cfg, s, now, e, [worst])
      else Reply(e.envelopeId, ReceiptRejected)
  }

  /** Translation comes after eviction: if it raises, the evicted event is gone all the same. */
  function Place(cfg: NodeCfg, s: NodeState, now: int, e: E.Envelope, gone: Queue): Decision {
    match Translate(cfg, s.anonByAuthor, now, e)
    case Ok((payload, anon)) => Store(EventOf(e, payload), anon, gone)
    case Malformed => TripAfterEviction(gone)
  }

  function Decide(cfg: NodeCfg, s: NodeState, now: int, data: Bytes): Decision {
    match Screen(cfg, now, data)
    case Refused(ref) => Reply(ref, ReceiptRejected)
    case Trips => Trip
    case Verified(e) => Admit(cfg, s, now, e)
  }

  function Gone(d: Decision): Queue {
    if d.Store? || d.TripAfterEviction? then d.gone else []
  }

  function News(d: Decision): Queue {
    if d.Store? then [d.event] else []
  }

  function Ids(es: seq<QueuedEvent>): set<Bytes> {
    set e | e in es :: e.envelopeId
  }

  /** The decision carried out. */
  ghost predicate Carried(s: NodeState, d: Decision, s': NodeState, out: IngestResult) {
    && s' == s.(queue := s'.queue, seenBle := s.seenBle + Ids(News(d)), dropped := s.dropped + Gone(d),
                anonByAuthor := if d.Store? then d.anon else s.anonByAuthor)
    && (Gone(d) == [] == News(d) ==> s'.queue == s.queue)
    && IsHeap(s'.queue)
    && multiset(s'.queue) + multiset(Gone(d)) == multiset(s.queue) + multiset(News(d))
    && out == (match d
               case Reply(ref, status) => Receipted(Receipt(ref, status, |s.queue|))
               case Store(event, _, _) => Receipted(Receipt(event.envelopeId, ReceiptAccepted, |s'.queue|))
               case _ => Raised)
  }

  predicate IsAccepted(out: IngestResult) {
    out.Receipted? && out.receipt.status == ReceiptAccepted
  }

  /** One BLE ingest. */
  ghost predicate IngestStep(cfg: NodeCfg, s: NodeState, now: int, data: Bytes, s': NodeState, out: IngestResult) {
    Carried(s, Decide(cfg, s, now, data), s', out)
  }

  lemma AcceptedIffNews(cfg: NodeCfg, s: NodeState, now: int, data: Bytes, s': NodeState, out: IngestResult)
    requires IngestStep(cfg, s, now, data, s', out)
    ensures IsAccepted(out) <==> News(Decide(cfg, s, now, data)) != []
  {
    hide Screen, Translate, WorstIndex;
  }

  // ---------------------------------------------------------------- transmission

  function Budget(priority: nat): nat {
    if priority == SOS_RED then LOSS_BUDGET_CRITICAL else LOSS_BUDGET_DEFAULT
  }

  function RetryOf(retry: map<Bytes, RetryState>, id: Bytes): RetryState {
    if id in retry then retry[id] else RetryState(0, 0)
  }

  function FrameFields(cfg: NodeCfg, e: QueuedEvent, packetSeq: nat): L.Frame {
    L.Event(1, cfg.field.FieldTag(), cfg.nodeNum % U16, packetSeq, e.ttl, e.envelopeId, e.eventType,
            e.priority, e.createdMs, e.createdCounter, e.compactPayload)
  }

  /** An event whose frame can be encoded without raising. */
  predicate Framable(e: QueuedEvent) {
    |e.envelopeId| == 16 && |e.compactPayload| <= L.MAX_PAYLOAD_BYTES
  }

  function RawFrame(cfg: NodeCfg, e: QueuedEvent, packetSeq: nat): Bytes
    requires Framable(e)
  {
    L.Encode(cfg.crypto, cfg.field.loraMacKey, FrameFields(cfg, e, packetSeq)).value
  }

  function BuildFrame(cfg: NodeCfg, e: QueuedEvent, packetSeq: nat, dst: string): (f: LoraFrame)
    requires Framable(e)
    ensures f.raw != []
  {
    L.EncodedParts(cfg.crypto, cfg.field.loraMacKey, FrameFields(cfg, e, packetSeq));
    LoraFrame(RawFrame(cfg, e, packetSeq), cfg.nodeId, dst, e.envelopeId, e.eventType, e.priority, e.ttl, packetSeq, false)
  }

  /** How an attempt to transmit ends: nothing queued, the head still backing off, the head given
      up for good, or its frame handed to the channel. */
  datatype Attempt =
    | Idle
    | BackingOff
    | Exhausted(event: QueuedEvent)
    | OnAir(event: QueuedEvent, draw: Draw, outcome: TxOutcome, jitter: nat)

  /** One attempt. `pending` is what the channel holds. */
  ghost predicate TransmitStep(cfg: NodeCfg, p: Profile, s: NodeState, pending: seq<Delivery>, now: int, dst: string,
                               s': NodeState, pending': seq<Delivery>, a: Attempt)
    requires forall e | e in s.queue :: Framable(e)
  {
    if s.queue == [] then a == Idle && s' == s && pending' == pending
    else
      var head := s.queue[0];
      var rs := RetryOf(s.retry, head.envelopeId);
      var retry := s.retry[head.envelopeId := rs];
      if now < rs.nextAttemptMs then a == BackingOff && s' == s.(retry := retry) && pending' == pending
      else if rs.lossAttempts >= Budget(head.priority) then
        && a == Exhausted(head) && pending' == pending
        && s' == s.(queue := s'.queue, retry := retry, dropped := s.dropped + [head])
        && IsHeap(s'.queue) && multiset(s'.queue) == multiset(s.queue) - multiset{head}
      else
        var frame := BuildFrame(cfg, head, s.packetSeq + 1, dst);
        && a.OnAir? && a.event == head && a.jitter <= RETRY_JITTER_MS
        && a.outcome == OutcomeOf(frame, a.draw)
        && ChannelStep(p, pending, now, frame, a.draw, pending')
        && IsHeap(s'.queue)
        && var later := RetryState(rs.lossAttempts + if a.outcome == LOST then 1 else 0, now + RETRY_BACKOFF_MS + a.jitter);
           if a.outcome == SENT then
             && s' == s.(queue := s'.queue, retry := retry, packetSeq := s.packetSeq + 1)
             && multiset(s'.queue) == multiset(s.queue) - multiset{head}
           else
             && s' == s.(queue := s'.queue, retry := retry[head.envelopeId := later], packetSeq := s.packetSeq + 1)
             && multiset(s'.queue) == multiset(s.queue)
  }

  // ---------------------------------------------------------------- reception

  datatype Inbound = Inbound(
    eventId: Bytes, eventType: int, priority: int, srcNode: int, lastHop: string, ttl: int, packetSeq: int,
    hlcMs: int, hlcCounter: int, compactPayload: Bytes, decoded: Decoded, rawFrame: Bytes)

  datatype Received = NotAddressed | Dropped(reason: L.Reason) | Delivered(inbound: Inbound) | RaisedOnReceive

  function ToGateway(cfg: NodeCfg, f: L.Frame, raw: Bytes): Inbound
    requires f.Event?
  {
    Inbound(f.eventId, f.eventType, f.priority, f.srcNode, cfg.nodeId, if f.ttl - 1 > 0 then f.ttl - 1 else 0,
            f.packetSeq, f.hlcMs, f.hlcCounter, f.payload, DecodeCompact(f.eventType, f.payload), raw)
  }

  function Checked(cfg: NodeCfg, seen: set<Bytes>, f: LoraFrame, est: Option<int>): L.Verdict {
    L.Verify(cfg.crypto, cfg.field.loraMacKey, f.raw, est, Some(seen), L.HLC_REPLAY_WINDOW_MS)
  }

  /** What reception of a frame yields. Only an EVENT of a wire priority makes sense here. */
  function Reception(cfg: NodeCfg, seen: set<Bytes>, f: LoraFrame, est: Option<int>): Received {
    if f.dst != cfg.nodeId then NotAddressed
    else match Checked(cfg, seen, f, est)
      case Rejected(reason) => Dropped(reason)
      case Accepted(g) =>
        if g.Ack? || !WirePriority(g.priority) then RaisedOnReceive else Delivered(ToGateway(cfg, g, f.raw))
  }

  function RingAfter(cfg: NodeCfg, seen: set<Bytes>, f: LoraFrame, est: Option<int>): set<Bytes> {
    if f.dst != cfg.nodeId then seen else seen + L.RingIds(Checked(cfg, seen, f, est))
  }

  // ---------------------------------------------------------------- the gateway

  datatype Row = Row(eventId: Bytes, eventType: int, priority: int, srcNode: int, payload: Decoded)

  function RowOf(i: Inbound): Row {
    Row(i.eventId, i.eventType, i.priority, i.srcNode, i.decoded)
  }

  /** setdefault: the first row of an id stays. */
  function StoreRow(events: map<Bytes, Row>, i: Inbound): map<Bytes, Row> {
    if i.eventId in events then events else events[i.eventId := RowOf(i)]
  }
}
