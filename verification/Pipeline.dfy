/** The whole path as one state machine: a node fed over BLE, the radio channel, a receiving
    node and the gateway behind it. The random choices are labels, so a run is any run. */
module Pipeline {
  import opened Bits
  import opened Keys
  import E = EnvelopeV3
  import L = LoraV1
  import opened Compact
  import opened Model
  import opened Heapq
  import opened Channel
  import opened Node

  /** Sender and receiver of one field, and the channel between them. */
  datatype Cfg = Cfg(a: NodeCfg, b: NodeCfg, air: Profile)

  ghost predicate SameField(cfg: Cfg) {
    cfg.a.crypto == cfg.b.crypto && cfg.a.field == cfg.b.field
  }

  /** What an observer of the run has written down: events accepted, put on air intact, and lost
      to a reboot; ids whose intact frame the receiver refused; lost attempts per id; and the time
      of the last attempt per id. */
  datatype History = History(
    accepted: seq<QueuedEvent>, sent: seq<QueuedEvent>, wiped: seq<QueuedEvent>,
    refused: set<Bytes>, losses: multiset<Bytes>, tried: map<Bytes, int>)

  datatype Sys = Sys(node: NodeState, pending: seq<Delivery>, ring: set<Bytes>, rows: map<Bytes, Row>, h: History)

  const SYS_ZERO := Sys(NODE_ZERO, [], {}, map[], History([], [], [], {}, multiset{}, map[]))

  // ---------------------------------------------------------------- reception of a batch

  datatype Rx = Rx(ring: set<Bytes>, rows: map<Bytes, Row>, refused: set<Bytes>)

  function ReceiveOne(cfg: Cfg, rx: Rx, f: LoraFrame, now: int): Rx {
    var r := Reception(cfg.b, rx.ring, f, Some(now));
    Rx(RingAfter(cfg.b, rx.ring, f, Some(now)),
       if r.Delivered? then StoreRow(rx.rows, r.inbound) else rx.rows,
       if r.Dropped? && r.reason != L.ReplayDuplicate && !f.corrupted then rx.refused + {f.eventId} else rx.refused)
  }

  function ReceiveAll(cfg: Cfg, rx: Rx, fs: seq<LoraFrame>, now: int): Rx
    decreases fs
  {
    hide ReceiveOne;
    if fs == [] then rx else ReceiveAll(cfg, ReceiveOne(cfg, rx, fs[0], now), fs[1..], now)
  }

  // ---------------------------------------------------------------- steps

  datatype Label =
    | Ingest(now: int, data: Bytes, out: IngestResult)
    | Transmit(now: int, attempt: Attempt)
    | Drain(now: int)
    | RebootSender
    | RebootReceiver

  function Recorded(h: History, now: int, a: Attempt): History {
    if !a.OnAir? then h
    else
      var id := a.event.envelopeId;
      h.(sent := if a.outcome == SENT then h.sent + [a.event] else h.sent,
         losses := if a.outcome == LOST then h.losses + multiset{id} else h.losses,
         tried := h.tried[id := now])
  }

  function Drained(cfg: Cfg, s: Sys, now: int): Sys {
    var rx := ReceiveAll(cfg, Rx(s.ring, s.rows, s.h.refused), Ready(s.pending, now), now);
    s.(pending := Waiting(s.pending, now), ring := rx.ring, rows := rx.rows, h := s.h.(refused := rx.refused))
  }

  ghost predicate Next(cfg: Cfg, s: Sys, l: Label, s': Sys) {
    match l
    case Ingest(now, data, out) =>
      && IngestStep(cfg.a, s.node, now, data, s'.node, out)
      && s' == s.(node := s'.node, h := s.h.(accepted := s.h.accepted + News(Decide(cfg.a, s.node, now, data))))
    case Transmit(now, a) =>
      && (forall e | e in s.node.queue :: Framable(e))
      && TransmitStep(cfg.a, cfg.air, s.node, s.pending, now, cfg.b.nodeId, s'.node, s'.pending, a)
      && s' == s.(node := s'.node, pending := s'.pending, h := Recorded(s.h, now, a))
    case Drain(now) =>
      s' == Drained(cfg, s, now)
    case RebootSender =>
      s' == s.(node := s.node.(queue := [], retry := map[]), h := s.h.(wiped := s.h.wiped + s.node.queue))
    case RebootReceiver =>
      s' == s  // its queue is empty here and its ring is kept
  }

  // ---------------------------------------------------------------- what every step keeps

  predicate GoodEvent(e: QueuedEvent) {
    && |e.envelopeId| == 16
    && (e.eventType == 1 || e.eventType == 3 || e.eventType == 4)
    && WirePriority(e.priority)
    && e.ttl >= 1
    && (|e.compactPayload| == 10 || |e.compactPayload| == 22)
    && e.createdMs < U64 && e.createdCounter < U32
  }

  ghost predicate DistinctIds(es: seq<QueuedEvent>) {
    forall i, j :: 0 <= i < j < |es| ==> es[i].envelopeId != es[j].envelopeId
  }

  /** Every accepted event is queued, sent, dropped or wiped, and in one of these places only. */
  ghost predicate Conserved(s: Sys) {
    multiset(s.h.accepted) == multiset(s.node.queue) + multiset(s.h.sent) + multiset(s.node.dropped) + multiset(s.h.wiped)
  }

  ghost predicate NodeInv(cfg: Cfg, s: Sys) {
    && IsHeap(s.node.queue) && |s.node.queue| <= cfg.a.maxQueueSize
    && Conserved(s)
    && DistinctIds(s.h.accepted) && s.node.seenBle == Ids(s.h.accepted)
    && forall e :: e in s.h.accepted ==> GoodEvent(e)
  }

  ghost predicate RetryOk(s: Sys, e: QueuedEvent) {
    var rs := RetryOf(s.node.retry, e.envelopeId);
    && rs.lossAttempts == s.h.losses[e.envelopeId]
    && (e.envelopeId in s.h.tried ==> rs.nextAttemptMs >= s.h.tried[e.envelopeId] + RETRY_BACKOFF_MS)
  }

  ghost predicate RetryInv(s: Sys) {
    && (forall e :: e in s.node.queue ==> RetryOk(s, e))
    && (forall e :: e in s.h.accepted ==> s.h.losses[e.envelopeId] <= Budget(e.priority))
    && (forall id :: id in s.node.retry ==> id in s.node.seenBle)
    && (forall id :: id in s.h.losses ==> id in s.node.seenBle)
    && (forall id :: id in s.h.tried ==> id in s.node.seenBle)
  }

  /** The frame is the one built for `e`, or that one with a single byte flipped. */
  ghost predicate Carries(cfg: Cfg, f: LoraFrame, e: QueuedEvent) {
    hide RawFrame, Flipped;
    && Framable(e) && f.eventId == e.envelopeId && f.dst == cfg.b.nodeId
    && var raw := RawFrame(cfg.a, e, f.packetSeq);
       if f.corrupted then Flipped(raw, f.raw) else f.raw == raw
  }

  /** Nothing is on air but frames of accepted events, intact ones only if recorded as sent. */
  ghost predicate Authentic(cfg: Cfg, h: History, f: LoraFrame) {
    exists e :: e in h.accepted && GoodEvent(e) && Carries(cfg, f, e) && (!f.corrupted ==> e in h.sent)
  }

  ghost predicate AirInv(cfg: Cfg, s: Sys) {
    forall d :: d in s.pending ==> Authentic(cfg, s.h, d.frame)
  }

  ghost predicate InFlight(cfg: Cfg, pending: seq<Delivery>, e: QueuedEvent) {
    exists d :: d in pending && !d.frame.corrupted && Carries(cfg, d.frame, e)
  }

  ghost predicate SentInv(cfg: Cfg, s: Sys) {
    forall e :: e in s.h.sent ==> e.envelopeId in s.ring || e.envelopeId in s.h.refused || InFlight(cfg, s.pending, e)
  }

  /** The row the gateway keeps for an event. */
  function EventRow(cfg: Cfg, e: QueuedEvent): Row {
    Row(e.envelopeId, e.eventType, e.priority, cfg.a.nodeNum % U16, DecodeCompact(e.eventType, e.compactPayload))
  }

  ghost predicate Sourced(cfg: Cfg, sent: seq<QueuedEvent>, id: Bytes, row: Row) {
    exists e :: e in sent && e.envelopeId == id && row == EventRow(cfg, e) && e.ttl % 256 != 0
  }

  ghost predicate RowsInv(cfg: Cfg, ring: set<Bytes>, rows: map<Bytes, Row>, sent: seq<QueuedEvent>) {
    && rows.Keys == ring
    && forall id :: id in rows ==> Sourced(cfg, sent, id, rows[id])
  }

  ghost predicate Inv(cfg: Cfg, s: Sys) {
    && NodeInv(cfg, s) && RetryInv(s) && AirInv(cfg, s) && SentInv(cfg, s)
    && RowsInv(cfg, s.ring, s.rows, s.h.sent)
  }

  lemma InitInv(cfg: Cfg)
    ensures Inv(cfg, SYS_ZERO)
  {
  }

  lemma Members(cfg: Cfg, s: Sys, e: QueuedEvent)
    requires NodeInv(cfg, s)
    requires e in s.node.queue || e in s.h.sent || e in s.node.dropped || e in s.h.wiped
    ensures e in s.h.accepted && e.envelopeId in s.node.seenBle && GoodEvent(e)
  {
    assert e in multiset(s.h.accepted);
  }

  lemma Framables(cfg: Cfg, s: Sys)
    requires NodeInv(cfg, s)
    ensures forall e | e in s.node.queue :: Framable(e)
  {
    forall e | e in s.node.queue ensures Framable(e) {
      Members(cfg, s, e);
    }
  }

  lemma {:induction false} DistinctCount(es: seq<QueuedEvent>, e: QueuedEvent)
    requires DistinctIds(es) && e in es
    ensures multiset(es)[e] == 1
  {
    assert es == [es[0]] + es[1..];
    if e == es[0] {
      assert e !in es[1..];
    } else {
      assert DistinctIds(es[1..]);
      DistinctCount(es[1..], e);
    }
  }

  lemma SameId(es: seq<QueuedEvent>, e: QueuedEvent, e': QueuedEvent)
    requires DistinctIds(es) && e in es && e' in es && e.envelopeId == e'.envelopeId
    ensures e == e'
  {
  }

  lemma IdsConcat(es: seq<QueuedEvent>, fs: seq<QueuedEvent>)
    ensures Ids(es + fs) == Ids(es) + Ids(fs)
  {
  }

  // ---------------------------------------------------------------- ingest

  /** Whatever is stored is a good event under an id not seen before. */
  lemma StoredIsGood(cfg: NodeCfg, s: NodeState, now: int, data: Bytes)
    ensures var d := Decide(cfg, s, now, data);
      && (d.Store? ==> GoodEvent(d.event) && d.event.envelopeId !in s.seenBle)
      && |Gone(d)| <= 1 && (forall e | e in Gone(d) :: e in s.queue)
      && (Gone(d) == [] && News(d) != [] ==> |s.queue| < cfg.maxQueueSize)
  {
    hide E.EnvelopeOf, E.Canonical, WorstIndex, E.PresenceOf, E.StatusOf, E.CheckpointOf;
    var d := Decide(cfg, s, now, data);
    if d.Store? {
      var e := Screen(cfg, now, data).env;
      E.EnvelopeShape(data);
      E.CanonicalPackable(E.ClaimOf(cfg.crypto, e));
    }
  }

  /** The effect of an ingest on what is counted, free of how it was decided. */
  ghost predicate Moved(s: Sys, s': Sys, news: Queue, gone: Queue) {
    && |news| <= 1 && |gone| <= 1
    && multiset(s'.node.queue) + multiset(gone) == multiset(s.node.queue) + multiset(news)
    && s'.node.dropped == s.node.dropped + gone
    && s'.node.seenBle == s.node.seenBle + Ids(news)
    && s'.h == s.h.(accepted := s.h.accepted + news)
    && s'.node.retry == s.node.retry && s'.pending == s.pending && s'.ring == s.ring && s'.rows == s.rows
  }

  lemma IngestMoves(cfg: Cfg, s: Sys, l: Label, s': Sys)
    requires l.Ingest? && Next(cfg, s, l, s')
    ensures var d := Decide(cfg.a, s.node, l.now, l.data);
      && Moved(s, s', News(d), Gone(d))
      && IsHeap(s'.node.queue)
      && (forall e | e in News(d) :: GoodEvent(e) && e.envelopeId !in s.node.seenBle)
      && (Gone(d) == [] && News(d) != [] ==> |s.node.queue| < cfg.a.maxQueueSize)
  {
    StoredIsGood(cfg.a, s.node, l.now, l.data);
    hide Decide, IsHeap;
  }

  lemma IngestKeepsNode(cfg: Cfg, s: Sys, l: Label, s': Sys)
    requires NodeInv(cfg, s) && l.Ingest? && Next(cfg, s, l, s')
    ensures NodeInv(cfg, s')
  {
    hide Next, IsHeap, Decide;
    IngestMoves(cfg, s, l, s');
    var d := Decide(cfg.a, s.node, l.now, l.data);
    var news, gone := News(d), Gone(d);
    hide News, Gone;
    MovedCounts(s, s', news, gone);
    MovedIds(s, s', news, gone);
  }

  lemma MovedCounts(s: Sys, s': Sys, news: Queue, gone: Queue)
    requires Moved(s, s', news, gone) && Conserved(s)
    ensures Conserved(s')
    ensures |s'.node.queue| == |s.node.queue| + |news| - |gone|
  {
    hide Ids;
    assert |multiset(s'.node.queue) + multiset(gone)| == |multiset(s.node.queue) + multiset(news)|;
    assert multiset(s'.h.accepted) == multiset(s.h.accepted) + multiset(news);
    assert multiset(s'.node.dropped) == multiset(s.node.dropped) + multiset(gone);
    Regroup(multiset(s.node.queue), multiset(news), multiset(s'.node.queue), multiset(gone),
            multiset(s.h.sent), multiset(s.node.dropped), multiset(s.h.wiped));
  }

  lemma Regroup<T>(q: multiset<T>, n: multiset<T>, q': multiset<T>, g: multiset<T>,
                   a: multiset<T>, b: multiset<T>, c: multiset<T>)
    requires q' + g == q + n
    ensures q + a + b + c + n == q' + a + (b + g) + c
  {
    assert q + a + b + c + n == (q + n) + a + b + c;
  }

  lemma MovedIds(s: Sys, s': Sys, news: Queue, gone: Queue)
    requires Moved(s, s', news, gone)
    requires DistinctIds(s.h.accepted) && s.node.seenBle == Ids(s.h.accepted)
    requires forall e | e in news :: e.envelopeId !in s.node.seenBle
    ensures DistinctIds(s'.h.accepted) && s'.node.seenBle == Ids(s'.h.accepted)
  {
  }

  lemma IngestKeepsRetry(cfg: Cfg, s: Sys, l: Label, s': Sys)
    requires NodeInv(cfg, s) && RetryInv(s) && l.Ingest? && Next(cfg, s, l, s')
    ensures RetryInv(s')
  {
    IngestMoves(cfg, s, l, s');
    var d := Decide(cfg.a, s.node, l.now, l.data);
    var news, gone := News(d), Gone(d);
    hide Next, IsHeap, Decide, News, Gone, Conserved, Ids, GoodEvent;
    forall e | e in s'.node.queue ensures RetryOk(s', e) {
      if e in s.node.queue {
        assert RetryOk(s, e);
      } else {
        assert e in multiset(s'.node.queue) + multiset(gone);
        assert e in news;
      }
    }
    forall e | e in s'.h.accepted ensures s'.h.losses[e.envelopeId] <= Budget(e.priority) {
      if e !in s.h.accepted {
        assert e in news;
      }
    }
  }

  lemma IngestKeepsAir(cfg: Cfg, s: Sys, l: Label, s': Sys)
    requires AirInv(cfg, s) && SentInv(cfg, s) && RowsInv(cfg, s.ring, s.rows, s.h.sent) && l.Ingest? && Next(cfg, s, l, s')
    ensures AirInv(cfg, s') && SentInv(cfg, s') && RowsInv(cfg, s'.ring, s'.rows, s'.h.sent)
  {
    IngestMoves(cfg, s, l, s');
    hide Next, IsHeap, Decide, News, Gone, GoodEvent, Carries, RowsInv;
    forall d | d in s'.pending ensures Authentic(cfg, s'.h, d.frame) {
      assert Authentic(cfg, s.h, d.frame);
    }
  }

  // ---------------------------------------------------------------- transmission

  /** What an attempt does to the node, free of the channel: `back` is what it queued again. */
  ghost predicate Attempted(s: Sys, now: int, a: Attempt, s': Sys) {
    && (a.Idle? || a.BackingOff? ==> s'.node.queue == s.node.queue)
    && (a.Exhausted? || a.OnAir? ==> s.node.queue != [] && a.event == s.node.queue[0])
    && multiset(s'.node.queue) + Left(a) == multiset(s.node.queue)
    && s'.node.dropped == s.node.dropped + (if a.Exhausted? then [a.event] else [])
    && s'.node.seenBle == s.node.seenBle
    && s'.h == Recorded(s.h, now, a)
    && s'.ring == s.ring && s'.rows == s.rows
    && IsHeap(s'.node.queue)
  }

  function Left(a: Attempt): multiset<QueuedEvent> {
    if a.Exhausted? || (a.OnAir? && a.outcome == SENT) then multiset{a.event} else multiset{}
  }

  lemma AttemptMoves(cfg: Cfg, s: Sys, l: Label, s': Sys)
    requires IsHeap(s.node.queue) && l.Transmit? && Next(cfg, s, l, s')
    ensures Attempted(s, l.now, l.attempt, s')
  {
    hide ChannelStep, BuildFrame, IsHeap, OutcomeOf, RetryOf, Budget, Framable;
    if s.node.queue != [] {
      assert s.node.queue[0] in multiset(s.node.queue);
    }
  }

  lemma TransmitKeepsNode(cfg: Cfg, s: Sys, l: Label, s': Sys)
    requires NodeInv(cfg, s) && l.Transmit? && Next(cfg, s, l, s')
    ensures NodeInv(cfg, s')
  {
    AttemptMoves(cfg, s, l, s');
    hide Next, IsHeap, GoodEvent, DistinctIds, Ids;
    AttemptConserves(s, l.now, l.attempt, s');
    AttemptedFacts(s, l.now, l.attempt, s');
    hide Attempted, Conserved;
  }

  lemma AttemptConserves(s: Sys, now: int, a: Attempt, s': Sys)
    requires Attempted(s, now, a, s') && Conserved(s)
    ensures Conserved(s') && |s'.node.queue| <= |s.node.queue| && IsHeap(s'.node.queue)
  {
    hide IsHeap;
    assert |multiset(s'.node.queue) + Left(a)| == |s.node.queue|;
    Hand(multiset(s.node.queue), multiset(s'.node.queue), Left(a), multiset(s.h.sent), multiset(s.node.dropped), multiset(s.h.wiped));
    if a.Exhausted? {
      assert multiset(s'.node.dropped) == multiset(s.node.dropped) + Left(a);
    } else {
      assert multiset(s'.h.sent) == multiset(s.h.sent) + Left(a);
      assert s'.node.dropped == s.node.dropped;
    }
  }

  /** What leaves the queue for one of the other places. */
  lemma Hand<T>(q: multiset<T>, q': multiset<T>, x: multiset<T>, a: multiset<T>, b: multiset<T>, c: multiset<T>)
    requires q' + x == q
    ensures q + a + b + c == q' + (a + x) + b + c == q' + a + (b + x) + c == q' + a + b + (c + x)
  {
  }

  /** The retry state after an attempt: only an attempt that went on air without being sent
      changes what is remembered, and only for its event. */
  ghost predicate Backed(s: Sys, now: int, a: Attempt, s': Sys) {
    && (a.Idle? ==> s'.node.retry == s.node.retry)
    && (!a.Idle? ==> s.node.queue != [] && HeadBacked(s, now, a, s', s.node.queue[0]))
  }

  ghost predicate HeadBacked(s: Sys, now: int, a: Attempt, s': Sys, head: QueuedEvent) {
    && (forall id :: id in s'.node.retry ==> id in s.node.retry || id == head.envelopeId)
    && (forall id :: id != head.envelopeId ==> RetryOf(s'.node.retry, id) == RetryOf(s.node.retry, id))
    && var rs, rs' := RetryOf(s.node.retry, head.envelopeId), RetryOf(s'.node.retry, head.envelopeId);
       && (a.OnAir? ==> rs.lossAttempts < Budget(head.priority) && now >= rs.nextAttemptMs)
       && (a.Exhausted? ==> rs.lossAttempts >= Budget(head.priority))
       && if a.OnAir? && a.outcome != SENT then
            && rs'.lossAttempts == rs.lossAttempts + (if a.outcome == LOST then 1 else 0)
            && rs'.nextAttemptMs >= now + RETRY_BACKOFF_MS
          else rs' == rs
  }

  lemma AttemptBacks(cfg: Cfg, s: Sys, l: Label, s': Sys)
    requires l.Transmit? && Next(cfg, s, l, s')
    ensures Backed(s, l.now, l.attempt, s')
  {
    hide ChannelStep, BuildFrame, IsHeap, OutcomeOf, Budget, Framable;
  }

  /** No event is in the queue twice, so one taken out is not in it any more. */
  lemma HeadLeaves(cfg: Cfg, s: Sys, s': Sys, e: QueuedEvent)
    requires NodeInv(cfg, s) && e in s.node.queue
    requires multiset(s'.node.queue) + multiset{e} == multiset(s.node.queue)
    ensures e !in s'.node.queue
  {
    Members(cfg, s, e);
    DistinctCount(s.h.accepted, e);
    hide IsHeap, DistinctIds, GoodEvent;
    assert multiset(s.h.accepted)[e] >= multiset(s.node.queue)[e] == multiset(s'.node.queue)[e] + 1;
  }

  lemma HeadRetry(cfg: Cfg, s: Sys, now: int, a: Attempt, s': Sys)
    requires NodeInv(cfg, s) && s.node.queue != [] && RetryOk(s, s.node.queue[0])
    requires !a.Idle? && Attempted(s, now, a, s') && HeadBacked(s, now, a, s', s.node.queue[0])
    requires s.node.queue[0] in s'.node.queue
    ensures RetryOk(s', s.node.queue[0])
  {
    var head := s.node.queue[0];
    if Left(a) != multiset{} {
      HeadLeaves(cfg, s, s', head);
    }
  }

  lemma AttemptedFacts(s: Sys, now: int, a: Attempt, s': Sys)
    requires Attempted(s, now, a, s')
    ensures s'.node.seenBle == s.node.seenBle && s'.h.accepted == s.h.accepted
    ensures multiset(s'.node.queue) + Left(a) == multiset(s.node.queue)
    ensures !a.OnAir? ==> s'.h == s.h
    ensures a.Idle? ==> s'.node.queue == s.node.queue
    ensures a.OnAir? ==> s'.h.losses == s.h.losses + (if a.outcome == LOST then multiset{a.event.envelopeId} else multiset{})
    ensures a.OnAir? ==> s'.h.tried == s.h.tried[a.event.envelopeId := now]
    ensures a.Exhausted? || a.OnAir? ==> s.node.queue != [] && a.event == s.node.queue[0]
  {
    assert s.h.losses + multiset{} == s.h.losses;
  }

  lemma TransmitKeepsRetry(cfg: Cfg, s: Sys, l: Label, s': Sys)
    requires NodeInv(cfg, s) && RetryInv(s) && l.Transmit? && Next(cfg, s, l, s')
    ensures RetryInv(s')
  {
    AttemptMoves(cfg, s, l, s');
    AttemptBacks(cfg, s, l, s');
    hide Next, NodeInv, Attempted, RetryOk, Backed, RetryInv;
    AttemptKeepsRetry(cfg, s, l.now, l.attempt, s');
  }

  lemma AttemptKeepsRetry(cfg: Cfg, s: Sys, now: int, a: Attempt, s': Sys)
    requires NodeInv(cfg, s) && RetryInv(s) && Attempted(s, now, a, s') && Backed(s, now, a, s')
    ensures RetryInv(s')
  {
    hide IsHeap, Conserved, Budget, GoodEvent, Ids, DistinctIds, Attempted;
    AttemptedFacts(s, now, a, s');
    if !a.Idle? {
      Members(cfg, s, s.node.queue[0]);
      forall e | e in s'.node.queue ensures RetryOk(s', e) {
        assert e in multiset(s'.node.queue) + Left(a);
        QueuedRetry(cfg, s, now, a, s', e);
      }
      forall e | e in s'.h.accepted ensures s'.h.losses[e.envelopeId] <= Budget(e.priority) {
        BudgetKept(cfg, s, now, a, s', e);
      }
    }
  }

  lemma BudgetKept(cfg: Cfg, s: Sys, now: int, a: Attempt, s': Sys, e: QueuedEvent)
    requires NodeInv(cfg, s) && RetryInv(s) && !a.Idle? && Attempted(s, now, a, s') && s.node.queue != []
    requires HeadBacked(s, now, a, s', s.node.queue[0]) && e in s.h.accepted
    ensures s'.h.losses[e.envelopeId] <= Budget(e.priority)
  {
    var head := s.node.queue[0];
    AttemptedFacts(s, now, a, s');
    hide IsHeap, Conserved, Budget, GoodEvent, Ids, Attempted;
    assert RetryOk(s, head);
    Members(cfg, s, head);
    if e.envelopeId == head.envelopeId {
      SameId(s.h.accepted, e, head);
    }
  }

  lemma QueuedRetry(cfg: Cfg, s: Sys, now: int, a: Attempt, s': Sys, e: QueuedEvent)
    requires NodeInv(cfg, s) && RetryInv(s) && !a.Idle? && Attempted(s, now, a, s') && s.node.queue != []
    requires HeadBacked(s, now, a, s', s.node.queue[0]) && e in s.node.queue && e in s'.node.queue
    ensures RetryOk(s', e)
  {
    var head := s.node.queue[0];
    hide IsHeap, Conserved, Budget, GoodEvent, Ids, DistinctIds;
    assert RetryOk(s, e) && RetryOk(s, head);
    if e.envelopeId == head.envelopeId {
      Members(cfg, s, head);
      Members(cfg, s, e);
      SameId(s.h.accepted, e, head);
      HeadRetry(cfg, s, now, a, s');
    }
  }

  lemma TransmitKeepsAir(cfg: Cfg, s: Sys, l: Label, s': Sys)
    requires NodeInv(cfg, s) && AirInv(cfg, s) && SentInv(cfg, s) && RowsInv(cfg, s.ring, s.rows, s.h.sent)
    requires l.Transmit? && Next(cfg, s, l, s')
    ensures AirInv(cfg, s') && SentInv(cfg, s') && RowsInv(cfg, s'.ring, s'.rows, s'.h.sent)
  {
    AttemptMoves(cfg, s, l, s');
    AirMoves(cfg, s, l, s');
    AttemptKeepsHistory(s, l.now, l.attempt, s');
    hide Next, NodeInv, AirInv, SentInv, RowsInv, Attempted;
    AirKept(cfg, s, l.attempt, s');
    SentKept(cfg, s, l.attempt, s');
    RowsMoreSent(cfg, s.ring, s.rows, s.h.sent, s'.h.sent);
  }

  lemma AttemptKeepsHistory(s: Sys, now: int, a: Attempt, s': Sys)
    requires Attempted(s, now, a, s')
    ensures s'.h.accepted == s.h.accepted && s'.h.refused == s.h.refused && s'.ring == s.ring && s'.rows == s.rows
    ensures s'.h.sent == s.h.sent + if a.OnAir? && a.outcome == SENT then [a.event] else []
    ensures a.OnAir? ==> a.event in s.node.queue
  {
    hide IsHeap;
  }

  lemma AirKept(cfg: Cfg, s: Sys, a: Attempt, s': Sys)
    requires NodeInv(cfg, s) && AirInv(cfg, s) && s'.h.accepted == s.h.accepted
    requires s'.h.sent == s.h.sent + if a.OnAir? && a.outcome == SENT then [a.event] else []
    requires a.OnAir? ==> a.event in s.node.queue
    requires forall d :: d in s'.pending ==> d in s.pending || (a.OnAir? && NewOnAir(cfg, a, d))
    ensures AirInv(cfg, s')
  {
    hide IsHeap, Conserved, DistinctIds, GoodEvent, Carries;
    forall d | d in s'.pending ensures Authentic(cfg, s'.h, d.frame) {
      if d in s.pending {
        assert Authentic(cfg, s.h, d.frame);
      } else {
        Members(cfg, s, a.event);
      }
    }
  }

  lemma SentKept(cfg: Cfg, s: Sys, a: Attempt, s': Sys)
    requires SentInv(cfg, s) && s'.ring == s.ring && s'.h.refused == s.h.refused
    requires s'.h.sent == s.h.sent + if a.OnAir? && a.outcome == SENT then [a.event] else []
    requires forall d :: d in s.pending ==> d in s'.pending
    requires a.OnAir? && a.outcome == SENT ==> InFlight(cfg, s'.pending, a.event)
    ensures SentInv(cfg, s')
  {
    hide Carries;
    forall e | e in s'.h.sent
      ensures e.envelopeId in s'.ring || e.envelopeId in s'.h.refused || InFlight(cfg, s'.pending, e)
    {
      if e in s.h.sent && InFlight(cfg, s.pending, e) {
        var d :| d in s.pending && !d.frame.corrupted && Carries(cfg, d.frame, e);
        assert d in s'.pending;
      }
    }
  }

  lemma RowsMoreSent(cfg: Cfg, ring: set<Bytes>, rows: map<Bytes, Row>, sent: seq<QueuedEvent>, sent': seq<QueuedEvent>)
    requires RowsInv(cfg, ring, rows, sent) && sent <= sent'
    ensures RowsInv(cfg, ring, rows, sent')
  {
    hide EventRow;
    forall id | id in rows ensures Sourced(cfg, sent', id, rows[id]) {
      assert Sourced(cfg, sent, id, rows[id]);
    }
  }

  /** A delivery that an attempt added: a frame of its event, intact only if the attempt was sent. */
  ghost predicate NewOnAir(cfg: Cfg, a: Attempt, d: Delivery)
    requires a.OnAir?
  {
    Carries(cfg, d.frame, a.event) && (!d.frame.corrupted ==> a.outcome == SENT)
  }

  lemma AttemptAirs(cfg: Cfg, s: Sys, l: Label, s': Sys)
    requires l.Transmit? && Next(cfg, s, l, s')
    ensures var a := l.attempt;
      && (!a.OnAir? ==> s'.pending == s.pending)
      && (a.OnAir? ==>
            && a.event in s.node.queue && Framable(a.event)
            && var frame := BuildFrame(cfg.a, a.event, s.node.packetSeq + 1, cfg.b.nodeId);
               && ChannelStep(cfg.air, s.pending, l.now, frame, a.draw, s'.pending)
               && a.outcome == OutcomeOf(frame, a.draw))
  {
    hide IsHeap, BuildFrame, ChannelStep, OutcomeOf, Budget;
  }

  lemma AirMoves(cfg: Cfg, s: Sys, l: Label, s': Sys)
    requires l.Transmit? && Next(cfg, s, l, s')
    ensures var a := l.attempt;
      && (!a.OnAir? ==> s'.pending == s.pending)
      && (forall d :: d in s.pending ==> d in s'.pending)
      && (a.OnAir? ==>
            && a.event in s.node.queue
            && (forall d :: d in s'.pending ==> d in s.pending || NewOnAir(cfg, a, d))
            && (a.outcome == SENT ==> InFlight(cfg, s'.pending, a.event)))
  {
    hide Next, BuildFrame, ChannelStep, OutcomeOf, NewOnAir, InFlight;
    AttemptAirs(cfg, s, l, s');
    if l.attempt.OnAir? {
      ChannelAdds(cfg, s.node.packetSeq + 1, l.now, l.attempt, s.pending, s'.pending);
    }
  }

  lemma ChannelAdds(cfg: Cfg, packetSeq: nat, now: int, a: Attempt, pending: seq<Delivery>, pending': seq<Delivery>)
    requires a.OnAir? && Framable(a.event)
    requires var frame := BuildFrame(cfg.a, a.event, packetSeq, cfg.b.nodeId);
      && ChannelStep(cfg.air, pending, now, frame, a.draw, pending')
      && a.outcome == OutcomeOf(frame, a.draw)
    ensures forall d :: d in pending ==> d in pending'
    ensures forall d :: d in pending' ==> d in pending || NewOnAir(cfg, a, d)
    ensures a.outcome == SENT ==> InFlight(cfg, pending', a.event)
  {
    var frame := BuildFrame(cfg.a, a.event, packetSeq, cfg.b.nodeId);
    assert Carries(cfg, frame, a.event);
    hide RawFrame, BuildFrame, Flipped;
    var added := Added(now, frame, a.draw);
    if added != [] {
      ReorderedKeeps(cfg.air, pending + added, pending');
    }
    hide Reordered, SortByDue;
    assert multiset(pending') == multiset(pending + added) by {
      if added == [] {
        assert pending + added == pending;
      }
    }
    forall d | d in added ensures NewOnAir(cfg, a, d) {
      if a.draw.DrawCorrupt? {
        CorruptFlips(frame, a.draw.index);
      }
    }
    InBoth(pending, added, pending');
    if a.outcome == SENT {
      assert added[0].frame == frame && added[0] in pending';
    }
  }

  lemma CorruptFlips(f: LoraFrame, i: nat)
    requires CorruptibleIndex(f.raw, i) && i < |f.raw|
    ensures Flipped(f.raw, Corrupt(f, i).raw) && Corrupt(f, i).corrupted
  {
  }

  lemma InBoth(pending: seq<Delivery>, added: seq<Delivery>, pending': seq<Delivery>)
    requires multiset(pending') == multiset(pending + added)
    ensures forall d :: d in pending' <==> d in pending || d in added
  {
    forall d ensures d in pending' <==> d in pending || d in added {
      assert d in pending' <==> d in multiset(pending');
      assert d in pending + added <==> d in multiset(pending + added);
    }
  }

  // ---------------------------------------------------------------- reception

  /** The receiver takes the intact frame of `e` at time `now`: its time-to-live has not wrapped
      to zero on air and its creation time is within 48 hours of the receiver's clock. */
  predicate Deliverable(e: QueuedEvent, now: int) {
    && e.ttl % 256 != 0
    && -172800000 <= e.createdMs % 0x1_0000_0000_0000 - now <= 172800000
  }

  /** A corrupted frame never passes the checks, whatever the receiver's clock and ring. */
  lemma CorruptedRejected(cfg: Cfg, ring: set<Bytes>, f: LoraFrame, e: QueuedEvent, now: int)
    requires SameField(cfg) && Carries(cfg, f, e) && f.corrupted
    ensures var v := Checked(cfg.b, ring, f, Some(now));
      (v == L.Rejected(L.PayloadTooLong) || v == L.Rejected(L.CrcMismatch)) && L.RingIds(v) == {}
  {
    var c, key, g := cfg.a.crypto, cfg.a.field.loraMacKey, FrameFields(cfg.a, e, f.packetSeq);
    var raw := L.Encode(c, key, g).value;
    FramableEncodes(cfg.a, e, f.packetSeq);
    hide L.Verify, L.Flip, L.Encode, L.RingIds;
    var i: nat :| CorruptibleIndex(raw, i) && i < |raw| && f.raw == raw[i := L.Flip(raw[i])];
    L.FlipCaught(c, key, g, i, Some(now), Some(ring), L.HLC_REPLAY_WINDOW_MS);
  }

  lemma FramableEncodes(cfg: NodeCfg, e: QueuedEvent, packetSeq: nat)
    requires Framable(e)
    ensures var g := FrameFields(cfg, e, packetSeq);
      L.Encodable(g) && |L.Encode(cfg.crypto, cfg.field.loraMacKey, g).value| >= L.EVENT_MIN_FRAME_BYTES
  {
    L.EncodedParts(cfg.crypto, cfg.field.loraMacKey, FrameFields(cfg, e, packetSeq));
  }

  /** A corrupted frame changes nothing at the receiver and the gateway. */
  lemma CorruptedIgnored(cfg: Cfg, rx: Rx, f: LoraFrame, e: QueuedEvent, now: int)
    requires SameField(cfg) && Carries(cfg, f, e) && f.corrupted
    ensures ReceiveOne(cfg, rx, f, now) == rx
  {
    CorruptedRejected(cfg, rx.ring, f, e, now);
    hide Checked, L.RingIds;
  }

  function GoodOnAir(cfg: Cfg, e: QueuedEvent, packetSeq: nat): L.Frame {
    L.Event(1, cfg.a.field.FieldTag(), cfg.a.nodeNum % U16, packetSeq % U16, e.ttl % 256, e.envelopeId, e.eventType,
            e.priority, e.createdMs % U48, e.createdCounter % U16, e.compactPayload)
  }

  lemma OnAirOf(cfg: Cfg, e: QueuedEvent, packetSeq: nat)
    requires GoodEvent(e)
    ensures L.OnAir(FrameFields(cfg.a, e, packetSeq)) == GoodOnAir(cfg, e, packetSeq)
  {
  }

  /** The verdict on the intact frame of a good event, and exactly when it is which. */
  lemma IntactVerdict(cfg: Cfg, ring: set<Bytes>, f: LoraFrame, e: QueuedEvent, now: int)
    requires SameField(cfg) && GoodEvent(e) && Carries(cfg, f, e) && !f.corrupted
    ensures Checked(cfg.b, ring, f, Some(now)) ==
      if e.ttl % 256 == 0 then L.Rejected(L.TtlExpired)
      else if !Deliverable(e, now) then L.Rejected(L.ReplayWindow)
      else if e.envelopeId in ring then L.Rejected(L.ReplayDuplicate)
      else L.Accepted(GoodOnAir(cfg, e, f.packetSeq))
  {
    hide L.Inspect;
    L.InspectEncoded(cfg.a.crypto, cfg.a.field.loraMacKey, FrameFields(cfg.a, e, f.packetSeq));
    OnAirOf(cfg, e, f.packetSeq);
  }

  /** What the intact frame of a good event does: refused unless deliverable, ignored when the
      ring knows it, and otherwise a new ring entry and a new row at the gateway. */
  lemma IntactReceived(cfg: Cfg, rx: Rx, f: LoraFrame, e: QueuedEvent, now: int)
    requires SameField(cfg) && GoodEvent(e) && Carries(cfg, f, e) && !f.corrupted
    requires rx.rows.Keys == rx.ring
    ensures ReceiveOne(cfg, rx, f, now) ==
      if !Deliverable(e, now) then rx.(refused := rx.refused + {e.envelopeId})
      else if e.envelopeId in rx.ring then rx
      else rx.(ring := rx.ring + {e.envelopeId}, rows := rx.rows[e.envelopeId := EventRow(cfg, e)])
  {
    IntactVerdict(cfg, rx.ring, f, e, now);
    hide L.Verify, Checked, DecodeCompact;
    assert rx.ring + {} == rx.ring;
  }

  /** What a batch of frames starting from `rx` may lead to. */
  ghost predicate Settles(cfg: Cfg, rx: Rx, fs: seq<LoraFrame>, now: int, sent: seq<QueuedEvent>, rx': Rx) {
    && rx.ring <= rx'.ring && rx.refused <= rx'.refused
    && (forall id :: id in rx.rows ==> id in rx'.rows && rx'.rows[id] == rx.rows[id])
    && RowsInv(cfg, rx'.ring, rx'.rows, sent)
    && (forall f :: f in fs && !f.corrupted ==> f.eventId in rx'.ring || f.eventId in rx'.refused)
    && (forall id :: id in rx'.refused ==> id in rx.refused || Undeliverable(sent, id, now))
  }

  ghost predicate Undeliverable(sent: seq<QueuedEvent>, id: Bytes, now: int) {
    exists e :: e in sent && e.envelopeId == id && !Deliverable(e, now)
  }

  lemma OneSettles(cfg: Cfg, rx: Rx, f: LoraFrame, now: int, h: History)
    requires SameField(cfg) && RowsInv(cfg, rx.ring, rx.rows, h.sent) && Authentic(cfg, h, f)
    ensures Settles(cfg, rx, [f], now, h.sent, ReceiveOne(cfg, rx, f, now))
  {
    hide ReceiveOne, Carries, GoodEvent;
    var e :| e in h.accepted && GoodEvent(e) && Carries(cfg, f, e) && (!f.corrupted ==> e in h.sent);
    if f.corrupted {
      CorruptedIgnored(cfg, rx, f, e, now);
    } else {
      IntactReceived(cfg, rx, f, e, now);
      CarriesId(cfg, f, e);
      IntactSettles(cfg, rx, f, e, now, h);
    }
  }

  lemma IntactSettles(cfg: Cfg, rx: Rx, f: LoraFrame, e: QueuedEvent, now: int, h: History)
    requires RowsInv(cfg, rx.ring, rx.rows, h.sent) && e in h.sent && f.eventId == e.envelopeId
    requires ReceiveOne(cfg, rx, f, now) ==
      if !Deliverable(e, now) then rx.(refused := rx.refused + {e.envelopeId})
      else if e.envelopeId in rx.ring then rx
      else rx.(ring := rx.ring + {e.envelopeId}, rows := rx.rows[e.envelopeId := EventRow(cfg, e)])
    ensures Settles(cfg, rx, [f], now, h.sent, ReceiveOne(cfg, rx, f, now))
  {
    hide ReceiveOne, EventRow;
    var rx' := ReceiveOne(cfg, rx, f, now);
    forall id | id in rx'.rows ensures Sourced(cfg, h.sent, id, rx'.rows[id]) {
      if id in rx.rows {
        assert Sourced(cfg, h.sent, id, rx.rows[id]);
      } else {
        assert id == e.envelopeId && rx'.rows[id] == EventRow(cfg, e);
      }
    }
  }

  lemma {:induction false} AllSettles(cfg: Cfg, rx: Rx, fs: seq<LoraFrame>, now: int, h: History)
    requires SameField(cfg) && RowsInv(cfg, rx.ring, rx.rows, h.sent)
    requires forall f :: f in fs ==> Authentic(cfg, h, f)
    ensures Settles(cfg, rx, fs, now, h.sent, ReceiveAll(cfg, rx, fs, now))
    decreases fs
  {
    hide ReceiveOne, Authentic, RowsInv, Undeliverable;
    if fs != [] {
      var rx1 := ReceiveOne(cfg, rx, fs[0], now);
      OneSettles(cfg, rx, fs[0], now, h);
      AllSettles(cfg, rx1, fs[1..], now, h);
      var rx' := ReceiveAll(cfg, rx, fs, now);
      forall f | f in fs && !f.corrupted ensures f.eventId in rx'.ring || f.eventId in rx'.refused {
        assert f == fs[0] || f in fs[1..];
        assert fs[0] in [fs[0]];
      }
    }
  }

  lemma DrainSettles(cfg: Cfg, s: Sys, l: Label, s': Sys)
    requires SameField(cfg) && Inv(cfg, s) && l.Drain? && Next(cfg, s, l, s')
    ensures Settles(cfg, Rx(s.ring, s.rows, s.h.refused), Ready(s.pending, l.now), l.now, s.h.sent,
                    Rx(s'.ring, s'.rows, s'.h.refused))
  {
    hide Authentic, RowsInv, ReceiveAll, Settles, NodeInv, RetryInv, SentInv;
    DrainSplits(s.pending, l.now);
    forall f | f in Ready(s.pending, l.now) ensures Authentic(cfg, s.h, f) {
      var d :| d in s.pending && d.frame == f && d.dueMs <= l.now;
    }
    AllSettles(cfg, Rx(s.ring, s.rows, s.h.refused), Ready(s.pending, l.now), l.now, s.h);
  }

  lemma DrainKeeps(cfg: Cfg, s: Sys, l: Label, s': Sys)
    requires SameField(cfg) && Inv(cfg, s) && l.Drain? && Next(cfg, s, l, s')
    ensures Inv(cfg, s')
  {
    DrainSettles(cfg, s, l, s');
    DrainSplits(s.pending, l.now);
    hide ReceiveAll, RowsInv, IsHeap, DistinctIds, Conserved, GoodEvent, Carries, Ids;
    assert NodeInv(cfg, s') && RetryInv(s') by {
      hide Settles, AirInv, SentInv;
      assert forall e :: e in s.node.queue ==> RetryOk(s, e) ==> RetryOk(s', e);
    }
    hide NodeInv, RetryInv;
    forall d | d in s'.pending ensures Authentic(cfg, s'.h, d.frame) {
      assert Authentic(cfg, s.h, d.frame);
    }
    forall e | e in s'.h.sent
      ensures e.envelopeId in s'.ring || e.envelopeId in s'.h.refused || InFlight(cfg, s'.pending, e)
    {
      if InFlight(cfg, s.pending, e) {
        var d :| d in s.pending && !d.frame.corrupted && Carries(cfg, d.frame, e);
        CarriesId(cfg, d.frame, e);
        if d.dueMs <= l.now {
          assert d.frame in Ready(s.pending, l.now);
        } else {
          assert d in s'.pending;
        }
      }
    }
  }

  lemma CarriesId(cfg: Cfg, f: LoraFrame, e: QueuedEvent)
    requires Carries(cfg, f, e)
    ensures f.eventId == e.envelopeId
  {
  }

  lemma RebootConserves(s: Sys, s': Sys)
    requires Conserved(s) && s'.node.queue == [] && s'.node.dropped == s.node.dropped
    requires s'.h == s.h.(wiped := s.h.wiped + s.node.queue)
    ensures Conserved(s')
  {
    Hand(multiset(s.node.queue), multiset{}, multiset(s.node.queue), multiset(s.h.sent), multiset(s.node.dropped), multiset(s.h.wiped));
    assert multiset(s'.h.wiped) == multiset(s.h.wiped) + multiset(s.node.queue);
  }

  lemma RebootKeeps(cfg: Cfg, s: Sys, l: Label, s': Sys)
    requires Inv(cfg, s) && l.RebootSender? && Next(cfg, s, l, s')
    ensures Inv(cfg, s')
  {
    hide RowsInv, GoodEvent, Carries, Ids, DistinctIds;
    RebootConserves(s, s');
    hide Conserved;
    forall d | d in s'.pending ensures Authentic(cfg, s'.h, d.frame) {
      assert Authentic(cfg, s.h, d.frame);
    }
  }

  // ---------------------------------------------------------------- whole runs

  lemma StepInv(cfg: Cfg, s: Sys, l: Label, s': Sys)
    requires SameField(cfg) && Inv(cfg, s) && Next(cfg, s, l, s')
    ensures Inv(cfg, s')
  {
    hide NodeInv, RetryInv, AirInv, SentInv, RowsInv, SameField, Next;
    match l
    case Ingest(_, _, _) =>
      IngestKeepsNode(cfg, s, l, s');
      IngestKeepsRetry(cfg, s, l, s');
      IngestKeepsAir(cfg, s, l, s');
    case Transmit(_, _) =>
      TransmitKeepsNode(cfg, s, l, s');
      TransmitKeepsRetry(cfg, s, l, s');
      TransmitKeepsAir(cfg, s, l, s');
    case Drain(_) =>
      DrainKeeps(cfg, s, l, s');
    case RebootSender =>
      RebootKeeps(cfg, s, l, s');
    case RebootReceiver =>
      Stutter(cfg, s, l, s');
  }

  lemma Stutter(cfg: Cfg, s: Sys, l: Label, s': Sys)
    requires l.RebootReceiver? && Next(cfg, s, l, s')
    ensures s' == s
  {
  }

  /** A run: any interleaving of steps from the start. */
  ghost predicate Run(cfg: Cfg, ss: seq<Sys>, ls: seq<Label>) {
    && |ss| == |ls| + 1 && ss[0] == SYS_ZERO
    && forall i :: 0 <= i < |ls| ==> Next(cfg, ss[i], ls[i], ss[i + 1])
  }

  lemma {:induction false} RunInv(cfg: Cfg, ss: seq<Sys>, ls: seq<Label>, n: nat)
    requires SameField(cfg) && Run(cfg, ss, ls) && n < |ss|
    ensures Inv(cfg, ss[n])
    decreases n
  {
    hide Inv, Next;
    if n == 0 {
      InitInv(cfg);
    } else {
      RunInv(cfg, ss, ls, n - 1);
      StepInv(cfg, ss[n - 1], ls[n - 1], ss[n]);
    }
  }
}
