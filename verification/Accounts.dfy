/** What an ingest, an attempt and a reception do, told by their inputs and effects alone. */
module Accounts {
  import opened Bits
  import opened Keys
  import opened ProtoWire
  import E = EnvelopeV3
  import Crc
  import L = LoraV1
  import opened FrameLayout
  import opened Compact
  import opened Model
  import opened Heapq
  import opened Channel
  import opened ChannelLaws
  import opened Node
  import opened SigLayout
  import opened Genuine
  import opened Admission
  import opened Phone
  import opened Pipeline
  import opened Theorems

  // ---------------------------------------------------------------- ingest: the answer

  /** A version 3 envelope with a number that does not fit its slot in the 141 bytes. */
  predicate TooWide(data: Bytes) {
    match E.EnvelopeOf(data)
    case Ok(e) =>
      && e.protocolVersion == 3 && e.sigAlgo == 1
      && (|| e.eventType >= 0x1_0000_0000 || e.priority >= 0x1_0000_0000 || e.maxHops >= 0x1_0000_0000
          || e.createdAt.counter >= 0x1_0000_0000 || e.expiresAt.counter >= 0x1_0000_0000
          || e.createdAt.ms >= 0x1_0000_0000_0000_0000 || e.expiresAt.ms >= 0x1_0000_0000_0000_0000)
    case Malformed => false
  }

  /** A place for a newcomer: a free one, or that of something less severe. */
  ghost predicate HasPlace(cfg: NodeCfg, s: NodeState, priority: nat) {
    |s.queue| < cfg.maxQueueSize || exists x :: x in s.queue && x.priority > priority
  }

  ghost predicate Storable(cfg: NodeCfg, s: NodeState, e: E.Envelope) {
    && e.envelopeId !in s.seenBle && 1 <= e.priority <= 6 && HasPlace(cfg, s, e.priority) && Translatable(e)
  }

  /** Genuine, new, of a wire priority, and no place in a queue that holds something. */
  ghost predicate NoRoom(cfg: NodeCfg, s: NodeState, e: E.Envelope) {
    && e.envelopeId !in s.seenBle && 1 <= e.priority <= 6 && s.queue != [] && !HasPlace(cfg, s, e.priority)
  }

  /** The answer to any bytes. Accepted is the genuine envelope that can be stored; a duplicate is genuine
      and known. Everything that is not genuine is rejected, unless packing it raises. */
  lemma IngestAnswer(cfg: NodeCfg, s: NodeState, now: int, data: Bytes, s': NodeState, out: IngestResult)
    requires IngestStep(cfg, s, now, data, s', out)
    ensures IsAccepted(out) <==> IsGenuine(cfg, now, data) && Storable(cfg, s, E.EnvelopeOf(data).value)
    ensures out.Receipted? && out.receipt.status == ReceiptDuplicate
       <==> IsGenuine(cfg, now, data) && E.EnvelopeOf(data).value.envelopeId in s.seenBle
    ensures out.Receipted? && out.receipt.status == ReceiptRejected
       <==> (!IsGenuine(cfg, now, data) && !TooWide(data))
            || (IsGenuine(cfg, now, data) && NoRoom(cfg, s, E.EnvelopeOf(data).value))
    ensures out.Receipted? ==>
      && out.receipt.ref == (match E.EnvelopeOf(data) case Ok(e) => e.envelopeId case Malformed => [])
      && out.receipt.queueDepth == |s'.queue|
  {
    VerifiedIff(cfg, now, data);
    RefusedIff(cfg, now, data);
    ScreenTripsIff(cfg, now, data);
    TooWideIff(data);
    if IsGenuine(cfg, now, data) {
      AdmitAnswer(cfg, s, now, E.EnvelopeOf(data).value);
    }
    hide Screen, Admit, Unpackable, TooWide, IsGenuine, Storable, NoRoom, IsHeap, E.EnvelopeOf;
  }

  lemma TooWideIff(data: Bytes)
    ensures TooWide(data) <==> Unpackable(data)
  {
    hide E.EnvelopeOf;
  }

  lemma AdmitAnswer(cfg: NodeCfg, s: NodeState, now: int, e: E.Envelope)
    ensures var d := Admit(cfg, s, now, e);
      && (d.Store? <==> Storable(cfg, s, e))
      && (d.Store? ==> d.event.envelopeId == e.envelopeId)
      && (d.Reply? ==> d.ref == e.envelopeId && d.status != ReceiptAccepted)
      && (d.Reply? && d.status == ReceiptDuplicate <==> e.envelopeId in s.seenBle)
      && (d.Reply? && d.status == ReceiptRejected <==> NoRoom(cfg, s, e))
  {
    hide Translate, Translatable;
    TranslatableAlways(cfg, s.anonByAuthor, now, e);
  }

  /** Short of acceptance the node stays as it is. Only an exception may cost it something: in a full queue,
      the first of the least severe events, which the newcomer would have replaced. */
  lemma IngestLeaves(cfg: NodeCfg, s: NodeState, now: int, data: Bytes, s': NodeState, out: IngestResult)
    requires IngestStep(cfg, s, now, data, s', out) && !IsAccepted(out)
    ensures out.Receipted? ==> s' == s
    ensures out.Raised? && s' != s ==>
      && IsGenuine(cfg, now, data) && !Translatable(E.EnvelopeOf(data).value)
      && exists w :: Evicts(cfg, s, E.EnvelopeOf(data).value, w) && Replaces(s, s', [w], [])
                     && s' == s.(queue := s'.queue, dropped := s.dropped + [w])
  {
    NothingAdded(s);
    DecideIs(cfg, s, now, data);
    hide Decide, IsGenuine, E.EnvelopeOf, IsHeap;
    if IsGenuine(cfg, now, data) {
      var e := E.EnvelopeOf(data).value;
      TranslatableAlways(cfg, s.anonByAuthor, now, e);
      AdmitEvicts(cfg, s, now, e);
      hide Admit, Translate, Translatable, Evicts;
      var d := Decide(cfg, s, now, data);
      if d.TripAfterEviction? && d.gone != [] {
        var w := d.gone[0];
        assert d.gone == [w];
        assert multiset(s.queue) + multiset([]) == multiset(s.queue);
        assert Evicts(cfg, s, e, w) && Replaces(s, s', [w], []);
      }
    }
  }

  /** The genuine are admitted or not by the state of the node; nothing else gets that far. */
  lemma DecideIs(cfg: NodeCfg, s: NodeState, now: int, data: Bytes)
    ensures IsGenuine(cfg, now, data) ==> E.EnvelopeOf(data).Ok? && Decide(cfg, s, now, data) == Admit(cfg, s, now, E.EnvelopeOf(data).value)
    ensures !IsGenuine(cfg, now, data) ==> Decide(cfg, s, now, data).Trip? || Decide(cfg, s, now, data).Reply?
  {
    VerifiedIff(cfg, now, data);
    hide Screen, Admit, E.EnvelopeOf;
  }

  lemma NothingAdded(s: NodeState)
    ensures s.dropped + [] == s.dropped && s.seenBle + Ids([]) == s.seenBle
  {
  }

  /** `w` is what a full queue gives up for `e`: the first of the least severe, and less severe than `e`. */
  ghost predicate Evicts(cfg: NodeCfg, s: NodeState, e: E.Envelope, w: QueuedEvent) {
    && |s.queue| >= cfg.maxQueueSize && w.priority > e.priority
    && exists k: nat :: k < |s.queue| && s.queue[k] == w && FirstWorst(s.queue, k)
  }

  ghost predicate FirstWorst(q: Queue, k: nat)
    requires k < |q|
  {
    && (forall i :: 0 <= i < |q| ==> q[i].priority <= q[k].priority)
    && (forall i :: 0 <= i < k ==> q[i].priority < q[k].priority)
  }

  ghost predicate Replaces(s: NodeState, s': NodeState, gone: Queue, news: Queue) {
    IsHeap(s'.queue) && multiset(s'.queue) + multiset(gone) == multiset(s.queue) + multiset(news)
  }

  lemma AdmitEvicts(cfg: NodeCfg, s: NodeState, now: int, e: E.Envelope)
    ensures var d := Admit(cfg, s, now, e);
      && (d.Store? || d.TripAfterEviction? ==>
            && (|s.queue| < cfg.maxQueueSize ==> d.gone == [])
            && (|s.queue| >= cfg.maxQueueSize ==> |d.gone| == 1 && Evicts(cfg, s, e, d.gone[0])))
      && (d.TripAfterEviction? ==> Translate(cfg, s.anonByAuthor, now, e) == Malformed)
  {
    hide Translate;
    if |s.queue| >= cfg.maxQueueSize && s.queue != [] {
      assert FirstWorst(s.queue, WorstIndex(s.queue));
    }
  }

  // ---------------------------------------------------------------- ingest: what is stored

  /** The queued event of an envelope: its own numbers, and six hops if it asks for none. */
  predicate EventFrom(e: E.Envelope, ev: QueuedEvent) {
    && ev.createdMs == e.createdAt.ms && ev.createdCounter == e.createdAt.counter
    && ev.envelopeId == e.envelopeId && ev.eventType == e.eventType && ev.priority == e.priority
    && ev.ttl == (if e.maxHops == 0 then 6 else e.maxHops) && ev.authorKey == e.authorKey
  }

  /** Eight bytes of anonymous id, battery, source of the location. */
  ghost predicate PresenceBytesOf(e: E.Envelope, b: Bytes) {
    && E.PresenceOf(e.payload).Ok? && |b| == 10
    && var p := E.PresenceOf(e.payload).value;
       AnonShown(p.anonUserId, b[0..8]) && b[8] == p.batteryHint % 256 && b[9] == p.location.source % 256
  }

  /** Eight bytes of anonymous id, the node's own number. */
  ghost predicate CheckpointBytesOf(cfg: NodeCfg, e: E.Envelope, b: Bytes) {
    && E.CheckpointOf(e.payload).Ok? && |b| == 10
    && AnonShown(E.CheckpointOf(e.payload).value.anonUserId, b[0..8])
    && b[8] == cfg.nodeNum % 256 && b[9] == cfg.nodeNum / 256 % 256
  }

  /** Eight bytes of the author's remembered anonymous id, safety state, and the location or zeros. */
  ghost predicate StatusBytesOf(known: map<Bytes, Bytes>, now: int, e: E.Envelope, b: Bytes) {
    && E.StatusOf(e.payload).Ok? && |b| == 22
    && var st := E.StatusOf(e.payload).value;
       && AnonShown(if e.authorKey in known then known[e.authorKey] else [], b[0..8])
       && b[8] == st.safetyState % 256
       && (st.location.None? ==> forall i :: 9 <= i < 22 ==> b[i] == 0)
       && (st.location.Some? ==>
             var l := st.location.value;
             && b[9] == l.source % 256 && b[10..14] == Le(l.latE7, 4) && b[14..18] == Le(l.lngE7, 4)
             && exists acc, age :: AccuracyShown(l.accuracyM, acc) && AgeShown(l.observedAt.ms, now, age)
                                   && b[18..20] == Le(acc, 2) && b[20..22] == Le(age, 2))
  }

  ghost predicate PayloadFrom(cfg: NodeCfg, known: map<Bytes, Bytes>, now: int, e: E.Envelope, b: Bytes) {
    || (e.eventType == 1 && StatusBytesOf(known, now, e, b))
    || (e.eventType == 3 && PresenceBytesOf(e, b))
    || (e.eventType == 4 && CheckpointBytesOf(cfg, e, b))
  }

  /** The node took in `ev`, its only news, in place of `gone`. */
  ghost predicate Takes(cfg: NodeCfg, s: NodeState, now: int, e: E.Envelope, s': NodeState, ev: QueuedEvent, gone: Queue) {
    && EventFrom(e, ev) && PayloadFrom(cfg, s.anonByAuthor, now, e, ev.compactPayload)
    && Replaces(s, s', gone, [ev])
    && (|s.queue| < cfg.maxQueueSize ==> gone == [])
    && (|s.queue| >= cfg.maxQueueSize ==> |gone| == 1 && Evicts(cfg, s, e, gone[0]))
    && s' == s.(queue := s'.queue, seenBle := s.seenBle + {e.envelopeId}, dropped := s.dropped + gone,
                anonByAuthor := s'.anonByAuthor)
  }

  lemma IngestTakes(cfg: NodeCfg, s: NodeState, now: int, data: Bytes, s': NodeState, out: IngestResult)
    requires IngestStep(cfg, s, now, data, s', out) && IsAccepted(out)
    ensures IsGenuine(cfg, now, data)
    ensures exists ev, gone :: Takes(cfg, s, now, E.EnvelopeOf(data).value, s', ev, gone)
                               && News(Decide(cfg, s, now, data)) == [ev]
  {
    hide IsGenuine, E.EnvelopeOf, IsHeap, Admit, Storable, NoRoom, TooWide, Decide, EventFrom, PayloadFrom, Evicts;
    IngestAnswer(cfg, s, now, data, s', out);
    AcceptedIffNews(cfg, s, now, data, s', out);
    DecideIs(cfg, s, now, data);
    var e, d := E.EnvelopeOf(data).value, Decide(cfg, s, now, data);
    AdmitEvicts(cfg, s, now, e);
    AdmitStores(cfg, s, now, e);
    OneId(d);
    assert Takes(cfg, s, now, e, s', d.event, d.gone);
  }

  lemma OneId(d: Decision)
    requires d.Store?
    ensures Ids(News(d)) == {d.event.envelopeId}
  {
  }

  lemma AdmitStores(cfg: NodeCfg, s: NodeState, now: int, e: E.Envelope)
    ensures var d := Admit(cfg, s, now, e);
      d.Store? ==>
        && EventFrom(e, d.event) && d.event.envelopeId == e.envelopeId
        && PayloadFrom(cfg, s.anonByAuthor, now, e, d.event.compactPayload)
  {
    hide PayloadFrom, Translate;
    if Translate(cfg, s.anonByAuthor, now, e).Ok? {
      TranslatedPayload(cfg, s.anonByAuthor, now, e);
    }
  }

  lemma TranslatedPayload(cfg: NodeCfg, known: map<Bytes, Bytes>, now: int, e: E.Envelope)
    requires Translate(cfg, known, now, e).Ok?
    ensures PayloadFrom(cfg, known, now, e, Translate(cfg, known, now, e).value.0)
  {
    hide E.PresenceOf, E.StatusOf, E.CheckpointOf, PresenceFromTyped, CheckpointFromTyped, SosFromTyped, AnonShown, Le, AgeShown;
    if e.eventType == 3 {
      PresenceLayout(E.PresenceOf(e.payload).value);
    } else if e.eventType == 4 {
      CheckpointLayout(E.CheckpointOf(e.payload).value, cfg.nodeNum % U16);
      NodeNumber(cfg.nodeNum);
      var b := CheckpointFromTyped(E.CheckpointOf(e.payload).value, cfg.nodeNum % U16);
      assert b[8] == b[8..10][0] && b[9] == b[8..10][1];
    } else {
      var anon := if e.authorKey in known then known[e.authorKey] else seq(8, _ => 0);
      SosLayout(E.StatusOf(e.payload).value, anon, now);
      if e.authorKey !in known {
        ZerosForNoOne(SosFromTyped(E.StatusOf(e.payload).value, anon, now)[0..8]);
      }
    }
  }

  lemma NodeNumber(n: nat)
    ensures Le(n % U16, 2) == [n % 256, n / 256 % 256]
  {
    Le2(n % U16);
    hide Le;
    var q, r := n / 65536, n % 65536;
    assert n == 256 * (256 * q + r / 256) + r % 256;
    DivModUnique(n, 256, 256 * q + r / 256, r % 256);
    DivModUnique(256 * q + r / 256, 256, q, r / 256);
  }

  lemma ZerosForNoOne(b: Bytes)
    requires AnonShown(seq(8, _ => 0), b)
    ensures AnonShown([], b)
  {
  }

  // ---------------------------------------------------------------- ingest: whole runs

  /** The step took in `ev` from a genuine envelope. */
  ghost predicate TakenAt(cfg: Cfg, s: Sys, l: Label, s': Sys, ev: QueuedEvent) {
    && l.Ingest? && IsAccepted(l.out) && IsGenuine(cfg.a, l.now, l.data)
    && exists gone :: Takes(cfg.a, s.node, l.now, E.EnvelopeOf(l.data).value, s'.node, ev, gone)
  }

  /** Every accepted event of every run was taken in from a genuine envelope. */
  lemma {:induction false} AcceptedComesFrom(cfg: Cfg, ss: seq<Sys>, ls: seq<Label>, n: nat, ev: QueuedEvent)
    requires Run(cfg, ss, ls) && n < |ss| && ev in ss[n].h.accepted
    ensures exists i :: 0 <= i < n && TakenAt(cfg, ss[i], ls[i], ss[i + 1], ev)
    decreases n
  {
    hide Next, TakenAt;
    if n > 0 {
      assert Next(cfg, ss[n - 1], ls[n - 1], ss[n]);
      if ev in ss[n - 1].h.accepted {
        AcceptedComesFrom(cfg, ss, ls, n - 1, ev);
      } else {
        NewlyAccepted(cfg, ss[n - 1], ls[n - 1], ss[n], ev);
      }
    }
  }

  lemma NewlyAccepted(cfg: Cfg, s: Sys, l: Label, s': Sys, ev: QueuedEvent)
    requires Next(cfg, s, l, s') && ev in s'.h.accepted && ev !in s.h.accepted
    ensures TakenAt(cfg, s, l, s', ev)
  {
    hide Takes, Decide, IsGenuine, IsAccepted, ReceiveAll, E.EnvelopeOf, TransmitStep, Carried;
    assert l.Ingest?;
    AcceptedIffNews(cfg.a, s.node, l.now, l.data, s'.node, l.out);
    IngestTakes(cfg.a, s.node, l.now, l.data, s'.node, l.out);
  }

  predicate IsRowOf(cfg: Cfg, ev: QueuedEvent, id: Bytes, row: Row) {
    && ev.envelopeId == id
    && row == Row(id, ev.eventType, ev.priority, cfg.a.nodeNum % 65536, DecodeCompact(ev.eventType, ev.compactPayload))
  }

  /** And so every row at the gateway: it names what a genuine envelope said, and the node that took it in. */
  lemma RowComesFrom(cfg: Cfg, ss: seq<Sys>, ls: seq<Label>, n: nat, id: Bytes)
    requires SameField(cfg) && Run(cfg, ss, ls) && n < |ss| && id in ss[n].rows
    ensures exists i, ev :: 0 <= i < n && TakenAt(cfg, ss[i], ls[i], ss[i + 1], ev) && IsRowOf(cfg, ev, id, ss[n].rows[id])
  {
    hide Next, TakenAt, Inv, DecodeCompact;
    AtMostOnce(cfg, ss, ls, n, n, id);
    var ev :| ev in ss[n].h.sent && ev in ss[n].h.accepted && ev.envelopeId == id && ss[n].rows[id] == EventRow(cfg, ev);
    AcceptedComesFrom(cfg, ss, ls, n, ev);
    assert IsRowOf(cfg, ev, id, ss[n].rows[id]);
  }

  // ---------------------------------------------------------------- transmission

  function LossesOf(s: NodeState, id: Bytes): nat {
    if id in s.retry then s.retry[id].lossAttempts else 0
  }

  function NotBefore(s: NodeState, id: Bytes): int {
    if id in s.retry then s.retry[id].nextAttemptMs else 0
  }

  /** What one attempt comes to: nothing to send; the head, whatever else waits, not due yet; the head lost
      as often as it may be and given up; or its frame handed to the channel. */
  lemma AttemptIs(cfg: NodeCfg, p: Profile, s: NodeState, pending: seq<Delivery>, now: int, dst: string,
                  s': NodeState, pending': seq<Delivery>, a: Attempt)
    requires forall e | e in s.queue :: Framable(e)
    requires TransmitStep(cfg, p, s, pending, now, dst, s', pending', a)
    ensures s.queue == [] <==> a.Idle?
    ensures s.queue != [] ==>
      var head := s.queue[0];
      && (a.BackingOff? <==> now < NotBefore(s, head.envelopeId))
      && (a.Exhausted? <==> now >= NotBefore(s, head.envelopeId) && LossesOf(s, head.envelopeId) >= (if head.priority == 1 then 6 else 3))
      && (a.Exhausted? || a.OnAir? ==> a.event == head)
    ensures a.OnAir? ==> exists f :: FrameFor(cfg, a.event, s.packetSeq + 1, dst, f) && Sends(p, pending, now, f, a.outcome, pending')
    ensures !a.OnAir? ==> pending' == pending
  {
    hide ChannelStep, OutcomeOf, IsHeap, BuildFrame, FrameFor;
    if a.OnAir? {
      var f := BuildFrame(cfg, a.event, s.packetSeq + 1, dst);
      FrameIsFor(cfg, a.event, s.packetSeq + 1, dst);
      assert Sends(p, pending, now, f, a.outcome, pending');
    }
  }

  /** What is left of the node: the queue without the event that was sent or given up, and with it otherwise. */
  lemma AttemptLeaves(cfg: NodeCfg, p: Profile, s: NodeState, pending: seq<Delivery>, now: int, dst: string,
                      s': NodeState, pending': seq<Delivery>, a: Attempt)
    requires forall e | e in s.queue :: Framable(e)
    requires TransmitStep(cfg, p, s, pending, now, dst, s', pending', a)
    ensures a.Idle? ==> s' == s
    ensures s'.seenBle == s.seenBle && s'.anonByAuthor == s.anonByAuthor
    ensures s'.packetSeq == s.packetSeq + if a.OnAir? then 1 else 0
    ensures s'.dropped == s.dropped + if a.Exhausted? then [a.event] else []
    ensures multiset(s'.queue) == multiset(s.queue)
              - if a.Exhausted? || (a.OnAir? && a.outcome == SENT) then multiset{a.event} else multiset{}
    ensures IsHeap(s.queue) ==> IsHeap(s'.queue)
  {
    hide ChannelStep, OutcomeOf, IsHeap, BuildFrame, Framable, Budget, RetryOf;
    assert s.dropped + [] == s.dropped;
  }

  /** A failed attempt waits 100 to 180 ms, a lost one counts, and no other event's account changes. */
  lemma AttemptCounts(cfg: NodeCfg, p: Profile, s: NodeState, pending: seq<Delivery>, now: int, dst: string,
                      s': NodeState, pending': seq<Delivery>, a: Attempt)
    requires forall e | e in s.queue :: Framable(e)
    requires TransmitStep(cfg, p, s, pending, now, dst, s', pending', a)
    ensures forall id :: !(a.OnAir? && a.event.envelopeId == id && a.outcome != SENT) ==>
      LossesOf(s', id) == LossesOf(s, id) && NotBefore(s', id) == NotBefore(s, id)
    ensures a.OnAir? && a.outcome != SENT ==>
      var id := a.event.envelopeId;
      && now + 100 <= NotBefore(s', id) <= now + 180
      && LossesOf(s', id) == LossesOf(s, id) + if a.outcome == LOST then 1 else 0
  {
    hide ChannelStep, OutcomeOf, IsHeap, BuildFrame, Framable, Budget;
  }

  /** Any wait from 100 to 180 ms can follow a busy channel. */
  lemma AnyBackoffCanBe(cfg: NodeCfg, p: Profile, s: NodeState, pending: seq<Delivery>, now: int, dst: string, wait: nat)
    requires forall e | e in s.queue :: Framable(e)
    requires s.queue != [] && IsHeap(s.queue) && s.queue[0].ttl > 0 && p.channelBusyPercent > 0
    requires now >= NotBefore(s, s.queue[0].envelopeId)
    requires LossesOf(s, s.queue[0].envelopeId) < if s.queue[0].priority == 1 then 6 else 3
    requires 100 <= wait <= 180
    ensures exists s', a :: TransmitStep(cfg, p, s, pending, now, dst, s', pending, a) && NotBefore(s', s.queue[0].envelopeId) == now + wait
  {
    var head := s.queue[0];
    var f := BuildFrame(cfg, head, s.packetSeq + 1, dst);
    var rs := RetryOf(s.retry, head.envelopeId);
    assert ChannelStep(p, pending, now, f, DrawBusy, pending) && OutcomeOf(f, DrawBusy) == BUSY;
    var s' := s.(retry := s.retry[head.envelopeId := rs][head.envelopeId := RetryState(rs.lossAttempts, now + wait)], packetSeq := s.packetSeq + 1);
    hide IsHeap, BuildFrame, Framable, ChannelStep, OutcomeOf;
    assert TransmitStep(cfg, p, s, pending, now, dst, s', pending, OnAir(head, DrawBusy, BUSY, wait - 100));
  }

  /** The frame of an event: an EVENT of 48 bytes and the payload, its clock said to be right, and what the
      channel is told besides. */
  ghost predicate FrameFor(cfg: NodeCfg, e: QueuedEvent, packetSeq: nat, dst: string, f: LoraFrame) {
    && f == LoraFrame(f.raw, cfg.nodeId, dst, e.envelopeId, e.eventType, e.priority, e.ttl, packetSeq, false)
    && |f.raw| == 48 + |e.compactPayload|
    && HeaderFor(cfg, e, packetSeq, f.raw) && BodyFor(e, f.raw) && TrailerFor(cfg, f.raw)
  }

  predicate HeaderFor(cfg: NodeCfg, e: QueuedEvent, packetSeq: nat, s: Bytes)
    requires |s| >= 48
  {
    && s[0] == 0x11 && s[1] == 1 && s[2..6] == cfg.field.fieldId[0..4]
    && Word(s[6], s[7]) == cfg.nodeNum % 65536 && Word(s[8], s[9]) == packetSeq % 65536 && s[10] == e.ttl % 256
  }

  predicate BodyFor(e: QueuedEvent, s: Bytes)
    requires |s| == 48 + |e.compactPayload|
  {
    var n := |e.compactPayload|;
    && s[11..27] == e.envelopeId && s[27] == e.eventType % 256 && s[28] == e.priority % 256
    && SixWord(s[29], s[30], s[31], s[32], s[33], s[34]) == e.createdMs % 0x1_0000_0000_0000
    && Word(s[35], s[36]) == e.createdCounter % 65536 && s[37] == n && s[38..38 + n] == e.compactPayload
  }

  predicate TrailerFor(cfg: NodeCfg, s: Bytes)
    requires |s| >= 48
  {
    s[|s| - 10..|s| - 2] == cfg.crypto.loraMac8(cfg.field.loraMacKey, s[..|s| - 10]) && CrcRight(s)
  }

  lemma FrameIsFor(cfg: NodeCfg, e: QueuedEvent, packetSeq: nat, dst: string)
    requires Framable(e)
    ensures FrameFor(cfg, e, packetSeq, dst, BuildFrame(cfg, e, packetSeq, dst))
  {
    var g := FrameFields(cfg, e, packetSeq);
    EventLayout(cfg.crypto, cfg.field.loraMacKey, g);
    hide L.Encode, HasHeader, HasTrailer, HeaderFor, BodyFor, TrailerFor, Word, SixWord;
    var s := BuildFrame(cfg, e, packetSeq, dst).raw;
    HeaderIsFor(cfg, e, packetSeq, s);
    TrailerIsFor(cfg, s);
    assert s[29..35][0] == s[29] && s[29..35][1] == s[30] && s[29..35][2] == s[31];
    assert s[29..35][3] == s[32] && s[29..35][4] == s[33] && s[29..35][5] == s[34];
    BodyIsFor(e, s);
  }

  lemma HeaderIsFor(cfg: NodeCfg, e: QueuedEvent, packetSeq: nat, s: Bytes)
    requires |s| >= 48 && HasHeader(s, 0x11, FrameFields(cfg, e, packetSeq))
    ensures HeaderFor(cfg, e, packetSeq, s)
  {
    hide Word;
    WordOf(cfg.nodeNum % U16);
    WordOf(packetSeq);
  }

  lemma TrailerIsFor(cfg: NodeCfg, s: Bytes)
    requires |s| >= 48 && HasTrailer(cfg.crypto, cfg.field.loraMacKey, s)
    ensures TrailerFor(cfg, s)
  {
    hide Word, Crc.Crc16;
    WordOf(Crc.Crc16(s[..|s| - 2]));
  }

  lemma BodyIsFor(e: QueuedEvent, s: Bytes)
    requires |s| == 48 + |e.compactPayload|
    requires s[11..27] == e.envelopeId && s[27] == e.eventType % 256 && s[28] == e.priority % 256
    requires s[29] == e.createdMs % 256 && s[30] == e.createdMs / 0x100 % 256 && s[31] == e.createdMs / 0x1_0000 % 256
    requires s[32] == e.createdMs / 0x100_0000 % 256 && s[33] == e.createdMs / 0x1_0000_0000 % 256
    requires s[34] == e.createdMs / 0x100_0000_0000 % 256
    requires s[35] == e.createdCounter % 256 && s[36] == e.createdCounter / 256 % 256
    requires s[37] == |e.compactPayload| && s[38..38 + |e.compactPayload|] == e.compactPayload
    ensures BodyFor(e, s)
  {
    hide Word, SixWord;
    WordOf(e.createdCounter);
    SixWordOf(e.createdMs);
  }

  lemma WordOf(v: nat)
    ensures Word(v % 256, v / 256 % 256) == v % 65536
    ensures v < 65536 ==> Word(v % 256, v / 256) == v
  {
  }

  lemma SixWordOf(v: nat)
    ensures SixWord(v % 256, v / 0x100 % 256, v / 0x1_0000 % 256, v / 0x100_0000 % 256,
                    v / 0x1_0000_0000 % 256, v / 0x100_0000_0000 % 256) == v % 0x1_0000_0000_0000
  {
    hide Le, Un, SixWord;
    Le6(v);
    SixBytes(Le(v, 6));
    UnLe(v, 6);
    Pow256Values();
  }

  // ---------------------------------------------------------------- reception

  /** The verdict on a frame, held to the 48-hour window and the receiver's ring. */
  function VerdictOn(cfg: NodeCfg, ring: set<Bytes>, f: LoraFrame, est: Option<int>): L.Verdict {
    L.Verify(cfg.crypto, cfg.field.loraMacKey, f.raw, est, Some(ring), 172800000)
  }

  /** What becomes of a frame: ignored by anyone but its addressee, dropped for the reason of the verdict,
      an exception for an acknowledgement and for an EVENT of no wire priority, and handed on otherwise. */
  lemma ReceptionIs(cfg: NodeCfg, ring: set<Bytes>, f: LoraFrame, est: Option<int>)
    ensures var r, v := Reception(cfg, ring, f, est), VerdictOn(cfg, ring, f, est);
      && (r == NotAddressed <==> f.dst != cfg.nodeId)
      && (r.Dropped? <==> f.dst == cfg.nodeId && v.Rejected?)
      && (r.Dropped? ==> r.reason == v.reason)
      && (r == RaisedOnReceive
          <==> f.dst == cfg.nodeId && v.Accepted? && (f.raw[0] == 0x12 || f.raw[28] < 1 || f.raw[28] > 6))
      && (r.Delivered? <==> f.dst == cfg.nodeId && v.Accepted? && f.raw[0] == 0x11 && 1 <= f.raw[28] <= 6)
      && (r.Delivered? ==> InboundFrom(cfg, f.raw, r.inbound))
  {
    VerdictFrame(cfg, ring, f, est);
    hide L.Verify, L.Inspect, DecodeCompact;
  }

  /** Whatever is handed on is read from the bytes, one hop poorer. */
  predicate InboundFrom(cfg: NodeCfg, s: Bytes, i: Inbound) {
    && |s| >= 48
    && var n: int, hops: int := s[37], s[10];
    && |s| == 48 + n
    && i.eventId == s[11..27] && i.eventType == s[27] && i.priority == s[28] && i.srcNode == Word(s[6], s[7])
    && i.lastHop == cfg.nodeId && i.ttl == hops - 1 && i.packetSeq == Word(s[8], s[9])
    && i.hlcMs == SixWord(s[29], s[30], s[31], s[32], s[33], s[34]) && i.hlcCounter == Word(s[35], s[36])
    && i.compactPayload == s[38..38 + n] && i.decoded == DecodeCompact(s[27], s[38..38 + n]) && i.rawFrame == s
  }

  /** An addressed, accepted EVENT enters the ring, even if reception raises on it; nothing else does. */
  lemma RingIs(cfg: NodeCfg, ring: set<Bytes>, f: LoraFrame, est: Option<int>)
    ensures var v := VerdictOn(cfg, ring, f, est);
      RingAfter(cfg, ring, f, est)
        == ring + if f.dst == cfg.nodeId && v.Accepted? && f.raw[0] == 0x11 then {f.raw[11..27]} else {}
  {
    VerdictFrame(cfg, ring, f, est);
    hide L.Verify, L.Inspect;
  }

  lemma VerdictFrame(cfg: NodeCfg, ring: set<Bytes>, f: LoraFrame, est: Option<int>)
    ensures var v := VerdictOn(cfg, ring, f, est);
      v.Accepted? ==>
        && RightSize(f.raw) && f.raw[10] != 0
        && (f.raw[0] == 0x11 || f.raw[0] == 0x12) && (v.frame.Event? <==> f.raw[0] == 0x11)
        && (f.raw[0] == 0x11 ==>
              v.frame == L.Event(f.raw[1], f.raw[2..6], Word(f.raw[6], f.raw[7]), Word(f.raw[8], f.raw[9]), f.raw[10],
                f.raw[11..27], f.raw[27], f.raw[28],
                SixWord(f.raw[29], f.raw[30], f.raw[31], f.raw[32], f.raw[33], f.raw[34]),
                Word(f.raw[35], f.raw[36]), f.raw[38..38 + f.raw[37]]))
  {
    var c, key := cfg.crypto, cfg.field.loraMacKey;
    if VerdictOn(cfg, ring, f, est).Accepted? {
      assert L.Inspect(c, key, f.raw).Accepted? by {
        hide L.Inspect;
      }
      assert L.Inspect(c, key, f.raw) == VerdictOn(cfg, ring, f, est) by {
        hide L.Inspect;
      }
      hide L.Verify, L.Inspect;
      RightSizeVerdict(c, key, f.raw);
      if f.raw[0] == 0x11 {
        EventRead(c, key, f.raw);
      } else {
        AckRead(c, key, f.raw);
      }
    }
  }

  // ---------------------------------------------------------------- the phone

  /** Signature and MAC of the phone, both over the 141 bytes that cover the envelope. */
  ghost predicate SealedOver(p: PhoneCfg, e: E.Envelope, k: Bytes) {
    && Covers(p.crypto, e, k)
    && e.signature == p.crypto.sign(p.seed, k) && e.fieldMac == p.crypto.fieldMac(p.field.fieldMacKey, k)
  }

  /** What the phone builds, and when it raises instead: on a time before the epoch or a number too wide. */
  lemma BuiltIs(p: PhoneCfg, counter: nat, now: int, eventType: nat, priority: nat, payload: Bytes, validity: int)
    ensures var o := BuildEnvelope(p, counter, now, eventType, priority, payload, validity);
      && (o == None
          <==> now < 0 || now + validity < 0 || now >= 0x1_0000_0000_0000_0000 || now + validity >= 0x1_0000_0000_0000_0000
               || counter >= 0x1_0000_0000 || eventType >= 0x1_0000_0000 || priority >= 0x1_0000_0000)
      && (o.Some? ==>
            && o.value == E.Envelope(3, p.crypto.sha256(p.idSeed(eventType, counter))[0..16], eventType, priority,
                 E.Hlc(now, counter), E.Hlc(now + validity, 0), 0, p.crypto.publicKey(p.seed), 1, o.value.signature,
                 payload, [], false, p.field.fieldId, o.value.fieldMac)
            && exists k :: SealedOver(p, o.value, k))
  {
    var o := BuildEnvelope(p, counter, now, eventType, priority, payload, validity);
    if now >= 0 && now + validity >= 0 {
      var e := Unsigned(p, counter, now, eventType, priority, payload, now + validity);
      E.CanonicalPackable(E.ClaimOf(p.crypto, e));
      hide E.Canonical, Covers;
      if o.Some? {
        var k := E.Canonical(E.ClaimOf(p.crypto, e)).value;
        CanonicalCovers(p.crypto, o.value, k);
        assert SealedOver(p, o.value, k);
      }
    }
  }
}
