/** What is certain to be delivered: the account of a run that has come to rest, and the progress
    of transmission over air that neither loses, defers nor corrupts. */
module Liveness {
  import opened Bits
  import opened Model
  import opened Heapq
  import opened Channel
  import opened Node
  import opened Pipeline
  import opened Theorems

  // ---------------------------------------------------------------- a run at rest

  /** With nothing queued and nothing on air, an accepted event has reached the gateway with its own
      data, was refused by the receiver, was dropped, or was wiped by a reboot; and it has reached
      the gateway only if it was sent. */
  lemma AtRest(cfg: Cfg, ss: seq<Sys>, ls: seq<Label>, e: QueuedEvent)
    requires SameField(cfg) && Run(cfg, ss, ls)
    requires var s := ss[|ls|]; s.node.queue == [] && s.pending == [] && e in s.h.accepted
    ensures var s := ss[|ls|];
      && (e.envelopeId in s.rows || e.envelopeId in s.h.refused || e in s.node.dropped || e in s.h.wiped)
      && (e.envelopeId in s.rows ==> s.rows[e.envelopeId] == EventRow(cfg, e) && e !in s.node.dropped && e !in s.h.wiped)
  {
    hide Next, EventRow, Carries, IsHeap, GoodEvent;
    var s := ss[|ls|];
    RunInv(cfg, ss, ls, |ls|);
    NoSilentLoss(cfg, ss, ls, |ls|, e);
    InPlaces(s, e);
    if e.envelopeId in s.rows {
      assert Sourced(cfg, s.h.sent, e.envelopeId, s.rows[e.envelopeId]);
      var e' :| e' in s.h.sent && e'.envelopeId == e.envelopeId && s.rows[e.envelopeId] == EventRow(cfg, e');
      Members(cfg, s, e');
      SameId(s.h.accepted, e, e');
    }
  }

  lemma InPlaces(s: Sys, e: QueuedEvent)
    requires Places(s, e) == 1
    ensures e in s.node.queue || e in s.h.sent || e in s.node.dropped || e in s.h.wiped
    ensures e in s.h.sent ==> e !in s.node.dropped && e !in s.h.wiped
  {
    var q, a, b, c := multiset(s.node.queue)[e], multiset(s.h.sent)[e], multiset(s.node.dropped)[e], multiset(s.h.wiped)[e];
    assert e in s.node.queue <==> q > 0;
    assert e in s.h.sent <==> a > 0;
    assert e in s.node.dropped <==> b > 0;
    assert e in s.h.wiped <==> c > 0;
  }

  // ---------------------------------------------------------------- clear air

  /** Air that may delay, duplicate and reorder, but never loses, defers or corrupts. */
  predicate ClearAir(p: Profile) {
    p.channelBusyPercent <= 0 && p.packetLossPercent <= 0 && p.corruptPercent <= 0
  }

  /** At most `left` events are queued, none has been tried in vain, nothing was refused or wiped, and
      what is on air arrives by `last`. */
  ghost predicate OnSchedule(s: Sys, left: nat, last: int) {
    && |s.node.queue| <= left
    && (forall id :: RetryOf(s.node.retry, id) == RetryState(0, 0))
    && s.h.wiped == [] && s.h.refused == {}
    && forall d :: d in s.pending ==> d.dueMs <= last
  }

  lemma ClearDraw(p: Profile, f: LoraFrame, d: Draw)
    requires ClearAir(p) && f.ttl > 0 && Possible(p, f, d)
    ensures d.DrawClear? && d.delay <= p.delayMsMax && OutcomeOf(f, d) == SENT
  {
  }

  lemma ClearArrival(p: Profile, pending: seq<Delivery>, now: int, f: LoraFrame, d: Draw, pending': seq<Delivery>)
    requires ClearAir(p) && f.ttl > 0 && ChannelStep(p, pending, now, f, d, pending')
    ensures forall x :: x in pending' ==> x in pending || x.dueMs <= now + p.delayMsMax + 1
  {
    ClearDraw(p, f, d);
    var added := Added(now, f, d);
    ReorderedKeeps(p, pending + added, pending');
    hide Reordered, SortByDue;
    InBoth(pending, added, pending');
  }

  /** Over clear air every attempt takes one event off the queue and puts it on air for good. */
  lemma ClearTransmit(cfg: Cfg, s: Sys, l: Label, s': Sys, left: nat, last: int)
    requires Inv(cfg, s) && l.Transmit? && Next(cfg, s, l, s')
    requires ClearAir(cfg.air) && OnSchedule(s, left, last)
    requires l.now >= 0 && (left > 0 ==> l.now + cfg.air.delayMsMax + 1 <= last)
    ensures OnSchedule(s', if left > 0 then left - 1 else 0, last) && s'.node.dropped == s.node.dropped
  {
    hide Inv;
    if s.node.queue != [] {
      var head := s.node.queue[0];
      HeadGood(cfg, s);
      ClearAttempt(cfg, s, l, s');
      var frame := BuildFrame(cfg.a, head, s.node.packetSeq + 1, cfg.b.nodeId);
      ClearArrival(cfg.air, s.pending, l.now, frame, l.attempt.draw, s'.pending);
      hide ChannelStep, BuildFrame, OutcomeOf, Next;
      assert |multiset(s'.node.queue)| == |multiset(s.node.queue)| - 1;
    }
  }

  lemma HeadGood(cfg: Cfg, s: Sys)
    requires Inv(cfg, s) && s.node.queue != []
    ensures IsHeap(s.node.queue) && Framable(s.node.queue[0]) && s.node.queue[0].ttl >= 1
  {
    hide IsHeap;
    Members(cfg, s, s.node.queue[0]);
  }

  lemma ClearAttempt(cfg: Cfg, s: Sys, l: Label, s': Sys)
    requires l.Transmit? && Next(cfg, s, l, s') && ClearAir(cfg.air) && l.now >= 0
    requires s.node.queue != [] && Framable(s.node.queue[0]) && s.node.queue[0].ttl >= 1
    requires IsHeap(s.node.queue) && forall id :: RetryOf(s.node.retry, id) == RetryState(0, 0)
    ensures var head := s.node.queue[0];
      var frame := BuildFrame(cfg.a, head, s.node.packetSeq + 1, cfg.b.nodeId);
      && frame.ttl >= 1 && l.attempt.OnAir?
      && ChannelStep(cfg.air, s.pending, l.now, frame, l.attempt.draw, s'.pending)
      && multiset(s'.node.queue) == multiset(s.node.queue) - multiset{head}
      && s'.node.dropped == s.node.dropped
      && (forall id :: RetryOf(s'.node.retry, id) == RetryState(0, 0))
      && s'.h.wiped == s.h.wiped && s'.h.refused == s.h.refused
  {
    ClearOnAir(cfg, s, l, s');
    AttemptAirs(cfg, s, l, s');
    AttemptMoves(cfg, s, l, s');
    AttemptBacks(cfg, s, l, s');
    var head := s.node.queue[0];
    var frame := BuildFrame(cfg.a, head, s.node.packetSeq + 1, cfg.b.nodeId);
    assert frame.ttl == head.ttl;
    ClearDraw(cfg.air, frame, l.attempt.draw);
    hide Next, ChannelStep, BuildFrame, OutcomeOf, IsHeap, Budget, RetryOf;
    forall id ensures RetryOf(s'.node.retry, id) == RetryState(0, 0) {
      assert RetryOf(s.node.retry, id) == RetryState(0, 0);
    }
    assert multiset(s'.node.queue) + multiset{head} == multiset(s.node.queue);
  }

  lemma ClearOnAir(cfg: Cfg, s: Sys, l: Label, s': Sys)
    requires l.Transmit? && Next(cfg, s, l, s') && l.now >= 0 && s.node.queue != []
    requires forall id :: RetryOf(s.node.retry, id) == RetryState(0, 0)
    ensures l.attempt.OnAir?
  {
    hide ChannelStep, BuildFrame, OutcomeOf, IsHeap;
    assert RetryOf(s.node.retry, s.node.queue[0].envelopeId) == RetryState(0, 0);
  }

  /** Draining refuses nothing as long as everything accepted can be taken at that time. */
  lemma ClearDrain(cfg: Cfg, s: Sys, l: Label, s': Sys, left: nat, last: int)
    requires SameField(cfg) && Inv(cfg, s) && l.Drain? && Next(cfg, s, l, s')
    requires OnSchedule(s, left, last)
    requires forall e :: e in s.h.accepted ==> Deliverable(e, l.now)
    ensures OnSchedule(s', left, last) && s'.node.dropped == s.node.dropped
    ensures forall d :: d in s'.pending ==> d.dueMs > l.now
  {
    DrainLeaves(cfg, s, l, s');
    hide Next, ReceiveAll, Deliverable;
    forall id | id in s'.h.refused ensures false {
      RefusedByDrain(cfg, s, l, s', id);
      var e :| e in s.h.sent && e.envelopeId == id && !Deliverable(e, l.now);
      Members(cfg, s, e);
    }
  }

  lemma DrainLeaves(cfg: Cfg, s: Sys, l: Label, s': Sys)
    requires l.Drain? && Next(cfg, s, l, s')
    ensures s'.node == s.node && s'.h.wiped == s.h.wiped
    ensures forall d :: d in s'.pending ==> d in s.pending && d.dueMs > l.now
  {
    hide ReceiveAll;
    DrainSplits(s.pending, l.now);
  }

  lemma HasMember<T>(xs: seq<T>)
    requires xs != []
    ensures exists x :: x in xs
  {
    assert xs[0] in xs;
  }

  /** Once the last arrival is behind and the queue is empty, the gateway has exactly what was
      accepted and not dropped. */
  lemma ClearEnd(cfg: Cfg, ss: seq<Sys>, ls: seq<Label>, now: int, last: int)
    requires SameField(cfg) && Run(cfg, ss, ls) && last <= now
    requires var s := ss[|ls|];
      OnSchedule(s, 0, last) && forall d :: d in s.pending ==> d.dueMs > now
    ensures var s := ss[|ls|];
      forall e :: e in s.h.accepted ==> (e.envelopeId in s.rows <==> e !in s.node.dropped)
  {
    hide Next, EventRow;
    var s := ss[|ls|];
    if s.pending != [] {
      HasMember(s.pending);
    }
    forall e | e in s.h.accepted ensures e.envelopeId in s.rows <==> e !in s.node.dropped {
      AtRest(cfg, ss, ls, e);
    }
  }
}
