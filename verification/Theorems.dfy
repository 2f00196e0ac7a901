/** What holds of every run of the pipeline. */
module Theorems {
  import opened Bits
  import L = LoraV1
  import opened Model
  import opened Heapq
  import opened Channel
  import opened Node
  import opened Pipeline

  // ---------------------------------------------------------------- no silent loss

  function Places(s: Sys, e: QueuedEvent): nat {
    multiset(s.node.queue)[e] + multiset(s.h.sent)[e] + multiset(s.node.dropped)[e] + multiset(s.h.wiped)[e]
  }

  /** After any run, an accepted event is in exactly one place: queued, sent, dropped or wiped by
      a reboot. A sent one is on air intact, known to the receiver, or was refused by it; one
      that was not sent is unknown to the receiver and to the gateway. */
  lemma NoSilentLoss(cfg: Cfg, ss: seq<Sys>, ls: seq<Label>, n: nat, e: QueuedEvent)
    requires SameField(cfg) && Run(cfg, ss, ls) && n < |ss|
    requires e in ss[n].h.accepted
    ensures var s := ss[n];
      && Places(s, e) == 1
      && (e in s.h.sent ==> e.envelopeId in s.ring || e.envelopeId in s.h.refused || InFlight(cfg, s.pending, e))
      && (e !in s.h.sent ==> e.envelopeId !in s.ring && e.envelopeId !in s.rows)
  {
    var s := ss[n];
    RunInv(cfg, ss, ls, n);
    DistinctCount(s.h.accepted, e);
    hide IsHeap, GoodEvent, Carries, AirInv, EventRow;
    if e.envelopeId in s.ring {
      assert Sourced(cfg, s.h.sent, e.envelopeId, s.rows[e.envelopeId]);
      var e' :| e' in s.h.sent && e'.envelopeId == e.envelopeId;
      Members(cfg, s, e');
      SameId(s.h.accepted, e, e');
    }
  }

  /** The step drains an intact frame of `e`: the receiver gets to see it then. */
  ghost predicate HandsOver(cfg: Cfg, s: Sys, l: Label, e: QueuedEvent) {
    l.Drain? && exists d :: d in s.pending && d.dueMs <= l.now && !d.frame.corrupted && Carries(cfg, d.frame, e)
  }

  /** Some of the first `n` steps hands over `e` when it is deliverable (`good`), or when it is not. */
  ghost predicate HandedOver(cfg: Cfg, ss: seq<Sys>, ls: seq<Label>, n: nat, e: QueuedEvent, good: bool)
    requires n <= |ls| && |ss| == |ls| + 1
  {
    exists i :: 0 <= i < n && HandsOver(cfg, ss[i], ls[i], e) && Deliverable(e, ls[i].now) == good
  }

  /** When an accepted event reaches receiver and gateway, exactly, in any run: if and only if an intact
      frame of it was handed over at a time when its time-to-live had not wrapped and it was inside
      the replay window. And its id is among the refused if and only if one was handed over at
      another time. */
  lemma DeliveredIff(cfg: Cfg, ss: seq<Sys>, ls: seq<Label>, n: nat, e: QueuedEvent)
    requires SameField(cfg) && Run(cfg, ss, ls) && n < |ss| && e in ss[n].h.accepted
    ensures e.envelopeId in ss[n].ring <==> HandedOver(cfg, ss, ls, n, e, true)
    ensures e.envelopeId in ss[n].rows <==> HandedOver(cfg, ss, ls, n, e, true)
    ensures e.envelopeId in ss[n].h.refused <==> HandedOver(cfg, ss, ls, n, e, false)
  {
    hide Next, Deliverable, HandedOver;
    RunInv(cfg, ss, ls, n);
    DeliveredBy(cfg, ss, ls, n, n, e);
  }

  lemma {:induction false} DeliveredBy(cfg: Cfg, ss: seq<Sys>, ls: seq<Label>, n: nat, end: nat, e: QueuedEvent)
    requires SameField(cfg) && Run(cfg, ss, ls) && n <= end < |ss| && e in ss[end].h.accepted
    ensures e.envelopeId in ss[n].ring <==> HandedOver(cfg, ss, ls, n, e, true)
    ensures e.envelopeId in ss[n].h.refused <==> HandedOver(cfg, ss, ls, n, e, false)
    decreases n
  {
    hide Next, Deliverable, Inv, HandsOver;
    if n > 0 {
      var s, l, s' := ss[n - 1], ls[n - 1], ss[n];
      DeliveredBy(cfg, ss, ls, n - 1, end, e);
      assert Next(cfg, s, l, s');
      HandedOneMore(cfg, ss, ls, n, e, true);
      HandedOneMore(cfg, ss, ls, n, e, false);
      HistoryGrows(cfg, s, l, s');
      RunInv(cfg, ss, ls, n - 1);
      RunInv(cfg, ss, ls, end);
      AcceptedStays(cfg, ss, ls, n - 1, end);
      if l.Drain? {
        DrainDelivers(cfg, s, l, s', ss[end], e);
      } else {
        hide HandedOver;
        NoHandOver(cfg, s, l, e);
      }
    }
  }

  lemma NoHandOver(cfg: Cfg, s: Sys, l: Label, e: QueuedEvent)
    requires !l.Drain?
    ensures !HandsOver(cfg, s, l, e)
  {
  }

  lemma HandedOneMore(cfg: Cfg, ss: seq<Sys>, ls: seq<Label>, n: nat, e: QueuedEvent, good: bool)
    requires 0 < n <= |ls| && |ss| == |ls| + 1
    ensures HandedOver(cfg, ss, ls, n, e, good)
       <==> HandedOver(cfg, ss, ls, n - 1, e, good)
            || (HandsOver(cfg, ss[n - 1], ls[n - 1], e) && Deliverable(e, ls[n - 1].now) == good)
  {
    hide HandsOver, Deliverable;
  }

  /** One drain adds the id of `e` to the ring, or to the refused, exactly when it hands it over. */
  lemma DrainDelivers(cfg: Cfg, s: Sys, l: Label, s': Sys, end: Sys, e: QueuedEvent)
    requires SameField(cfg) && Inv(cfg, s) && l.Drain? && Next(cfg, s, l, s')
    requires Inv(cfg, end) && s.h.accepted <= end.h.accepted && e in end.h.accepted
    ensures e.envelopeId in s'.ring
       <==> e.envelopeId in s.ring || (HandsOver(cfg, s, l, e) && Deliverable(e, l.now))
    ensures e.envelopeId in s'.h.refused
       <==> e.envelopeId in s.h.refused || (HandsOver(cfg, s, l, e) && !Deliverable(e, l.now))
  {
    var fs := Ready(s.pending, l.now);
    var rx := Rx(s.ring, s.rows, s.h.refused);
    assert s' == Drained(cfg, s, l.now);
    AcceptedDistinct(cfg, end);
    HandsOverReady(cfg, s, l, e);
    hide Next, ReceiveAll, Deliverable, HandsOver, Carries, RowsInv, NodeInv, RetryInv, SentInv, Authentic, SomeIntact;
    DrainSplits(s.pending, l.now);
    forall f | f in fs ensures Authentic(cfg, s.h, f) {
      var d :| d in s.pending && d.frame == f && d.dueMs <= l.now;
    }
    BatchDelivers(cfg, rx, fs, l.now, s.h, end.h.accepted, e);
  }

  lemma AcceptedDistinct(cfg: Cfg, s: Sys)
    requires Inv(cfg, s)
    ensures DistinctIds(s.h.accepted)
  {
  }

  ghost predicate SomeIntact(cfg: Cfg, fs: seq<LoraFrame>, e: QueuedEvent) {
    exists f :: f in fs && !f.corrupted && Carries(cfg, f, e)
  }

  lemma HandsOverReady(cfg: Cfg, s: Sys, l: Label, e: QueuedEvent)
    requires l.Drain?
    ensures HandsOver(cfg, s, l, e) <==> SomeIntact(cfg, Ready(s.pending, l.now), e)
  {
    hide Carries;
    DrainSplits(s.pending, l.now);
    if SomeIntact(cfg, Ready(s.pending, l.now), e) {
      var f :| f in Ready(s.pending, l.now) && !f.corrupted && Carries(cfg, f, e);
      var d :| d in s.pending && d.frame == f && d.dueMs <= l.now;
    }
  }

  lemma {:induction false} BatchDelivers(cfg: Cfg, rx: Rx, fs: seq<LoraFrame>, now: int, h: History, all: seq<QueuedEvent>, e: QueuedEvent)
    requires SameField(cfg) && RowsInv(cfg, rx.ring, rx.rows, h.sent)
    requires forall f :: f in fs ==> Authentic(cfg, h, f)
    requires h.accepted <= all && DistinctIds(all) && e in all
    ensures var rx' := ReceiveAll(cfg, rx, fs, now);
      && (e.envelopeId in rx'.ring <==> e.envelopeId in rx.ring || (SomeIntact(cfg, fs, e) && Deliverable(e, now)))
      && (e.envelopeId in rx'.refused <==> e.envelopeId in rx.refused || (SomeIntact(cfg, fs, e) && !Deliverable(e, now)))
    decreases fs
  {
    hide ReceiveOne, Authentic, RowsInv, Deliverable, Carries, DistinctIds;
    if fs != [] {
      var rx1 := ReceiveOne(cfg, rx, fs[0], now);
      FrameDelivers(cfg, rx, fs[0], now, h, all, e);
      BatchDelivers(cfg, rx1, fs[1..], now, h, all, e);
      SomeIntactSplit(cfg, fs, e);
    }
  }

  lemma SomeIntactSplit(cfg: Cfg, fs: seq<LoraFrame>, e: QueuedEvent)
    requires fs != []
    ensures SomeIntact(cfg, fs, e) <==> (!fs[0].corrupted && Carries(cfg, fs[0], e)) || SomeIntact(cfg, fs[1..], e)
  {
    hide Carries;
    assert fs == [fs[0]] + fs[1..];
  }

  lemma FrameDelivers(cfg: Cfg, rx: Rx, f: LoraFrame, now: int, h: History, all: seq<QueuedEvent>, e: QueuedEvent)
    requires SameField(cfg) && RowsInv(cfg, rx.ring, rx.rows, h.sent) && Authentic(cfg, h, f)
    requires h.accepted <= all && DistinctIds(all) && e in all
    ensures var rx', ours := ReceiveOne(cfg, rx, f, now), !f.corrupted && Carries(cfg, f, e);
      && RowsInv(cfg, rx'.ring, rx'.rows, h.sent)
      && (e.envelopeId in rx'.ring <==> e.envelopeId in rx.ring || (ours && Deliverable(e, now)))
      && (e.envelopeId in rx'.refused <==> e.envelopeId in rx.refused || (ours && !Deliverable(e, now)))
  {
    hide ReceiveOne, Carries, GoodEvent, Deliverable, EventRow;
    OneSettles(cfg, rx, f, now, h);
    var g :| g in h.accepted && GoodEvent(g) && Carries(cfg, f, g) && (!f.corrupted ==> g in h.sent);
    assert g in all;
    if f.corrupted {
      CorruptedIgnored(cfg, rx, f, g, now);
    } else {
      IntactReceived(cfg, rx, f, g, now);
      CarriesId(cfg, f, g);
      if Carries(cfg, f, e) {
        CarriesId(cfg, f, e);
        SameId(all, e, g);
      } else {
        assert e != g;
        if e.envelopeId == g.envelopeId {
          SameId(all, e, g);
        }
      }
    }
  }

  lemma {:induction false} AcceptedStays(cfg: Cfg, ss: seq<Sys>, ls: seq<Label>, i: nat, n: nat)
    requires Run(cfg, ss, ls) && i <= n < |ss|
    ensures ss[i].h.accepted <= ss[n].h.accepted
    decreases n
  {
    hide Next;
    if i < n {
      AcceptedStays(cfg, ss, ls, i, n - 1);
      assert Next(cfg, ss[n - 1], ls[n - 1], ss[n]);
      HistoryGrows(cfg, ss[n - 1], ls[n - 1], ss[n]);
    }
  }

  /** Whatever is refused is the id of a sent event of which an intact frame was handed over when the
      receiver could not take it. */
  lemma RefusedWhenUndeliverable(cfg: Cfg, ss: seq<Sys>, ls: seq<Label>, n: nat, id: Bytes)
    requires SameField(cfg) && Run(cfg, ss, ls) && n < |ss|
    requires id in ss[n].h.refused
    ensures exists e :: e in ss[n].h.sent && e.envelopeId == id && HandedOver(cfg, ss, ls, n, e, false)
  {
    hide Next, HandedOver, Inv;
    RefusedIsSent(cfg, ss, ls, n, id);
    var e :| e in ss[n].h.sent && e.envelopeId == id;
    RunInv(cfg, ss, ls, n);
    SentIsAccepted(cfg, ss[n], e);
    DeliveredIff(cfg, ss, ls, n, e);
  }

  lemma SentIsAccepted(cfg: Cfg, s: Sys, e: QueuedEvent)
    requires Inv(cfg, s) && e in s.h.sent
    ensures e in s.h.accepted
  {
    hide IsHeap;
    Members(cfg, s, e);
  }

  lemma {:induction false} RefusedIsSent(cfg: Cfg, ss: seq<Sys>, ls: seq<Label>, n: nat, id: Bytes)
    requires SameField(cfg) && Run(cfg, ss, ls) && n < |ss|
    requires id in ss[n].h.refused
    ensures exists e :: e in ss[n].h.sent && e.envelopeId == id
    decreases n
  {
    hide Inv, Next, Deliverable;
    if n > 0 {
      var s, l, s' := ss[n - 1], ls[n - 1], ss[n];
      RunInv(cfg, ss, ls, n - 1);
      assert Next(cfg, s, l, s');
      HistoryGrows(cfg, s, l, s');
      if id in s.h.refused {
        RefusedIsSent(cfg, ss, ls, n - 1, id);
        var e :| e in s.h.sent && e.envelopeId == id;
        assert e in s'.h.sent;
      } else {
        RefusedByDrain(cfg, s, l, s', id);
        var e :| e in s.h.sent && e.envelopeId == id && !Deliverable(e, l.now);
        assert e in s'.h.sent;
      }
    }
  }

  /** Nothing written down is ever crossed out, and only a drain refuses or stores. */
  lemma HistoryGrows(cfg: Cfg, s: Sys, l: Label, s': Sys)
    requires Next(cfg, s, l, s')
    ensures s.h.accepted <= s'.h.accepted && s.h.sent <= s'.h.sent
    ensures !l.Drain? ==> s'.h.refused == s.h.refused && s'.ring == s.ring && s'.rows == s.rows
    ensures l.Drain? ==> s'.h.accepted == s.h.accepted && s'.h.sent == s.h.sent
    ensures s.node.dropped <= s'.node.dropped
  {
    hide IngestStep, ReceiveAll, Decide, ChannelStep, BuildFrame, IsHeap, OutcomeOf;
    if l.Ingest? {
      IngestMoves(cfg, s, l, s');
    }
  }

  lemma RefusedByDrain(cfg: Cfg, s: Sys, l: Label, s': Sys, id: Bytes)
    requires SameField(cfg) && Inv(cfg, s) && Next(cfg, s, l, s')
    requires id in s'.h.refused && id !in s.h.refused
    ensures l.Drain? && Undeliverable(s.h.sent, id, l.now)
  {
    HistoryGrows(cfg, s, l, s');
    hide Next, Inv, RowsInv;
    DrainSettles(cfg, s, l, s');
  }

  /** Every drain that hands over `e` does so inside the replay window of `e`. */
  ghost predicate HandedInWindow(cfg: Cfg, ss: seq<Sys>, ls: seq<Label>, e: QueuedEvent)
    requires |ss| == |ls| + 1
  {
    forall i :: 0 <= i < |ls| && HandsOver(cfg, ss[i], ls[i], e) ==>
      -172800000 <= e.createdMs % 0x1_0000_0000_0000 - ls[i].now <= 172800000
  }

  /** What being sent comes to: a sent event with nothing more on air has been handed over. It has
      reached receiver and gateway if and only if this happened once while it was deliverable; and if
      it never happened outside its window, if and only if its time-to-live is not a multiple of 256,
      the values that go on air as zero. */
  lemma SentIsDeliveredIff(cfg: Cfg, ss: seq<Sys>, ls: seq<Label>, e: QueuedEvent)
    requires SameField(cfg) && Run(cfg, ss, ls)
    requires var s := ss[|ls|]; e in s.h.sent && !InFlight(cfg, s.pending, e)
    ensures exists i :: 0 <= i < |ls| && HandsOver(cfg, ss[i], ls[i], e)
    ensures var s := ss[|ls|];
      && (e.envelopeId in s.rows <==> e.envelopeId in s.ring)
      && (e.envelopeId in s.ring <==> HandedOver(cfg, ss, ls, |ls|, e, true))
      && (HandedInWindow(cfg, ss, ls, e) ==> (e.envelopeId in s.ring <==> e.ttl % 256 != 0))
  {
    hide Next, HandsOver;
    NoSilentLossAtEnd(cfg, ss, ls, e);
    DeliveredIff(cfg, ss, ls, |ls|, e);
  }

  lemma NoSilentLossAtEnd(cfg: Cfg, ss: seq<Sys>, ls: seq<Label>, e: QueuedEvent)
    requires SameField(cfg) && Run(cfg, ss, ls) && e in ss[|ls|].h.sent
    ensures var s := ss[|ls|];
      e in s.h.accepted && (e.envelopeId in s.ring || e.envelopeId in s.h.refused || InFlight(cfg, s.pending, e))
  {
    hide Next;
    RunInv(cfg, ss, ls, |ls|);
    Members(cfg, ss[|ls|], e);
    NoSilentLoss(cfg, ss, ls, |ls|, e);
  }

  // ---------------------------------------------------------------- at most once, authentic

  /** The gateway's keys are the receiver's ring; each row is that of a sent, hence accepted, event;
      no event is sent twice; and a row never changes once stored. */
  lemma AtMostOnce(cfg: Cfg, ss: seq<Sys>, ls: seq<Label>, m: nat, n: nat, id: Bytes)
    requires SameField(cfg) && Run(cfg, ss, ls) && m <= n < |ss|
    ensures ss[n].rows.Keys == ss[n].ring
    ensures id in ss[n].rows ==>
      exists e :: e in ss[n].h.sent && e in ss[n].h.accepted && e.envelopeId == id
                  && ss[n].rows[id] == EventRow(cfg, e) && multiset(ss[n].h.sent)[e] == 1
    ensures id in ss[m].rows ==> id in ss[n].rows && ss[n].rows[id] == ss[m].rows[id]
  {
    hide Next, IsHeap, GoodEvent, EventRow;
    var s := ss[n];
    RunInv(cfg, ss, ls, n);
    if id in s.rows {
      assert Sourced(cfg, s.h.sent, id, s.rows[id]);
      var e :| e in s.h.sent && e.envelopeId == id && s.rows[id] == EventRow(cfg, e);
      Members(cfg, s, e);
      DistinctCount(s.h.accepted, e);
    }
    RowsKept(cfg, ss, ls, m, n, id);
  }

  lemma {:induction false} RowsKept(cfg: Cfg, ss: seq<Sys>, ls: seq<Label>, m: nat, n: nat, id: Bytes)
    requires SameField(cfg) && Run(cfg, ss, ls) && m <= n < |ss|
    ensures id in ss[m].rows ==> id in ss[n].rows && ss[n].rows[id] == ss[m].rows[id]
    decreases n
  {
    hide Next, Inv;
    if m < n {
      RowsKept(cfg, ss, ls, m, n - 1, id);
      var s, l, s' := ss[n - 1], ls[n - 1], ss[n];
      assert Next(cfg, s, l, s');
      RunInv(cfg, ss, ls, n - 1);
      HistoryGrows(cfg, s, l, s');
      if l.Drain? {
        DrainSettles(cfg, s, l, s');
      }
    }
  }

  // ---------------------------------------------------------------- priority

  /** Whatever goes on air is the least of all that is queued: no event is transmitted while a more
      severe or, among equals, an older one waits, be it backing off or not. */
  lemma StrictPriority(cfg: Cfg, ss: seq<Sys>, ls: seq<Label>, i: nat, e: QueuedEvent)
    requires SameField(cfg) && Run(cfg, ss, ls) && i < |ls|
    requires ls[i].Transmit? && ls[i].attempt.OnAir? && e in ss[i].node.queue
    ensures var sent := ls[i].attempt.event;
      && sent in ss[i].node.queue && Leq(sent, e)
      && (sent.priority < e.priority || (sent.priority == e.priority && sent.createdMs <= e.createdMs))
  {
    var s, l := ss[i], ls[i];
    assert Next(cfg, s, l, ss[i + 1]);
    RunInv(cfg, ss, ls, i);
    AttemptMoves(cfg, s, l, ss[i + 1]);
    hide Next, Less, Leq;
    var k :| 0 <= k < |s.node.queue| && s.node.queue[k] == e;
    HeapMin(s.node.queue, k);
    LeqSeverity(s.node.queue[0], e);
  }

  // ---------------------------------------------------------------- bounded retries

  /** How often the run lost a transmission of `id` in its first `n` steps. */
  function LostAttempts(ls: seq<Label>, n: nat, id: Bytes): nat
    requires n <= |ls|
  {
    if n == 0 then 0
    else LostAttempts(ls, n - 1, id) + if Puts(ls[n - 1], id) && ls[n - 1].attempt.outcome == LOST then 1 else 0
  }

  /** The step hands a frame of `id` to the channel. */
  predicate Puts(l: Label, id: Bytes) {
    l.Transmit? && l.attempt.OnAir? && l.attempt.event.envelopeId == id
  }

  /** An event is lost at most six times when it is SOS_RED and three times otherwise, and sent at
      most once. */
  lemma BoundedLosses(cfg: Cfg, ss: seq<Sys>, ls: seq<Label>, n: nat, e: QueuedEvent)
    requires SameField(cfg) && Run(cfg, ss, ls) && n <= |ls| && e in ss[n].h.accepted
    ensures LostAttempts(ls, n, e.envelopeId) <= (if e.priority == SOS_RED then 6 else 3)
    ensures multiset(ss[n].h.sent)[e] <= 1
  {
    hide Next, IsHeap, GoodEvent;
    RunInv(cfg, ss, ls, n);
    DistinctCount(ss[n].h.accepted, e);
    LossesCounted(cfg, ss, ls, n, e.envelopeId);
  }

  /** And none is given up on the air before it has been lost exactly that often. */
  lemma GivenUpAfterBudget(cfg: Cfg, ss: seq<Sys>, ls: seq<Label>, i: nat)
    requires SameField(cfg) && Run(cfg, ss, ls) && i < |ls| && ls[i].Transmit? && ls[i].attempt.Exhausted?
    ensures var e := ls[i].attempt.event;
      && LostAttempts(ls, i, e.envelopeId) == (if e.priority == SOS_RED then 6 else 3)
      && ss[i + 1].node.dropped == ss[i].node.dropped + [e]
  {
    var s, l, s' := ss[i], ls[i], ss[i + 1];
    assert Next(cfg, s, l, s');
    RunInv(cfg, ss, ls, i);
    AttemptMoves(cfg, s, l, s');
    AttemptBacks(cfg, s, l, s');
    hide Next, IsHeap, GoodEvent;
    Members(cfg, s, s.node.queue[0]);
    assert RetryOk(s, s.node.queue[0]);
    LossesCounted(cfg, ss, ls, i, s.node.queue[0].envelopeId);
  }

  /** What gets through: in any run, an event that was sent had been lost fewer times than its budget, and
      is not lost again. */
  lemma {:induction false} SentWithinBudget(cfg: Cfg, ss: seq<Sys>, ls: seq<Label>, n: nat, e: QueuedEvent)
    requires SameField(cfg) && Run(cfg, ss, ls) && n <= |ls| && e in ss[n].h.sent
    ensures LostAttempts(ls, n, e.envelopeId) < (if e.priority == SOS_RED then 6 else 3)
    decreases n
  {
    hide Next, Inv;
    if n > 0 {
      var s, l, s' := ss[n - 1], ls[n - 1], ss[n];
      assert Next(cfg, s, l, s');
      RunInv(cfg, ss, ls, n - 1);
      if e in s.h.sent {
        SentWithinBudget(cfg, ss, ls, n - 1, e);
        NotPutAgain(cfg, ss, ls, n - 1, e);
      } else {
        NewlySent(cfg, s, l, s', e);
        LossesCounted(cfg, ss, ls, n - 1, e.envelopeId);
      }
    }
  }

  /** A sent event never goes on air again. */
  lemma NotPutAgain(cfg: Cfg, ss: seq<Sys>, ls: seq<Label>, i: nat, e: QueuedEvent)
    requires SameField(cfg) && Run(cfg, ss, ls) && i < |ls| && e in ss[i].h.sent
    ensures !Puts(ls[i], e.envelopeId)
  {
    var s, l := ss[i], ls[i];
    assert Next(cfg, s, l, ss[i + 1]);
    RunInv(cfg, ss, ls, i);
    Members(cfg, s, e);
    NoSilentLoss(cfg, ss, ls, i, e);
    if Puts(l, e.envelopeId) {
      AttemptMoves(cfg, s, l, ss[i + 1]);
      hide Next, IsHeap, GoodEvent;
      var head := s.node.queue[0];
      Members(cfg, s, head);
      SameId(s.h.accepted, e, head);
    }
  }

  lemma NewlySent(cfg: Cfg, s: Sys, l: Label, s': Sys, e: QueuedEvent)
    requires Inv(cfg, s) && Next(cfg, s, l, s') && e in s'.h.sent && e !in s.h.sent
    ensures l.Transmit? && l.attempt.OnAir? && l.attempt.outcome == SENT && l.attempt.event == e
    ensures s.h.losses[e.envelopeId] < Budget(e.priority)
  {
    HistoryGrowsBy(cfg, s, l, s');
    AttemptMoves(cfg, s, l, s');
    AttemptBacks(cfg, s, l, s');
    hide Next, IsHeap, GoodEvent;
    assert RetryOk(s, s.node.queue[0]);
  }

  lemma HistoryGrowsBy(cfg: Cfg, s: Sys, l: Label, s': Sys)
    requires Next(cfg, s, l, s') && s'.h.sent != s.h.sent
    ensures l.Transmit? && l.attempt.OnAir? && l.attempt.outcome == SENT && s'.h.sent == s.h.sent + [l.attempt.event]
  {
    hide IngestStep, TransmitStep, ReceiveAll, Decide;
  }

  lemma {:induction false} LossesCounted(cfg: Cfg, ss: seq<Sys>, ls: seq<Label>, n: nat, id: Bytes)
    requires Run(cfg, ss, ls) && n <= |ls|
    ensures LostAttempts(ls, n, id) == ss[n].h.losses[id]
    decreases n
  {
    hide Next;
    if n > 0 {
      LossesCounted(cfg, ss, ls, n - 1, id);
      assert Next(cfg, ss[n - 1], ls[n - 1], ss[n]);
      StepLosses(cfg, ss[n - 1], ls[n - 1], ss[n], id);
    }
  }

  lemma StepLosses(cfg: Cfg, s: Sys, l: Label, s': Sys, id: Bytes)
    requires Next(cfg, s, l, s')
    ensures s'.h.losses[id] == s.h.losses[id] + if Puts(l, id) && l.attempt.outcome == LOST then 1 else 0
    ensures Puts(l, id) ==> s'.h.tried == s.h.tried[id := l.now]
    ensures !Puts(l, id) ==> (id in s'.h.tried <==> id in s.h.tried)
    ensures !Puts(l, id) && id in s.h.tried ==> s'.h.tried[id] == s.h.tried[id]
  {
    hide IngestStep, TransmitStep, ReceiveAll, Decide;
  }

  // ---------------------------------------------------------------- the node in any reachable state

  /** The queue never outgrows its bound, holds no id twice and only ids the node has seen, and
      nothing in it can make the frame builder raise. */
  lemma ReachableNode(cfg: Cfg, ss: seq<Sys>, ls: seq<Label>, n: nat, i: nat, j: nat)
    requires SameField(cfg) && Run(cfg, ss, ls) && n < |ss|
    ensures var q := ss[n].node.queue;
      && IsHeap(q) && |q| <= cfg.a.maxQueueSize
      && (i < |q| ==> q[i].envelopeId in ss[n].node.seenBle && q[i].ttl >= 1 && Framable(q[i])
                      && (|q[i].compactPayload| == 10 || |q[i].compactPayload| == 22))
      && (i < j < |q| ==> q[i].envelopeId != q[j].envelopeId)
  {
    hide Next, IsHeap;
    RunInv(cfg, ss, ls, n);
    var s := ss[n];
    var q := s.node.queue;
    if i < |q| {
      Members(cfg, s, q[i]);
      if i < j < |q| {
        Members(cfg, s, q[j]);
        TwiceCounted(q, i, j);
        DistinctCount(s.h.accepted, q[i]);
        if q[i].envelopeId == q[j].envelopeId {
          SameId(s.h.accepted, q[i], q[j]);
        }
      }
    }
  }

  lemma TwiceCounted(q: Queue, i: nat, j: nat)
    requires i < j < |q|
    ensures q[i] == q[j] ==> multiset(q)[q[i]] >= 2
  {
    assert q == q[..i] + [q[i]] + q[i + 1..j] + [q[j]] + q[j + 1..];
  }

  /** A replayed frame after a reboot: a receiver that kept its ring drops it; one that lost its
      ring takes it again, and then the gateway alone keeps the row from being replaced. */
  lemma ReplayAfterReboot(cfg: Cfg, ring: set<Bytes>, rows: map<Bytes, Row>, f: LoraFrame, e: QueuedEvent, now: int)
    requires SameField(cfg) && GoodEvent(e) && Carries(cfg, f, e) && !f.corrupted && Deliverable(e, now)
    requires e.envelopeId in ring && e.envelopeId in rows
    ensures Reception(cfg.b, ring, f, Some(now)) == Dropped(L.ReplayDuplicate)
    ensures Reception(cfg.b, {}, f, Some(now)).Delivered?
    ensures StoreRow(rows, Reception(cfg.b, {}, f, Some(now)).inbound) == rows
  {
    IntactVerdict(cfg, ring, f, e, now);
    IntactVerdict(cfg, {}, f, e, now);
    hide L.Verify, Checked;
  }

  // ---------------------------------------------------------------- pacing

  /** Two transmissions of one event are at least the retry backoff apart, even if the clock that
      drives the node is not monotonic. */
  lemma SpacedAttempts(cfg: Cfg, ss: seq<Sys>, ls: seq<Label>, i: nat, j: nat, id: Bytes)
    requires SameField(cfg) && Run(cfg, ss, ls) && i < j < |ls|
    requires Puts(ls[i], id) && Puts(ls[j], id)
    ensures ls[j].now >= ls[i].now + 100
  {
    hide Next, Inv;
    TriedSince(cfg, ss, ls, i, j, id);
    assert Next(cfg, ss[j], ls[j], ss[j + 1]);
    AttemptAfterBackoff(cfg, ss, ls, j, id);
  }

  lemma AttemptAfterBackoff(cfg: Cfg, ss: seq<Sys>, ls: seq<Label>, j: nat, id: Bytes)
    requires SameField(cfg) && Run(cfg, ss, ls) && j < |ls| && Puts(ls[j], id)
    ensures id in ss[j].h.tried ==> ls[j].now >= ss[j].h.tried[id] + RETRY_BACKOFF_MS
  {
    var s, l, s' := ss[j], ls[j], ss[j + 1];
    assert Next(cfg, s, l, s');
    RunInv(cfg, ss, ls, j);
    AttemptMoves(cfg, s, l, s');
    AttemptBacks(cfg, s, l, s');
    assert RetryOk(s, s.node.queue[0]);
  }

  lemma {:induction false} TriedSince(cfg: Cfg, ss: seq<Sys>, ls: seq<Label>, i: nat, j: nat, id: Bytes)
    requires SameField(cfg) && Run(cfg, ss, ls) && i < j < |ss| && Puts(ls[i], id)
    ensures id in ss[j].h.tried && ss[j].h.tried[id] >= ls[i].now
    decreases j
  {
    hide Next, Inv;
    assert Next(cfg, ss[j - 1], ls[j - 1], ss[j]);
    StepLosses(cfg, ss[j - 1], ls[j - 1], ss[j], id);
    if j - 1 > i {
      TriedSince(cfg, ss, ls, i, j - 1, id);
      if Puts(ls[j - 1], id) {
        AttemptAfterBackoff(cfg, ss, ls, j - 1, id);
      }
    }
  }

  // ---------------------------------------------------------------- the retry measure

  function SumOf(f: QueuedEvent -> int, q: Queue): int {
    if q == [] then 0 else f(q[0]) + SumOf(f, q[1..])
  }

  lemma {:induction false} SumWithout(f: QueuedEvent -> int, q: Queue, j: nat)
    requires j < |q|
    ensures SumOf(f, q) == f(q[j]) + SumOf(f, q[..j] + q[j + 1..])
    decreases q
  {
    var r := q[..j] + q[j + 1..];
    if j > 0 {
      SumWithout(f, q[1..], j - 1);
      assert r[0] == q[0] && r[1..] == q[1..][..j - 1] + q[1..][j..];
    } else {
      assert r == q[1..];
    }
  }

  /** A sum over the queue does not depend on the layout of the heap. */
  lemma {:induction false} SumPermuted(f: QueuedEvent -> int, q: Queue, q': Queue)
    requires multiset(q) == multiset(q')
    ensures SumOf(f, q) == SumOf(f, q')
    decreases q
  {
    if q == [] {
      assert |multiset(q')| == 0;
    } else {
      var j := FindFirst(q, q');
      SumPermuted(f, q[1..], q'[..j] + q'[j + 1..]);
      SumWithout(f, q', j);
    }
  }

  lemma {:induction false} SumSame(f: QueuedEvent -> int, g: QueuedEvent -> int, q: Queue)
    requires forall e | e in q :: f(e) == g(e)
    ensures SumOf(f, q) == SumOf(g, q)
    decreases q
  {
    if q != [] {
      SumSame(f, g, q[1..]);
    }
  }

  function Remaining(retry: map<Bytes, RetryState>): QueuedEvent -> int {
    (e: QueuedEvent) => Budget(e.priority) - RetryOf(retry, e.envelopeId).lossAttempts + 1
  }

  /** What is left to try, over the whole queue. */
  function Measure(s: Sys): int {
    SumOf(Remaining(s.node.retry), s.node.queue)
  }

  lemma HeadUnique(cfg: Cfg, s: Sys, e: QueuedEvent)
    requires NodeInv(cfg, s) && s.node.queue != [] && e in s.node.queue[1..]
    ensures e.envelopeId != s.node.queue[0].envelopeId
  {
    hide IsHeap, GoodEvent;
    var q := s.node.queue;
    Members(cfg, s, e);
    Members(cfg, s, q[0]);
    var head := q[0];
    DistinctCount(s.h.accepted, head);
    assert q == [head] + q[1..];
    assert multiset(q)[head] == 1 + multiset(q[1..])[head];
    if e.envelopeId == head.envelopeId {
      SameId(s.h.accepted, e, head);
    }
  }

  /** The measure is at least the length of the queue, falls with every attempt that is sent, lost or given up, and
      does not move when the channel was busy or the head is backing off. */
  lemma MeasureFalls(cfg: Cfg, ss: seq<Sys>, ls: seq<Label>, i: nat)
    requires SameField(cfg) && Run(cfg, ss, ls) && i < |ls| && ls[i].Transmit?
    ensures var m, m', a := Measure(ss[i]), Measure(ss[i + 1]), ls[i].attempt;
      && m' >= |ss[i + 1].node.queue|
      && (if a.Exhausted? || (a.OnAir? && a.outcome != BUSY) then m' < m else m' == m)
  {
    var s, l, s', a := ss[i], ls[i], ss[i + 1], ls[i].attempt;
    assert Next(cfg, s, l, s');
    RunInv(cfg, ss, ls, i);
    RunInv(cfg, ss, ls, i + 1);
    AttemptMoves(cfg, s, l, s');
    AttemptBacks(cfg, s, l, s');
    hide Next;
    SumAtLeast(cfg, s', s'.node.queue);
    if a.Idle? {
      SumPermuted(Remaining(s.node.retry), s.node.queue, s'.node.queue);
    } else {
      HeadMeasure(cfg, s, l.now, a, s');
    }
  }

  /** An attempt that is sent, lost or given up. */
  predicate Decisive(l: Label) {
    l.Transmit? && (l.attempt.Exhausted? || (l.attempt.OnAir? && l.attempt.outcome != BUSY))
  }

  function DecisiveAttempts(ls: seq<Label>, i: nat, j: nat): nat
    requires i <= j <= |ls|
  {
    if i == j then 0 else DecisiveAttempts(ls, i, j - 1) + if Decisive(ls[j - 1]) then 1 else 0
  }

  /** Whatever the channel does, a stretch of a run that admits nothing has no more decisive attempts
      than the retries left when it began, and when it has had that many the queue is empty. */
  lemma {:induction false} DecisiveBounded(cfg: Cfg, ss: seq<Sys>, ls: seq<Label>, i: nat, j: nat)
    requires SameField(cfg) && Run(cfg, ss, ls) && i <= j <= |ls|
    requires forall k :: i <= k < j ==> !ls[k].Ingest?
    ensures DecisiveAttempts(ls, i, j) + Measure(ss[j]) <= Measure(ss[i])
    ensures Measure(ss[j]) >= |ss[j].node.queue|
    ensures DecisiveAttempts(ls, i, j) >= Measure(ss[i]) ==> ss[j].node.queue == []
    decreases j
  {
    hide Next, Measure, Inv;
    if i < j {
      DecisiveBounded(cfg, ss, ls, i, j - 1);
      assert Next(cfg, ss[j - 1], ls[j - 1], ss[j]);
      if ls[j - 1].Transmit? {
        MeasureFalls(cfg, ss, ls, j - 1);
      } else if ls[j - 1].RebootSender? {
        MeasureAtLeast(cfg, ss, ls, j - 1);
        QueueCleared(cfg, ss[j - 1], ls[j - 1], ss[j]);
      } else {
        NodeUntouched(cfg, ss[j - 1], ls[j - 1], ss[j]);
      }
    } else {
      MeasureAtLeast(cfg, ss, ls, i);
    }
  }

  lemma MeasureAtLeast(cfg: Cfg, ss: seq<Sys>, ls: seq<Label>, i: nat)
    requires SameField(cfg) && Run(cfg, ss, ls) && i < |ss|
    ensures Measure(ss[i]) >= |ss[i].node.queue|
  {
    hide Next;
    RunInv(cfg, ss, ls, i);
    SumAtLeast(cfg, ss[i], ss[i].node.queue);
  }

  lemma QueueCleared(cfg: Cfg, s: Sys, l: Label, s': Sys)
    requires Next(cfg, s, l, s') && l.RebootSender?
    ensures s'.node.queue == [] && Measure(s') == 0
  {
  }

  lemma NodeUntouched(cfg: Cfg, s: Sys, l: Label, s': Sys)
    requires Next(cfg, s, l, s') && (l.Drain? || l.RebootReceiver?)
    ensures s'.node == s.node && Measure(s') == Measure(s)
  {
    hide ReceiveAll;
  }

  lemma {:induction false} SumAtLeast(cfg: Cfg, s: Sys, q: Queue)
    requires NodeInv(cfg, s) && RetryInv(s)
    requires forall e | e in q :: e in s.node.queue
    ensures SumOf(Remaining(s.node.retry), q) >= |q|
    decreases q
  {
    if q != [] {
      Members(cfg, s, q[0]);
      assert RetryOk(s, q[0]);
      SumAtLeast(cfg, s, q[1..]);
    }
  }

  /** The sum when only the first event's share may change, and when it is taken out. */
  lemma SumHead(f: QueuedEvent -> int, g: QueuedEvent -> int, q: Queue, q': Queue)
    requires q != [] && forall e | e in q[1..] :: f(e) == g(e)
    ensures multiset(q') == multiset(q) ==> SumOf(g, q') == SumOf(f, q) - f(q[0]) + g(q[0])
    ensures multiset(q') + multiset{q[0]} == multiset(q) ==> SumOf(g, q') == SumOf(f, q) - f(q[0])
  {
    var rest := q[1..];
    assert q == [q[0]] + rest;
    SumSame(f, g, rest);
    if multiset(q') == multiset(q) {
      SumPermuted(g, q, q');
    }
    if multiset(q') + multiset{q[0]} == multiset(q) {
      assert multiset(q') == multiset(q) - multiset{q[0]} == multiset(rest);
      SumPermuted(g, rest, q');
    }
  }

  lemma HeadMeasure(cfg: Cfg, s: Sys, now: int, a: Attempt, s': Sys)
    requires NodeInv(cfg, s) && RetryInv(s) && s.node.queue != []
    requires !a.Idle? && Attempted(s, now, a, s') && HeadBacked(s, now, a, s', s.node.queue[0])
    ensures if a.Exhausted? || (a.OnAir? && a.outcome != BUSY) then Measure(s') < Measure(s) else Measure(s') == Measure(s)
  {
    var q, q', f, g := s.node.queue, s'.node.queue, Remaining(s.node.retry), Remaining(s'.node.retry);
    Members(cfg, s, q[0]);
    assert RetryOk(s, q[0]);
    assert f(q[0]) >= 1;
    forall e | e in q[1..] ensures f(e) == g(e) {
      HeadUnique(cfg, s, e);
    }
    hide NodeInv, RetryInv, SumOf;
    SumHead(f, g, q, q');
    assert multiset(q') + multiset{} == multiset(q');
  }
}
