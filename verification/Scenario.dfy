/** The main store-and-forward loop, driving the objects, and the relay storm. */
module Scenario {
  import opened Bits
  import opened Keys
  import L = LoraV1
  import opened Compact
  import opened Model
  import opened Heapq
  import opened Channel
  import opened Node
  import opened Pipeline
  import opened Theorems
  import opened Liveness
  import opened Actors

  const STEPS := 160
  const STEP_MS := 100
  const INGEST_MS := 1

  /** Reception never raises while nothing but frames of accepted events is on air. */
  lemma NeverRaises(cfg: Cfg, ring: set<Bytes>, f: LoraFrame, h: History, now: int)
    requires SameField(cfg) && Authentic(cfg, h, f)
    ensures Reception(cfg.b, ring, f, Some(now)) != RaisedOnReceive
  {
    var e :| e in h.accepted && GoodEvent(e) && Carries(cfg, f, e) && (!f.corrupted ==> e in h.sent);
    if f.corrupted {
      CorruptedRejected(cfg, ring, f, e, now);
      hide Checked;
    } else {
      IntactVerdict(cfg, ring, f, e, now);
      hide L.Verify, Carries, Checked;
    }
  }

  lemma {:induction false} IdsSize(es: seq<QueuedEvent>)
    requires DistinctIds(es)
    ensures |Ids(es)| == |es|
    decreases es
  {
    if es == [] {
      assert Ids(es) == {};
    } else {
      var n := |es| - 1;
      assert DistinctIds(es[..n]);
      IdsSize(es[..n]);
      assert es == es[..n] + [es[n]];
      IdsConcat(es[..n], [es[n]]);
      assert Ids([es[n]]) == {es[n].envelopeId};
      forall e | e in es[..n] ensures e.envelopeId != es[n].envelopeId {
      }
    }
  }

  lemma SubsetSize<T>(a: set<T>, b: set<T>)
    requires a <= b && |a| >= |b|
    ensures a == b
  {
    assert b == a + (b - a);
  }

  /** What the gateway has is part of what was accepted; having as many means having all. */
  lemma AllDelivered(cfg: Cfg, s: Sys)
    requires Inv(cfg, s)
    ensures s.rows.Keys <= Ids(s.h.accepted)
    ensures |s.rows| >= |s.h.accepted| <==> s.rows.Keys == Ids(s.h.accepted)
  {
    hide IsHeap, GoodEvent, EventRow;
    forall id | id in s.rows ensures id in Ids(s.h.accepted) {
      assert Sourced(cfg, s.h.sent, id, s.rows[id]);
      var e :| e in s.h.sent && e.envelopeId == id;
      Members(cfg, s, e);
    }
    IdsSize(s.h.accepted);
    if |s.rows| >= |s.h.accepted| {
      SubsetSize(s.rows.Keys, Ids(s.h.accepted));
    }
  }

  /** The run so far, extended by one step. */
  lemma RunExtends(cfg: Cfg, ss: seq<Sys>, ls: seq<Label>, l: Label, s': Sys)
    requires Run(cfg, ss, ls) && Next(cfg, ss[|ls|], l, s')
    ensures Run(cfg, ss + [s'], ls + [l])
  {
    hide Next;
    var ss', ls' := ss + [s'], ls + [l];
    forall i | 0 <= i < |ls'| ensures Next(cfg, ss'[i], ls'[i], ss'[i + 1]) {
      if i < |ls| {
        assert Next(cfg, ss[i], ls[i], ss[i + 1]);
      }
    }
  }

  /** The objects of the main scenario, with the run of the machine they have gone through. */
  class Lab {
    const cfg: Cfg
    const nodeA: SimNode
    const nodeB: SimNode
    const channel: FakeLoRaChannel
    const gateway: FakeGatewaySink
    ghost var ss: seq<Sys>
    ghost var ls: seq<Label>

    constructor (cfg: Cfg, rng: Rng)
      requires SameField(cfg) && cfg.air.delayMsMin <= cfg.air.delayMsMax
      ensures this.cfg == cfg && Valid() && ls == []
      ensures fresh(Objects())
    {
      this.cfg := cfg;
      nodeA := new SimNode(cfg.a, rng);
      nodeB := new SimNode(cfg.b, rng);
      channel := new FakeLoRaChannel(cfg.air, rng);
      gateway := new FakeGatewaySink();
      ss, ls := [SYS_ZERO], [];
      new;
      InitInv(cfg);
    }

    ghost function Objects(): set<object>
      reads this
    {
      {this, nodeA, nodeA.seenLora, nodeB, nodeB.seenLora, channel, gateway}
    }

    ghost function Now(): Sys
      reads this
    {
      if ss == [] then SYS_ZERO else ss[|ss| - 1]
    }

    /** The objects are in the state the run has reached. */
    ghost predicate Valid()
      reads this, nodeA, nodeB, nodeB.seenLora, channel, gateway
    {
      && nodeA != nodeB && nodeA.seenLora != nodeB.seenLora
      && nodeA.cfg == cfg.a && nodeB.cfg == cfg.b && channel.profile == cfg.air
      && SameField(cfg) && cfg.air.delayMsMin <= cfg.air.delayMsMax
      && |ss| == |ls| + 1 && Run(cfg, ss, ls) && Inv(cfg, Now())
      && nodeA.State() == Now().node && channel.pending == Now().pending
      && nodeB.seenLora.ids == Now().ring && gateway.events == Now().rows
    }

    /** The run has been extended by one step of the machine. */
    ghost predicate Stepped(ss0: seq<Sys>, ls0: seq<Label>, l: Label)
      reads this
    {
      ss0 != [] && ss == ss0 + [Now()] && ls == ls0 + [l] && Next(cfg, ss0[|ss0| - 1], l, Now())
    }

    /** One envelope over BLE. */
    method Send(data: Bytes) returns (out: IngestResult)
      requires Valid()
      modifies Objects()
      ensures Valid() && Stepped(old(ss), old(ls), Ingest(1, data, out))
      ensures Now().h.accepted == old(Now().h.accepted) + News(Decide(cfg.a, old(Now().node), 1, data))
      ensures IsAccepted(out) <==> News(Decide(cfg.a, old(Now().node), 1, data)) != []
    {
      hide Inv, Run;
      ghost var s := Now();
      InvNode(cfg, s);
      out := nodeA.BleIngest(INGEST_MS, data);
      ghost var l := Ingest(INGEST_MS, data, out);
      ghost var s' := s.(node := nodeA.State(), h := s.h.(accepted := s.h.accepted + News(Decide(cfg.a, s.node, INGEST_MS, data))));
      AcceptedIffNews(cfg.a, s.node, INGEST_MS, data, nodeA.State(), out);
      hide IngestStep, Decide;
      Extend(l, s');
    }

    ghost method Extend(l: Label, s': Sys)
      requires SameField(cfg) && Run(cfg, ss, ls) && Inv(cfg, Now()) && Next(cfg, Now(), l, s')
      modifies this`ss, this`ls
      ensures Run(cfg, ss, ls) && Stepped(old(ss), old(ls), l) && Now() == s' && Inv(cfg, s')
    {
      hide Next, Inv;
      RunExtends(cfg, ss, ls, l, s');
      StepInv(cfg, Now(), l, s');
      ss, ls := ss + [s'], ls + [l];
    }

    /** One attempt of the sender. */
    method TransmitOnce(now: int) returns (ghost a: Attempt)
      requires Valid()
      modifies Objects()
      ensures Valid() && Stepped(old(ss), old(ls), Transmit(now, a))
      ensures Now().h.accepted == old(Now().h.accepted)
    {
      hide Inv, Run;
      ghost var s := Now();
      InvNode(cfg, s);
      var res;
      res, a := nodeA.TransmitNext(now, channel, cfg.b.nodeId);
      ghost var s' := s.(node := nodeA.State(), pending := channel.pending, h := Recorded(s.h, now, a));
      hide TransmitStep;
      assert Next(cfg, s, Transmit(now, a), s');
      hide Recorded;
      RecordedAccepts(s.h, now, a);
      Extend(Transmit(now, a), s');
    }

    /** The sender restarts, keeping what it has seen. */
    method RestartSender()
      requires Valid()
      modifies Objects()
      ensures Valid() && Stepped(old(ss), old(ls), RebootSender)
    {
      hide Inv, Run, Next;
      ghost var s := Now();
      WithoutQueue(cfg, s);
      nodeA.Reboot(true);
      Extend(RebootSender, s.(node := nodeA.State(), h := s.h.(wiped := s.h.wiped + s.node.queue)));
    }

    /** The receiver restarts, keeping its ring. */
    method RestartReceiver()
      requires Valid()
      modifies Objects()
      ensures Valid() && Stepped(old(ss), old(ls), RebootReceiver)
    {
      hide Inv, Run, Next;
      WithoutQueue(cfg, Now());
      nodeB.Reboot(true);
      Extend(RebootReceiver, Now());
    }

    /** Everything due reaches the receiver, and what it takes reaches the gateway. */
    method DrainOnce(now: int)
      requires Valid()
      modifies Objects()
      ensures Valid() && Stepped(old(ss), old(ls), Drain(now))
      ensures Now().h.accepted == old(Now().h.accepted)
    {
      hide Inv, Run, ReceiveAll, Reception, RingAfter, Authentic;
      ghost var s := Now();
      InvAuthentic(cfg, s, now);
      var ready := channel.DrainReady(now);
      ghost var rx0 := Rx(s.ring, s.rows, s.h.refused);
      ghost var rx := rx0;
      for i := 0 to |ready|
        invariant ready == Ready(s.pending, now) && channel.pending == Waiting(s.pending, now)
        invariant ss == old(ss) && ls == old(ls) && nodeA.State() == s.node
        invariant rx.ring == nodeB.seenLora.ids && rx.rows == gateway.events
        invariant ReceiveAll(cfg, rx, ready[i..], now) == ReceiveAll(cfg, rx0, ready, now)
      {
        NeverRaises(cfg, rx.ring, ready[i], s.h, now);
        ReceiveAllTurn(cfg, rx, ready, i, now);
        rx := ReceiveOne(cfg, rx, ready[i], now);
        var r := nodeB.ReceiveLora(now, ready[i], Some(now));
        if r.Delivered? {
          gateway.Receive(r.inbound);
        }
      }
      ReceiveNone(cfg, rx, now);
      assert ready[|ready|..] == [];
      assert rx == ReceiveAll(cfg, rx0, ready, now);
      Extend(Drain(now), Drained(cfg, s, now));
    }
  }

  lemma ReceiveNone(cfg: Cfg, rx: Rx, now: int)
    ensures ReceiveAll(cfg, rx, [], now) == rx
  {
  }

  lemma WithoutQueue(cfg: Cfg, s: Sys)
    ensures var s' := s.(node := s.node.(queue := [], retry := map[]), h := s.h.(wiped := s.h.wiped + s.node.queue));
      Next(cfg, s, RebootSender, s') && Next(cfg, s, RebootReceiver, s)
  {
  }

  lemma InvNode(cfg: Cfg, s: Sys)
    requires Inv(cfg, s)
    ensures IsHeap(s.node.queue) && forall e | e in s.node.queue :: Framable(e)
  {
    Framables(cfg, s);
  }

  lemma InvAuthentic(cfg: Cfg, s: Sys, now: int)
    requires Inv(cfg, s)
    ensures forall f :: f in Ready(s.pending, now) ==> Authentic(cfg, s.h, f)
  {
    hide Authentic, NodeInv, RetryInv, SentInv, RowsInv;
    DrainSplits(s.pending, now);
  }

  lemma RecordedAccepts(h: History, now: int, a: Attempt)
    ensures Recorded(h, now, a).accepted == h.accepted
  {
  }

  lemma ReceiveAllTurn(cfg: Cfg, rx: Rx, fs: seq<LoraFrame>, i: nat, now: int)
    requires i < |fs|
    ensures ReceiveAll(cfg, rx, fs[i..], now) == ReceiveAll(cfg, ReceiveOne(cfg, rx, fs[i], now), fs[i + 1..], now)
  {
    assert fs[i..][0] == fs[i] && fs[i..][1..] == fs[i + 1..];
  }

  /** Nothing has happened to the events yet but being accepted or dropped. */
  ghost predicate OnlyIngested(s: Sys) {
    s.node.retry == map[] && s.pending == [] && s.h.wiped == [] && s.h.refused == {}
  }

  lemma IngestOnly(cfg: Cfg, s: Sys, l: Label, s': Sys)
    requires l.Ingest? && Next(cfg, s, l, s') && OnlyIngested(s)
    ensures OnlyIngested(s')
  {
    hide Decide;
    IngestMoves(cfg, s, l, s');
  }

  lemma QueueAmongAccepted(cfg: Cfg, s: Sys, last: int)
    requires Inv(cfg, s) && OnlyIngested(s)
    ensures OnSchedule(s, |s.h.accepted|, last)
  {
    hide IsHeap;
    assert |multiset(s.h.accepted)| >= |multiset(s.node.queue)|;
  }

  const LAST_MS := (STEPS - 1) * STEP_MS

  /** When the last of `n` events sent one per step over clear air has arrived. */
  function LastArrival(p: Profile, n: nat): int {
    (n - 1) * STEP_MS + p.delayMsMax + 1
  }

  /** The air is clear, what was accepted can be sent and arrive within the steps, and the receiver can
      take all of it at the first step and still at the last. */
  ghost predicate Undisturbed(cfg: Cfg, accepted: seq<QueuedEvent>) {
    && ClearAir(cfg.air) && |accepted| < 160 && (|accepted| - 1) * 100 + cfg.air.delayMsMax + 1 <= 15900
    && forall e :: e in accepted ==> Deliverable(e, 0) && Deliverable(e, 15900)
  }

  lemma DeliverableBetween(e: QueuedEvent, now: int)
    requires Deliverable(e, 0) && Deliverable(e, LAST_MS) && 0 <= now <= LAST_MS
    ensures Deliverable(e, now)
  {
  }

  /** The rest of the schedule before step `step`. */
  function Left(n: nat, step: nat): nat {
    if step < n then n - step else 0
  }

  lemma NothingLeft(cfg: Cfg, accepted: seq<QueuedEvent>)
    requires Undisturbed(cfg, accepted)
    ensures Left(|accepted|, STEPS) == 0
  {
  }

  /** One step of the loop keeps the schedule. */
  lemma StepOnSchedule(cfg: Cfg, s: Sys, t: Label, s1: Sys, d: Label, s2: Sys, step: nat)
    requires SameField(cfg) && Inv(cfg, s) && Inv(cfg, s1) && step < STEPS
    requires t.Transmit? && t.now == step * STEP_MS && Next(cfg, s, t, s1)
    requires d == Drain(step * STEP_MS) && Next(cfg, s1, d, s2)
    requires s1.h.accepted == s.h.accepted && Undisturbed(cfg, s.h.accepted)
    requires var n := |s.h.accepted|; OnSchedule(s, Left(n, step), LastArrival(cfg.air, n))
    ensures var n := |s.h.accepted|; OnSchedule(s2, Left(n, step + 1), LastArrival(cfg.air, n))
    ensures s2.node.dropped == s.node.dropped && forall d :: d in s2.pending ==> d.dueMs > step * STEP_MS
  {
    hide Inv, Next, OnSchedule;
    var n := |s.h.accepted|;
    ClearTransmit(cfg, s, t, s1, Left(n, step), LastArrival(cfg.air, n));
    forall e | e in s.h.accepted ensures Deliverable(e, d.now) {
      DeliverableBetween(e, d.now);
    }
    ClearDrain(cfg, s1, d, s2, Left(n, step + 1), LastArrival(cfg.air, n));
  }

  /** The loop has everything by its last step, unless something was dropped. */
  lemma AllByTheEnd(cfg: Cfg, ss: seq<Sys>, ls: seq<Label>)
    requires SameField(cfg) && Run(cfg, ss, ls)
    requires var s := ss[|ls|];
      && Undisturbed(cfg, s.h.accepted) && OnSchedule(s, 0, LastArrival(cfg.air, |s.h.accepted|))
      && forall d :: d in s.pending ==> d.dueMs > LAST_MS
    ensures var s := ss[|ls|]; s.node.dropped == [] ==> |s.rows| >= |s.h.accepted|
  {
    hide Next;
    var s := ss[|ls|];
    RunInv(cfg, ss, ls, |ls|);
    ClearEnd(cfg, ss, ls, LAST_MS, LastArrival(cfg.air, |s.h.accepted|));
    if s.node.dropped == [] {
      hide Inv;
      assert Ids(s.h.accepted) <= s.rows.Keys;
      IdsOfAccepted(cfg, s);
      MoreKeys(Ids(s.h.accepted), s.rows);
    }
  }

  lemma IdsOfAccepted(cfg: Cfg, s: Sys)
    requires Inv(cfg, s)
    ensures |Ids(s.h.accepted)| == |s.h.accepted|
  {
    IdsSize(s.h.accepted);
  }

  lemma MoreKeys<K, V>(ids: set<K>, m: map<K, V>)
    requires ids <= m.Keys
    ensures |m| >= |ids|
  {
    assert m.Keys == ids + (m.Keys - ids);
  }

  /** A dropped event keeps the gateway from ever having all that was accepted. */
  lemma DroppedIsMissing(cfg: Cfg, ss: seq<Sys>, ls: seq<Label>)
    requires SameField(cfg) && Run(cfg, ss, ls)
    requires ss[|ls|].node.dropped != []
    ensures ss[|ls|].rows.Keys != Ids(ss[|ls|].h.accepted)
  {
    hide Next, IsHeap, GoodEvent;
    var s := ss[|ls|];
    var e := s.node.dropped[0];
    RunInv(cfg, ss, ls, |ls|);
    Members(cfg, s, e);
    NoSilentLoss(cfg, ss, ls, |ls|, e);
    InPlaces(s, e);
    assert e.envelopeId in Ids(s.h.accepted);
  }

  // ---------------------------------------------------------------- the main loop

  /** The run so far: the first of the envelopes, one after the other, at 1 ms, none of them raising before
      the last. */
  predicate OffersOf(ls: seq<Label>, envelopes: seq<Bytes>) {
    && |ls| <= |envelopes|
    && (forall i :: 0 <= i < |ls| ==> ls[i].Ingest? && ls[i].now == 1 && ls[i].data == envelopes[i])
    && (forall i :: 0 <= i < |ls| - 1 ==> ls[i].Ingest? && !ls[i].out.Raised?)
  }

  /** The two labels from `from + 2 * k` on are an attempt and a drain at `100 * k` ms. */
  predicate IsRound(ls: seq<Label>, from: nat, k: nat) {
    var i := from + 2 * k;
    i + 1 < |ls| && ls[i].Transmit? && ls[i].now == 100 * k && ls[i + 1] == Drain(100 * k)
  }

  /** From `from` on the run is `n` rounds, and it ends with them. */
  ghost predicate Rounds(ls: seq<Label>, from: nat, n: nat) {
    |ls| == from + 2 * n && forall k :: 0 <= k < n ==> IsRound(ls, from, k)
  }

  /** After round `k` the gateway has fewer rows than `accepted`. */
  predicate TooFewAfter(ss: seq<Sys>, from: nat, k: nat, accepted: nat) {
    var i := from + 2 * k + 2;
    i < |ss| && |ss[i].rows| < accepted
  }

  ghost predicate TooFewBefore(ss: seq<Sys>, from: nat, n: nat, accepted: nat) {
    forall k :: 0 <= k < n - 1 ==> TooFewAfter(ss, from, k, accepted)
  }

  lemma FreshLab(lab: Lab)
    requires lab.Valid() && lab.ls == []
    ensures lab.Now() == SYS_ZERO && OnlyIngested(lab.Now())
  {
    hide Inv, Next;
  }

  lemma NoOffers(envelopes: seq<Bytes>)
    ensures OffersOf([], envelopes)
  {
  }

  lemma OneMoreOffer(ls: seq<Label>, ls': seq<Label>, envelopes: seq<Bytes>, out: IngestResult)
    requires OffersOf(ls, envelopes) && |ls| < |envelopes| && ls' == ls + [Ingest(1, envelopes[|ls|], out)]
    requires ls != [] ==> ls[|ls| - 1].Ingest? && !ls[|ls| - 1].out.Raised?
    ensures OffersOf(ls', envelopes)
  {
  }

  lemma NoRounds(ls: seq<Label>, ss: seq<Sys>, accepted: nat)
    ensures Rounds(ls, |ls|, 0) && TooFewBefore(ss, |ls|, 0, accepted)
  {
  }

  lemma RoundsAreNoOffers(ls: seq<Label>, from: nat, n: nat)
    requires Rounds(ls, from, n) && n > 0
    ensures ls != [] && !ls[|ls| - 1].Ingest?
  {
    assert IsRound(ls, from, n - 1);
  }

  lemma OneMoreRound(ls: seq<Label>, ls': seq<Label>, from: nat, n: nat, t: Label, d: Label)
    requires Rounds(ls, from, n) && ls' == ls + [t] + [d]
    requires t.Transmit? && t.now == 100 * n && d == Drain(100 * n)
    ensures Rounds(ls', from, n + 1)
  {
    forall k | 0 <= k < n + 1 ensures IsRound(ls', from, k) {
      if k < n {
        assert IsRound(ls, from, k);
      }
    }
  }

  lemma OneMoreTooFew(ss: seq<Sys>, ss': seq<Sys>, from: nat, n: nat, accepted: nat)
    requires |ss| == from + 2 * n + 1 && ss <= ss' && |ss'| == |ss| + 2
    requires TooFewBefore(ss, from, n, accepted) && (n > 0 ==> |ss[|ss| - 1].rows| < accepted)
    ensures TooFewBefore(ss', from, n + 1, accepted)
  {
    forall k | 0 <= k < n ensures TooFewAfter(ss', from, k, accepted) {
      if k < n - 1 {
        assert TooFewAfter(ss, from, k, accepted);
      }
    }
  }

  /** The envelopes are handed to the sender one after the other, up to the first that raises. */
  method IngestAll(lab: Lab, envelopes: seq<Bytes>) returns (raised: bool, accepted: nat)
    requires lab.Valid() && lab.ls == []
    modifies lab.Objects()
    ensures lab.Valid() && accepted == |lab.Now().h.accepted| && OnlyIngested(lab.Now())
    ensures OffersOf(lab.ls, envelopes) && (!raised ==> |lab.ls| == |envelopes|)
    ensures raised <==> lab.ls != [] && lab.ls[|lab.ls| - 1].Ingest? && lab.ls[|lab.ls| - 1].out.Raised?
  {
    hide Inv, Run, Next, Decide, OnlyIngested, OffersOf, IsHeap;
    raised, accepted := false, 0;
    FreshLab(lab);
    NoOffers(envelopes);
    for i := 0 to |envelopes|
      invariant lab.Valid() && accepted == |lab.Now().h.accepted| && OnlyIngested(lab.Now())
      invariant |lab.ls| == i && OffersOf(lab.ls, envelopes)
      invariant i > 0 ==> lab.ls[i - 1].Ingest? && !lab.ls[i - 1].out.Raised?
    {
      ghost var s, ls0 := lab.Now(), lab.ls;
      var out := lab.Send(envelopes[i]);
      IngestOnly(lab.cfg, s, Ingest(INGEST_MS, envelopes[i], out), lab.Now());
      OneMoreOffer(ls0, lab.ls, envelopes, out);
      if out.Raised? {
        return true, accepted;
      }
      if IsAccepted(out) {
        accepted := accepted + 1;
      }
    }
  }

  /** Up to 160 steps of a tenth of a second, each one attempt and one drain, until the gateway has as
      many events as were accepted. */
  method Deliver(lab: Lab, accepted: nat) returns (early: bool, ghost rounds: nat)
    requires lab.Valid() && accepted == |lab.Now().h.accepted| && OnlyIngested(lab.Now())
    modifies lab.Objects()
    ensures lab.Valid() && lab.Now().h.accepted == old(lab.Now().h.accepted)
    ensures old(lab.ss) <= lab.ss && old(lab.ls) <= lab.ls
    ensures 1 <= rounds <= 160 && (!early ==> rounds == 160) && Rounds(lab.ls, |old(lab.ls)|, rounds)
    ensures TooFewBefore(lab.ss, |old(lab.ls)|, rounds, accepted)
    ensures early <==> |lab.gateway.events| >= accepted
    ensures Undisturbed(lab.cfg, lab.Now().h.accepted) ==>
      lab.nodeA.dropped == old(lab.nodeA.dropped) && (lab.nodeA.dropped == [] ==> early)
  {
    hide Inv, Run, Next, OnSchedule, Undisturbed, OnlyIngested, Rounds, TooFewBefore;
    ghost var from := |lab.ls|;
    NoRounds(lab.ls, lab.ss, accepted);
    rounds := 0;
    ghost var es := lab.Now().h.accepted;
    QueueAmongAccepted(lab.cfg, lab.Now(), LastArrival(lab.cfg.air, |es|));
    for step := 0 to STEPS
      invariant lab.Valid() && lab.Now().h.accepted == es
      invariant old(lab.ss) <= lab.ss && old(lab.ls) <= lab.ls
      invariant rounds == step && Rounds(lab.ls, from, step) && TooFewBefore(lab.ss, from, step, accepted)
      invariant step > 0 ==> |lab.gateway.events| < accepted
      invariant Undisturbed(lab.cfg, es) ==>
        && OnSchedule(lab.Now(), Left(|es|, step), LastArrival(lab.cfg.air, |es|))
        && lab.nodeA.dropped == old(lab.nodeA.dropped)
        && (step > 0 ==> forall d :: d in lab.Now().pending ==> d.dueMs > (step - 1) * STEP_MS)
    {
      ghost var s, ls0, ss0 := lab.Now(), lab.ls, lab.ss;
      ghost var a := lab.TransmitOnce(step * STEP_MS);
      ghost var s1 := lab.Now();
      lab.DrainOnce(step * STEP_MS);
      OneMoreRound(ls0, lab.ls, from, step, Transmit(step * STEP_MS, a), Drain(step * STEP_MS));
      OneMoreTooFew(ss0, lab.ss, from, step, accepted);
      rounds := step + 1;
      if Undisturbed(lab.cfg, es) {
        StepOnSchedule(lab.cfg, s, Transmit(step * STEP_MS, a), s1, Drain(step * STEP_MS), lab.Now(), step);
      }
      if |lab.gateway.events| >= accepted {
        return true, rounds;
      }
    }
    early := false;
    if Undisturbed(lab.cfg, es) {
      NothingLeft(lab.cfg, es);
      AllByTheEnd(lab.cfg, lab.ss, lab.ls);
    }
  }

  /** The main scenario. It returns whether the loop stopped early, None when an ingest raised. It is a
      run of the machine, so everything proved of runs holds of it. Stopping early means that what was
      delivered is exactly what was accepted and that nothing was dropped; and undisturbed it
      stops early exactly when nothing was dropped. */
  method RunMain(lab: Lab, envelopes: seq<Bytes>) returns (early: Option<bool>, accepted: nat, ghost rounds: nat)
    requires lab.Valid() && lab.ls == []
    modifies lab.Objects()
    ensures lab.Valid() && accepted == |lab.Now().h.accepted|
    ensures lab.gateway.events.Keys <= Ids(lab.Now().h.accepted)
    ensures early.None? <==> OffersOf(lab.ls, envelopes) && lab.ls != [] && lab.ls[|lab.ls| - 1].out.Raised?
    ensures early.Some? ==>
      && |lab.ls| >= |envelopes| && OffersOf(lab.ls[..|envelopes|], envelopes)
      && 1 <= rounds <= 160 && (!early.value ==> rounds == 160) && Rounds(lab.ls, |envelopes|, rounds)
      && TooFewBefore(lab.ss, |envelopes|, rounds, accepted)
    ensures early.Some? ==>
      && (early.value <==> lab.gateway.events.Keys == Ids(lab.Now().h.accepted))
      && (early.value ==> lab.nodeA.dropped == [])
      && (Undisturbed(lab.cfg, lab.Now().h.accepted) ==> (early.value <==> lab.nodeA.dropped == []))
  {
    hide Undisturbed, Inv, Run, OnlyIngested, Rounds, TooFewBefore;
    early, rounds := None, 0;
    var raised;
    raised, accepted := IngestAll(lab, envelopes);
    if !raised {
      ghost var offers := lab.ls;
      var stopped;
      stopped, rounds := Deliver(lab, accepted);
      assert lab.ls[..|envelopes|] == offers;
      RoundsAreNoOffers(lab.ls, |envelopes|, rounds);
      early := Some(stopped);
      if lab.nodeA.dropped != [] {
        DroppedIsMissing(lab.cfg, lab.ss, lab.ls);
      }
    }
    AllDelivered(lab.cfg, lab.Now());
  }

  // ---------------------------------------------------------------- the relay storm

  /** A copy of an event put on air by some relay, with its own source, sequence number and time-to-live,
      and the time at which the receiver gets it. */
  datatype Copy = Copy(src: nat, relay: string, packetSeq: nat, ttl: nat, now: int)

  function RelayFields(cfg: Cfg, e: QueuedEvent, c: Copy): L.Frame {
    L.Event(1, cfg.a.field.FieldTag(), c.src, c.packetSeq, c.ttl, e.envelopeId, e.eventType,
            e.priority, e.createdMs, e.createdCounter, e.compactPayload)
  }

  function RelayFrame(cfg: Cfg, e: QueuedEvent, c: Copy): LoraFrame
    requires Framable(e)
  {
    LoraFrame(L.Encode(cfg.a.crypto, cfg.a.field.loraMacKey, RelayFields(cfg, e, c)).value, c.relay, cfg.b.nodeId,
              e.envelopeId, e.eventType, e.priority, c.ttl, c.packetSeq, false)
  }

  /** The receiver gets the copies one after the other, each at its own time. */
  function ReceiveCopies(cfg: Cfg, rx: Rx, e: QueuedEvent, copies: seq<Copy>): Rx
    requires Framable(e)
    decreases copies
  {
    hide ReceiveOne, RelayFrame;
    if copies == [] then rx
    else ReceiveCopies(cfg, ReceiveOne(cfg, rx, RelayFrame(cfg, e, copies[0]), copies[0].now), e, copies[1..])
  }

  /** The receiver can take the copy when it gets it. */
  predicate CopyDeliverable(e: QueuedEvent, c: Copy) {
    Deliverable(e.(ttl := c.ttl), c.now)
  }

  function FirstTaken(e: QueuedEvent, copies: seq<Copy>): Option<Copy>
    decreases copies
  {
    if copies == [] then None
    else if CopyDeliverable(e, copies[0]) then Some(copies[0])
    else FirstTaken(e, copies[1..])
  }

  function CopyRow(e: QueuedEvent, c: Copy): Row {
    Row(e.envelopeId, e.eventType, e.priority, c.src % U16, DecodeCompact(e.eventType, e.compactPayload))
  }

  /** However many relays put the same new event on air, from whatever nodes, with whatever sequence
      numbers, times-to-live and moments of arrival, the gateway gains at most one row: that of the
      first copy the receiver can take, and none if it can take none. */
  lemma StormStoresOnce(cfg: Cfg, rx: Rx, e: QueuedEvent, copies: seq<Copy>)
    requires SameField(cfg) && GoodEvent(e) && e.envelopeId !in rx.ring && rx.rows.Keys == rx.ring
    ensures var rx', first := ReceiveCopies(cfg, rx, e, copies), FirstTaken(e, copies);
      if first.None? then rx'.ring == rx.ring && rx'.rows == rx.rows
      else rx'.ring == rx.ring + {e.envelopeId} && rx'.rows == rx.rows[e.envelopeId := CopyRow(e, first.value)]
    decreases copies
  {
    hide ReceiveOne, RelayFrame, CopyDeliverable, CopyRow;
    if copies != [] {
      CopyReceived(cfg, rx, e, copies[0]);
      var rx1 := ReceiveOne(cfg, rx, RelayFrame(cfg, e, copies[0]), copies[0].now);
      if CopyDeliverable(e, copies[0]) {
        CopiesIgnored(cfg, rx1, e, copies[1..]);
      } else {
        StormStoresOnce(cfg, rx1, e, copies[1..]);
      }
    }
  }

  lemma {:induction false} CopiesIgnored(cfg: Cfg, rx: Rx, e: QueuedEvent, copies: seq<Copy>)
    requires SameField(cfg) && GoodEvent(e) && e.envelopeId in rx.ring && rx.rows.Keys == rx.ring
    ensures var rx' := ReceiveCopies(cfg, rx, e, copies);
      rx'.ring == rx.ring && rx'.rows == rx.rows
    decreases copies
  {
    hide ReceiveOne, RelayFrame, CopyDeliverable, CopyRow;
    if copies != [] {
      CopyReceived(cfg, rx, e, copies[0]);
      CopiesIgnored(cfg, ReceiveOne(cfg, rx, RelayFrame(cfg, e, copies[0]), copies[0].now), e, copies[1..]);
    }
  }

  lemma CopyReceived(cfg: Cfg, rx: Rx, e: QueuedEvent, c: Copy)
    requires SameField(cfg) && GoodEvent(e) && rx.rows.Keys == rx.ring
    ensures ReceiveOne(cfg, rx, RelayFrame(cfg, e, c), c.now) ==
      if !CopyDeliverable(e, c) then rx.(refused := rx.refused + {e.envelopeId})
      else if e.envelopeId in rx.ring then rx
      else rx.(ring := rx.ring + {e.envelopeId}, rows := rx.rows[e.envelopeId := CopyRow(e, c)])
  {
    CopyVerdict(cfg, rx.ring, e, c);
    hide L.Verify, Checked, DecodeCompact;
    assert rx.ring + {} == rx.ring;
  }

  function CopyOnAir(cfg: Cfg, e: QueuedEvent, c: Copy): L.Frame {
    L.Event(1, cfg.a.field.FieldTag(), c.src % U16, c.packetSeq % U16, c.ttl % 256, e.envelopeId, e.eventType,
            e.priority, e.createdMs % U48, e.createdCounter % U16, e.compactPayload)
  }

  lemma CopyVerdict(cfg: Cfg, ring: set<Bytes>, e: QueuedEvent, c: Copy)
    requires SameField(cfg) && GoodEvent(e)
    ensures Checked(cfg.b, ring, RelayFrame(cfg, e, c), Some(c.now)) ==
      if c.ttl % 256 == 0 then L.Rejected(L.TtlExpired)
      else if !CopyDeliverable(e, c) then L.Rejected(L.ReplayWindow)
      else if e.envelopeId in ring then L.Rejected(L.ReplayDuplicate)
      else L.Accepted(CopyOnAir(cfg, e, c))
  {
    hide L.Inspect;
    L.InspectEncoded(cfg.a.crypto, cfg.a.field.loraMacKey, RelayFields(cfg, e, c));
    CopyGoesOnAir(cfg, e, c);
  }

  lemma CopyGoesOnAir(cfg: Cfg, e: QueuedEvent, c: Copy)
    requires GoodEvent(e)
    ensures L.OnAir(RelayFields(cfg, e, c)) == CopyOnAir(cfg, e, c)
  {
  }
}
