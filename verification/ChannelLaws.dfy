/** The channel in the cases where its random draws are settled, and the order in which it hands over. */
module ChannelLaws {
  import opened Bits
  import opened LoraV1
  import opened Channel

  /** What a transmission did to the channel: the outcome, and what is pending after it. */
  ghost predicate Sends(p: Profile, pending: seq<Delivery>, now: int, f: LoraFrame, outcome: TxOutcome, pending': seq<Delivery>) {
    exists d :: ChannelStep(p, pending, now, f, d, pending') && outcome == OutcomeOf(f, d)
  }

  /** An expired frame is lost without being put on air. */
  lemma ExpiredIsLost(p: Profile, pending: seq<Delivery>, now: int, f: LoraFrame, outcome: TxOutcome, pending': seq<Delivery>)
    requires Sends(p, pending, now, f, outcome, pending') && f.ttl <= 0
    ensures outcome == LOST && pending' == pending
  {
  }

  /** A channel that is always busy defers everything; one that never is defers nothing. */
  lemma Busyness(p: Profile, pending: seq<Delivery>, now: int, f: LoraFrame, outcome: TxOutcome, pending': seq<Delivery>)
    requires Sends(p, pending, now, f, outcome, pending') && f.ttl > 0
    ensures p.channelBusyPercent >= 100 ==> outcome == BUSY && pending' == pending
    ensures p.channelBusyPercent <= 0 ==> outcome != BUSY
    ensures outcome == BUSY ==> pending' == pending
  {
  }

  /** An idle channel that always loses, loses, and puts nothing on air. */
  lemma AlwaysLost(p: Profile, pending: seq<Delivery>, now: int, f: LoraFrame, outcome: TxOutcome, pending': seq<Delivery>)
    requires Sends(p, pending, now, f, outcome, pending') && f.ttl > 0
    requires p.channelBusyPercent <= 0 && p.packetLossPercent >= 100
    ensures outcome == LOST && pending' == pending
  {
  }

  /** One garbled copy on the way: the byte at one place complemented, between header and CRC if there is
      anything there, within the delays of the profile. */
  ghost predicate Garbled(p: Profile, now: int, f: LoraFrame, x: Delivery) {
    && now + p.delayMsMin <= x.dueMs <= now + p.delayMsMax
    && x.frame == f.(raw := x.frame.raw, corrupted := true)
    && exists i: nat :: i < |f.raw| && (if |f.raw| > 13 then 11 <= i < |f.raw| - 2 else i == 0)
                        && x.frame.raw == f.raw[i := Flip(f.raw[i])]
  }

  /** An idle, lossless channel that always corrupts: the frame counts as lost, and a garbled copy is on air. */
  lemma AlwaysCorrupted(p: Profile, pending: seq<Delivery>, now: int, f: LoraFrame, outcome: TxOutcome, pending': seq<Delivery>)
    requires Sends(p, pending, now, f, outcome, pending') && f.ttl > 0
    requires p.channelBusyPercent <= 0 && p.packetLossPercent <= 0 && p.corruptPercent >= 100
    ensures outcome == LOST
    ensures exists x :: Garbled(p, now, f, x) && multiset(pending') == multiset(pending) + multiset{x}
  {
    hide Reordered, SortByDue, Added, Garbled;
    var d :| ChannelStep(p, pending, now, f, d, pending') && outcome == OutcomeOf(f, d);
    assert d.DrawCorrupt?;
    var added := Added(now, f, d);
    GarbledAdded(p, now, f, d);
    ReorderedKeeps(p, pending + added, pending');
    assert added == [added[0]];
  }

  lemma GarbledAdded(p: Profile, now: int, f: LoraFrame, d: Draw)
    requires f.ttl > 0 && d.DrawCorrupt? && Possible(p, f, d) && d.index < |f.raw|
    ensures |Added(now, f, d)| == 1 && Garbled(p, now, f, Added(now, f, d)[0])
  {
    hide Flip;
    assert Added(now, f, d)[0].frame.raw == f.raw[d.index := Flip(f.raw[d.index])];
  }

  /** One intact copy on the way, due within the delays of the profile, and, if `twice`, another one a
      millisecond later. */
  ghost predicate OnTheWay(p: Profile, pending: seq<Delivery>, now: int, f: LoraFrame, delay: int, twice: bool, pending': seq<Delivery>) {
    && p.delayMsMin <= delay <= p.delayMsMax
    && (p.duplicatePercent <= 0 ==> !twice) && (p.duplicatePercent >= 100 ==> twice)
    && multiset(pending') == multiset(pending) + multiset(Copies(f, now + delay, twice))
  }

  function Copies(f: LoraFrame, due: int, twice: bool): seq<Delivery> {
    if twice then [Delivery(due, f), Delivery(due + 1, f)] else [Delivery(due, f)]
  }

  lemma CopiesAdded(now: int, f: LoraFrame, d: Draw)
    requires f.ttl > 0 && d.DrawClear?
    ensures Added(now, f, d) == Copies(f, now + d.delay, d.duplicate) && Added(now, f, d) != []
  {
  }

  /** Clear air: the frame is sent, as it is. */
  lemma ClearIsSent(p: Profile, pending: seq<Delivery>, now: int, f: LoraFrame, outcome: TxOutcome, pending': seq<Delivery>)
    requires Sends(p, pending, now, f, outcome, pending') && f.ttl > 0
    requires p.channelBusyPercent <= 0 && p.packetLossPercent <= 0 && p.corruptPercent <= 0
    ensures outcome == SENT
    ensures exists delay, twice :: OnTheWay(p, pending, now, f, delay, twice, pending')
  {
    hide Reordered, SortByDue, Copies, Added;
    var d :| ChannelStep(p, pending, now, f, d, pending') && outcome == OutcomeOf(f, d);
    assert d.DrawClear?;
    var added := Added(now, f, d);
    CopiesAdded(now, f, d);
    ReorderedKeeps(p, pending + added, pending');
    assert OnTheWay(p, pending, now, f, d.delay, d.duplicate, pending');
  }

  /** And everything the profile leaves open can happen: a frame may be deferred, lost, garbled at any place
      the corruption may hit, or sent, with any delay of the profile. */
  lemma AnythingCanBe(p: Profile, pending: seq<Delivery>, now: int, f: LoraFrame, delay: int, i: nat, twice: bool)
    requires f.ttl > 0 && p.delayMsMin <= delay <= p.delayMsMax
    requires i < |f.raw| && if |f.raw| > 13 then 11 <= i < |f.raw| - 2 else i == 0
    ensures p.channelBusyPercent > 0 ==> Sends(p, pending, now, f, BUSY, pending)
    ensures p.channelBusyPercent < 100 && p.packetLossPercent > 0 ==> Sends(p, pending, now, f, LOST, pending)
    ensures p.channelBusyPercent < 100 && p.packetLossPercent < 100 && p.corruptPercent > 0 ==>
      Sends(p, pending, now, f, LOST,
        SortByDue(pending + [Delivery(now + delay, f.(raw := f.raw[i := Flip(f.raw[i])], corrupted := true))]))
    ensures p.channelBusyPercent < 100 && p.packetLossPercent < 100 && p.corruptPercent < 100
            && (if twice then p.duplicatePercent > 0 else p.duplicatePercent < 100) ==>
      Sends(p, pending, now, f, SENT, SortByDue(pending + Copies(f, now + delay, twice)))
  {
    hide SortByDue, Flip, Sends;
    if p.channelBusyPercent > 0 {
      Happens(p, pending, now, f, DrawBusy, pending);
    }
    if p.channelBusyPercent < 100 && p.packetLossPercent > 0 {
      Happens(p, pending, now, f, DrawLost, pending);
    }
    if p.channelBusyPercent < 100 && p.packetLossPercent < 100 {
      if p.corruptPercent > 0 {
        GarbledCanBe(p, pending, now, f, delay, i);
      }
      if p.corruptPercent < 100 && if twice then p.duplicatePercent > 0 else p.duplicatePercent < 100 {
        SentCanBe(p, pending, now, f, delay, twice);
      }
    }
  }

  lemma GarbledCanBe(p: Profile, pending: seq<Delivery>, now: int, f: LoraFrame, delay: int, i: nat)
    requires f.ttl > 0 && p.delayMsMin <= delay <= p.delayMsMax
    requires i < |f.raw| && if |f.raw| > 13 then 11 <= i < |f.raw| - 2 else i == 0
    requires p.channelBusyPercent < 100 && p.packetLossPercent < 100 && p.corruptPercent > 0
    ensures Sends(p, pending, now, f, LOST,
      SortByDue(pending + [Delivery(now + delay, f.(raw := f.raw[i := Flip(f.raw[i])], corrupted := true))]))
  {
    hide SortByDue, Flip, Sends;
    var d := DrawCorrupt(i, delay);
    Happens(p, pending, now, f, d, SortByDue(pending + Added(now, f, d)));
  }

  lemma SentCanBe(p: Profile, pending: seq<Delivery>, now: int, f: LoraFrame, delay: int, twice: bool)
    requires f.ttl > 0 && p.delayMsMin <= delay <= p.delayMsMax
    requires p.channelBusyPercent < 100 && p.packetLossPercent < 100 && p.corruptPercent < 100
    requires if twice then p.duplicatePercent > 0 else p.duplicatePercent < 100
    ensures Sends(p, pending, now, f, SENT, SortByDue(pending + Copies(f, now + delay, twice)))
  {
    hide SortByDue, Sends;
    var d := DrawClear(delay, twice);
    CopiesAdded(now, f, d);
    Happens(p, pending, now, f, d, SortByDue(pending + Added(now, f, d)));
  }

  lemma Happens(p: Profile, pending: seq<Delivery>, now: int, f: LoraFrame, d: Draw, pending': seq<Delivery>)
    requires f.ttl > 0 && Possible(p, f, d) && (d.DrawCorrupt? ==> d.index < |f.raw|)
    requires pending' == if Added(now, f, d) == [] then pending else SortByDue(pending + Added(now, f, d))
    ensures Sends(p, pending, now, f, OutcomeOf(f, d), pending')
  {
    hide SortByDue;
    assert ChannelStep(p, pending, now, f, d, pending');
  }

  // ---------------------------------------------------------------- order

  /** Those due at one moment, in order. */
  function DueAt(ds: seq<Delivery>, t: int): seq<Delivery> {
    if ds == [] then [] else (if ds[0].dueMs == t then [ds[0]] else []) + DueAt(ds[1..], t)
  }

  /** A channel that does not reorder keeps what is pending sorted by due time, and those due together in
      the order in which they were sent. */
  lemma SortedIsStable(p: Profile, ds: seq<Delivery>, ds': seq<Delivery>, t: int)
    requires Reordered(p, ds, ds') && p.reorderPercent <= 0
    ensures (forall i, j :: 0 <= i < j < |ds'| ==> ds'[i].dueMs <= ds'[j].dueMs)
    ensures DueAt(ds', t) == DueAt(ds, t)
  {
    hide SortByDue;
    SortStable(ds, t);
    SortedMeans(ds');
  }

  lemma {:induction false} SortedMeans(ds: seq<Delivery>)
    requires SortedByDue(ds)
    ensures forall i, j :: 0 <= i < j < |ds| ==> ds[i].dueMs <= ds[j].dueMs
    decreases ds
  {
    if |ds| > 1 {
      SortedMeans(ds[1..]);
      forall i, j | 0 <= i < j < |ds| ensures ds[i].dueMs <= ds[j].dueMs {
        assert ds[j] == ds[1..][j - 1] && ds[1] == ds[1..][0];
        if i > 0 {
          assert ds[i] == ds[1..][i - 1];
        }
      }
    }
  }

  lemma {:induction false} SortStable(ds: seq<Delivery>, t: int)
    ensures DueAt(SortByDue(ds), t) == DueAt(ds, t)
    decreases ds
  {
    if ds != [] {
      SortStable(ds[1..], t);
      InsertStable(ds[0], SortByDue(ds[1..]), t);
    }
  }

  lemma {:induction false} InsertStable(d: Delivery, ds: seq<Delivery>, t: int)
    requires SortedByDue(ds)
    ensures DueAt(InsertByDue(d, ds), t) == (if d.dueMs == t then [d] else []) + DueAt(ds, t)
    decreases ds
  {
    if ds == [] || d.dueMs <= ds[0].dueMs {
      assert ([d] + ds)[1..] == ds;
    } else {
      InsertStable(d, ds[1..], t);
      var r := InsertByDue(d, ds[1..]);
      assert ([ds[0]] + r)[1..] == r;
      if d.dueMs == t {
        LaterNotDue(ds, t);
      }
    }
  }

  lemma LaterNotDue(ds: seq<Delivery>, t: int)
    requires ds != [] && ds[0].dueMs < t
    ensures DueAt(ds, t) == DueAt(ds[1..], t)
  {
  }

  /** Draining goes through what is pending in order: each delivery is handed over if it is due and stays if
      it is not, whatever stands before or behind it. */
  lemma DrainInOrder(a: seq<Delivery>, d: Delivery, b: seq<Delivery>, now: int)
    ensures Ready(a + [d] + b, now) == Ready(a, now) + (if d.dueMs <= now then [d.frame] else []) + Ready(b, now)
    ensures Waiting(a + [d] + b, now) == Waiting(a, now) + (if d.dueMs <= now then [] else [d]) + Waiting(b, now)
    ensures Ready([], now) == [] && Waiting([], now) == []
  {
    ReadyConcat(a + [d], b, now);
    ReadyConcat(a, [d], now);
    WaitingConcat(a + [d], b, now);
    WaitingConcat(a, [d], now);
    assert [d][1..] == [];
  }

  lemma {:induction false} ReadyConcat(a: seq<Delivery>, b: seq<Delivery>, now: int)
    ensures Ready(a + b, now) == Ready(a, now) + Ready(b, now)
    decreases a
  {
    if a == [] {
      assert a + b == b;
    } else {
      var first := if a[0].dueMs <= now then [a[0].frame] else [];
      assert Ready(a, now) == first + Ready(a[1..], now);
      assert Ready(a + b, now) == first + Ready((a + b)[1..], now);
      hide Ready;
      assert (a + b)[1..] == a[1..] + b;
      ReadyConcat(a[1..], b, now);
      Regroup(first, Ready(a[1..], now), Ready(b, now));
    }
  }

  lemma {:induction false} WaitingConcat(a: seq<Delivery>, b: seq<Delivery>, now: int)
    ensures Waiting(a + b, now) == Waiting(a, now) + Waiting(b, now)
    decreases a
  {
    if a == [] {
      assert a + b == b;
    } else {
      var first := if a[0].dueMs > now then [a[0]] else [];
      assert Waiting(a, now) == first + Waiting(a[1..], now);
      assert Waiting(a + b, now) == first + Waiting((a + b)[1..], now);
      hide Waiting;
      assert (a + b)[1..] == a[1..] + b;
      WaitingConcat(a[1..], b, now);
      Regroup(first, Waiting(a[1..], now), Waiting(b, now));
    }
  }

  lemma Regroup<T>(x: seq<T>, y: seq<T>, z: seq<T>)
    ensures x + (y + z) == (x + y) + z
  {
  }
}
