/** The lossy radio channel. The random generator is an oracle: every result in range may occur. */
module Channel {
  import opened Bits
  import opened LoraV1

  /** A frame on the air: its bytes and the view the simulator logs. */
  datatype LoraFrame = LoraFrame(
    raw: Bytes, src: string, dst: string, eventId: Bytes, eventType: nat, priority: nat,
    ttl: int, packetSeq: nat, corrupted: bool)

  datatype Delivery = Delivery(dueMs: int, frame: LoraFrame)

  datatype Profile = Profile(
    packetLossPercent: int, delayMsMin: int, delayMsMax: int, duplicatePercent: int,
    reorderPercent: int, corruptPercent: int, channelBusyPercent: int)

  datatype TxOutcome = SENT | BUSY | LOST

  /** What the channel draws for one frame. */
  datatype Draw =
    | DrawBusy
    | DrawLost
    | DrawCorrupt(index: nat, delay: int)
    | DrawClear(delay: int, duplicate: bool)

  /** The bytes `_corrupt` may hit: from behind the header up to the CRC, or byte 0 of a frame
      too short to have any. */
  predicate CorruptibleIndex(raw: Bytes, i: nat) {
    if |raw| - 2 > HDR_BYTES then HDR_BYTES <= i < |raw| - 2 else i == 0 < |raw|
  }

  /** `bad` is `raw` after a corruption the channel can make. */
  ghost predicate Flipped(raw: Bytes, bad: Bytes) {
    exists i: nat :: CorruptibleIndex(raw, i) && i < |raw| && bad == raw[i := Flip(raw[i])]
  }

  lemma IndexInside(raw: Bytes, i: nat)
    requires CorruptibleIndex(raw, i)
    ensures i < |raw|
  {
  }

  function Corrupt(f: LoraFrame, i: nat): LoraFrame
    requires i < |f.raw|
  {
    f.(raw := f.raw[i := Flip(f.raw[i])], corrupted := true)
  }

  /** `_hit` draws below a percentage, so 0 never and 100 always hits. */
  predicate MayHit(percent: int) { percent > 0 }
  predicate MayMiss(percent: int) { percent < 100 }

  predicate Possible(p: Profile, f: LoraFrame, d: Draw) {
    match d
    case DrawBusy => MayHit(p.channelBusyPercent)
    case DrawLost => MayMiss(p.channelBusyPercent) && MayHit(p.packetLossPercent)
    case DrawCorrupt(i, delay) =>
      && MayMiss(p.channelBusyPercent) && MayMiss(p.packetLossPercent) && MayHit(p.corruptPercent)
      && p.delayMsMin <= delay <= p.delayMsMax && CorruptibleIndex(f.raw, i)
    case DrawClear(delay, duplicate) =>
      && MayMiss(p.channelBusyPercent) && MayMiss(p.packetLossPercent) && MayMiss(p.corruptPercent)
      && p.delayMsMin <= delay <= p.delayMsMax
      && (if duplicate then MayHit(p.duplicatePercent) else MayMiss(p.duplicatePercent))
  }

  function OutcomeOf(f: LoraFrame, d: Draw): TxOutcome {
    if f.ttl <= 0 then LOST
    else match d
      case DrawBusy => BUSY
      case DrawLost => LOST
      case DrawCorrupt(_, _) => LOST
      case DrawClear(_, _) => SENT
  }

  function Added(now: int, f: LoraFrame, d: Draw): seq<Delivery>
    requires d.DrawCorrupt? ==> d.index < |f.raw|
  {
    if f.ttl <= 0 then []
    else match d
      case DrawBusy => []
      case DrawLost => []
      case DrawCorrupt(i, delay) => [Delivery(now + delay, Corrupt(f, i))]
      case DrawClear(delay, duplicate) =>
        [Delivery(now + delay, f)] + if duplicate then [Delivery(now + delay + 1, f)] else []
  }

  /** One transmission: the pending frames gain what was put on air, in some order. */
  ghost predicate ChannelStep(p: Profile, pending: seq<Delivery>, now: int, f: LoraFrame, d: Draw, pending': seq<Delivery>) {
    && (f.ttl > 0 ==> Possible(p, f, d))
    && (d.DrawCorrupt? ==> d.index < |f.raw|)
    && if Added(now, f, d) == [] then pending' == pending else Reordered(p, pending + Added(now, f, d), pending')
  }

  /** `_reorder`: sorted by due time, or, when a reordering may happen, left in any order. */
  ghost predicate Reordered(p: Profile, ds: seq<Delivery>, ds': seq<Delivery>) {
    ds' == SortByDue(ds) || (MayHit(p.reorderPercent) && multiset(ds') == multiset(ds))
  }

  lemma ReorderedKeeps(p: Profile, ds: seq<Delivery>, ds': seq<Delivery>)
    requires Reordered(p, ds, ds')
    ensures multiset(ds') == multiset(ds)
  {
  }

  predicate SortedByDue(ds: seq<Delivery>) {
    |ds| <= 1 || (ds[0].dueMs <= ds[1].dueMs && SortedByDue(ds[1..]))
  }

  /** Puts `d` before everything due no earlier. */
  function InsertByDue(d: Delivery, ds: seq<Delivery>): (r: seq<Delivery>)
    requires SortedByDue(ds)
    ensures SortedByDue(r) && multiset(r) == multiset{d} + multiset(ds)
    ensures r != [] && (r[0] == d || (ds != [] && r[0] == ds[0]))
  {
    if ds == [] || d.dueMs <= ds[0].dueMs then
      assert ([d] + ds)[1..] == ds;
      [d] + ds
    else
      assert ds == [ds[0]] + ds[1..];
      var r := InsertByDue(d, ds[1..]);
      assert ([ds[0]] + r)[1..] == r;
      [ds[0]] + r
  }

  /** The stable sort of a list by due time. */
  function SortByDue(ds: seq<Delivery>): (r: seq<Delivery>)
    ensures SortedByDue(r) && multiset(r) == multiset(ds)
  {
    if ds == [] then []
    else
      assert ds == [ds[0]] + ds[1..];
      InsertByDue(ds[0], SortByDue(ds[1..]))
  }

  /** The frames due by `now`, in the order in which they are pending. */
  function Ready(ds: seq<Delivery>, now: int): seq<LoraFrame> {
    if ds == [] then []
    else (if ds[0].dueMs <= now then [ds[0].frame] else []) + Ready(ds[1..], now)
  }

  function Waiting(ds: seq<Delivery>, now: int): seq<Delivery> {
    if ds == [] then []
    else (if ds[0].dueMs > now then [ds[0]] else []) + Waiting(ds[1..], now)
  }

  /** Draining splits what is pending: a delivery is either handed over or kept. */
  lemma {:induction false} DrainSplits(ds: seq<Delivery>, now: int)
    ensures forall d :: d in ds && d.dueMs <= now ==> d.frame in Ready(ds, now)
    ensures forall d :: d in ds && d.dueMs > now ==> d in Waiting(ds, now)
    ensures forall d :: d in Waiting(ds, now) ==> d in ds && d.dueMs > now
    ensures forall f :: f in Ready(ds, now) ==> exists d :: d in ds && d.frame == f && d.dueMs <= now
    ensures |Ready(ds, now)| + |Waiting(ds, now)| == |ds|
  {
    if ds != [] {
      DrainSplits(ds[1..], now);
      forall f | f in Ready(ds, now) ensures exists d :: d in ds && d.frame == f && d.dueMs <= now {
        if !(ds[0].dueMs <= now && f == ds[0].frame) {
          assert f in Ready(ds[1..], now);
          var d :| d in ds[1..] && d.frame == f && d.dueMs <= now;
          assert d in ds;
        } else {
          assert ds[0] in ds;
        }
      }
    }
  }

  // ---------------------------------------------------------------- the channel object

  class Rng {
    constructor () {}

    /** Any number in the range, both ends included. */
    method Randint(lo: int, hi: int) returns (r: int)
      requires lo <= hi
      ensures lo <= r <= hi
    {
      r :| lo <= r <= hi;
    }
  }

  class FakeLoRaChannel {
    const profile: Profile
    const rng: Rng
    var pending: seq<Delivery>

    constructor (profile: Profile, rng: Rng)
      ensures this.profile == profile && this.rng == rng && pending == []
    {
      this.profile := profile;
      this.rng := rng;
      pending := [];
    }

    method Hit(percent: int) returns (hit: bool)
      ensures hit ==> MayHit(percent)
      ensures !hit ==> MayMiss(percent)
    {
      var r := rng.Randint(0, 99);
      hit := r < percent;
    }

    method CorruptFrame(f: LoraFrame) returns (g: LoraFrame, i: nat)
      requires f.raw != []
      ensures CorruptibleIndex(f.raw, i) && g == Corrupt(f, i)
    {
      var raw := f.raw;
      var lo, hi := HDR_BYTES, if |raw| - 2 > HDR_BYTES then |raw| - 2 else HDR_BYTES;
      if hi > lo {
        i := rng.Randint(lo, hi - 1);
      } else {
        i := 0;
      }
      raw := raw[i := Flip(raw[i])];
      g := f.(raw := raw, corrupted := true);
    }

    method Transmit(now: int, f: LoraFrame) returns (outcome: TxOutcome, ghost d: Draw)
      requires f.raw != []
      requires profile.delayMsMin <= profile.delayMsMax
      modifies this
      ensures ChannelStep(profile, old(pending), now, f, d, pending)
      ensures outcome == OutcomeOf(f, d)
    {
      hide Corrupt, CorruptibleIndex, Reordered;
      if f.ttl <= 0 {
        return LOST, DrawLost;
      }
      var busy := Hit(profile.channelBusyPercent);
      if busy {
        return BUSY, DrawBusy;
      }
      var lost := Hit(profile.packetLossPercent);
      if lost {
        return LOST, DrawLost;
      }
      var delay := rng.Randint(profile.delayMsMin, profile.delayMsMax);
      var corrupt := Hit(profile.corruptPercent);
      if corrupt {
        var g, i := CorruptFrame(f);
        IndexInside(f.raw, i);
        d := DrawCorrupt(i, delay);
        PutOnAir([Delivery(now + delay, g)]);
        return LOST, d;
      }
      var copies := [Delivery(now + delay, f)];
      var duplicate := Hit(profile.duplicatePercent);
      d := DrawClear(delay, duplicate);
      if duplicate {
        copies := copies + [Delivery(now + delay + 1, f)];
      }
      assert Added(now, f, d) == copies;
      PutOnAir(copies);
      return SENT, d;
    }

    method PutOnAir(copies: seq<Delivery>)
      modifies this
      ensures Reordered(profile, old(pending) + copies, pending)
    {
      pending := pending + copies;
      Reorder();
    }

    /** Sorts what is pending by random keys, or by due time. */
    method Reorder()
      modifies this
      ensures Reordered(profile, old(pending), pending)
    {
      var shuffle := Hit(profile.reorderPercent);
      if shuffle {
        pending := Shuffled(pending);
      } else {
        pending := SortByDue(pending);
      }
    }

    /** A sort by random keys can leave any order: one element after the other is drawn. */
    method Shuffled(ds: seq<Delivery>) returns (q: seq<Delivery>)
      ensures multiset(q) == multiset(ds)
    {
      q := [];
      var rest := ds;
      while rest != []
        invariant multiset(q) + multiset(rest) == multiset(ds)
        decreases |rest|
      {
        var i := rng.Randint(0, |rest| - 1);
        assert rest == rest[..i] + [rest[i]] + rest[i + 1..];
        q := q + [rest[i]];
        rest := rest[..i] + rest[i + 1..];
      }
    }

    method DrainReady(now: int) returns (ready: seq<LoraFrame>)
      modifies this
      ensures ready == Ready(old(pending), now) && pending == Waiting(old(pending), now)
    {
      ready := [];
      var kept := [];
      for i := 0 to |pending|
        invariant pending == old(pending)
        invariant ready + Ready(pending[i..], now) == Ready(pending, now)
        invariant kept + Waiting(pending[i..], now) == Waiting(pending, now)
      {
        assert pending[i..][1..] == pending[i + 1..];
        if pending[i].dueMs <= now {
          ready := ready + [pending[i].frame];
        } else {
          kept := kept + [pending[i]];
        }
      }
      pending := kept;
    }
  }
}
