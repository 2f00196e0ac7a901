/** What a bounded queue keeps: over any run of ingests, the most severe of what was offered. */
module Admission {
  import opened Bits
  import opened ProtoWire
  import E = EnvelopeV3
  import opened Model
  import opened Heapq
  import opened Node
  import opened Pipeline
  import opened Theorems

  // ---------------------------------------------------------------- severities

  /** The priority numbers in a queue. */
  function Severities(q: Queue): multiset<nat> {
    if q == [] then multiset{} else multiset{q[0].priority} + Severities(q[1..])
  }

  lemma SeveritiesStep(q: Queue)
    requires q != []
    ensures Severities(q) == multiset{q[0].priority} + Severities(q[1..])
  {
  }

  lemma {:induction false} SeveritiesWithout(q: Queue, j: nat)
    requires j < |q|
    ensures Severities(q) == multiset{q[j].priority} + Severities(q[..j] + q[j + 1..])
    decreases q
  {
    var r := q[..j] + q[j + 1..];
    if j > 0 {
      SeveritiesWithout(q[1..], j - 1);
      assert r[0] == q[0] && r[1..] == q[1..][..j - 1] + q[1..][j..];
    } else {
      assert r == q[1..];
    }
  }

  lemma {:induction false} SeveritiesPermuted(q: Queue, q': Queue)
    requires multiset(q) == multiset(q')
    ensures Severities(q) == Severities(q')
    decreases q
  {
    if q == [] {
      assert |multiset(q')| == 0;
    } else {
      var j := FindFirst(q, q');
      SeveritiesPermuted(q[1..], q'[..j] + q'[j + 1..]);
      SeveritiesWithout(q', j);
    }
  }

  lemma {:induction false} SeveritiesMember(q: Queue, p: nat)
    ensures p in Severities(q) <==> exists e :: e in q && e.priority == p
    ensures |Severities(q)| == |q|
    decreases q
  {
    if q != [] {
      SeveritiesMember(q[1..], p);
      assert q == [q[0]] + q[1..];
    }
  }

  // ---------------------------------------------------------------- the most severe k

  /** `top` is the `k` smallest numbers of `all`, or all of them if there are fewer. */
  ghost predicate IsTopK(top: multiset<nat>, all: multiset<nat>, k: nat) {
    && top <= all
    && |top| == (if |all| < k then |all| else k)
    && forall x, y :: x in top && y in all - top ==> x <= y
  }

  /** There is only one such multiset. */
  lemma TopKUnique(s: multiset<nat>, t: multiset<nat>, all: multiset<nat>, k: nat)
    requires IsTopK(s, all, k) && IsTopK(t, all, k)
    ensures s == t
  {
    if s != t {
      var x := Excess(s, t);
      var y := Excess(t, s);
      LeftOutIsLarger(s, all, k, x, y);
      LeftOutIsLarger(t, all, k, y, x);
    }
  }

  lemma LeftOutIsLarger(top: multiset<nat>, all: multiset<nat>, k: nat, x: nat, y: nat)
    requires IsTopK(top, all, k) && x in top && all[y] > top[y]
    ensures x <= y
  {
    assert y in all - top;
  }

  lemma Excess(s: multiset<nat>, t: multiset<nat>) returns (x: nat)
    requires s != t && |s| == |t|
    ensures s[x] > t[x]
  {
    if s <= t {
      SameSize(s, t);
    }
    x :| s[x] > t[x];
  }

  lemma SameSize(s: multiset<nat>, t: multiset<nat>)
    requires s <= t && |s| == |t|
    ensures s == t
  {
    assert t == s + (t - s);
  }

  // ---------------------------------------------------------------- runs of ingests

  datatype Offer = Offer(now: int, data: Bytes, out: IngestResult)

  /** An ingest-only run of a fresh node. */
  ghost predicate IngestRun(cfg: NodeCfg, ns: seq<NodeState>, os: seq<Offer>) {
    && |ns| == |os| + 1 && ns[0] == NODE_ZERO
    && forall i :: 0 <= i < |os| ==> IngestStep(cfg, ns[i], os[i].now, os[i].data, ns[i + 1], os[i].out)
  }

  /** The typed payload decodes, for one of the three event types a node translates. */
  predicate Translatable(e: E.Envelope) {
    || (e.eventType == 1 && E.StatusOf(e.payload).Ok?)
    || (e.eventType == 3 && E.PresenceOf(e.payload).Ok?)
    || (e.eventType == 4 && E.CheckpointOf(e.payload).Ok?)
  }

  lemma TranslatableAlways(cfg: NodeCfg, anon: map<Bytes, Bytes>, now: int, e: E.Envelope)
    ensures Translate(cfg, anon, now, e).Ok? <==> Translatable(e)
  {
    hide E.PresenceOf, E.CheckpointOf, E.StatusOf;
  }

  /** The envelope of an offer that a node with room would store. */
  function Wanted(cfg: NodeCfg, o: Offer): Option<E.Envelope> {
    match Screen(cfg, o.now, o.data)
    case Verified(e) => if WirePriority(e.priority) && Translatable(e) then Some(e) else None
    case _ => None
  }

  /** An envelope that passes verification, is new, more severe than something in a full queue, and has
      a payload that does not translate: it costs an event its place and leaves nothing there. */
  ghost predicate CostsAPlace(cfg: NodeCfg, s: NodeState, o: Offer) {
    match Screen(cfg, o.now, o.data)
    case Verified(e) =>
      && e.envelopeId !in s.seenBle && WirePriority(e.priority)
      && |s.queue| >= cfg.maxQueueSize && (exists x :: x in s.queue && x.priority > e.priority)
      && !Translatable(e)
    case _ => false
  }

  /** Every wanted id once: with the envelope that was stored for it or, as long as none was, with the
      last one turned away. */
  datatype Ledger = Ledger(stored: seq<E.Envelope>, refused: seq<E.Envelope>)

  function WithoutId(r: seq<E.Envelope>, id: Bytes): seq<E.Envelope> {
    if r == [] then []
    else if r[0].envelopeId == id then WithoutId(r[1..], id)
    else [r[0]] + WithoutId(r[1..], id)
  }

  /** One more offer, given whether the node knew its id and whether it accepted. */
  function Entered(b: Ledger, w: Option<E.Envelope>, known: bool, accepted: bool): Ledger {
    if w.None? || known then b
    else
      var rest := WithoutId(b.refused, w.value.envelopeId);
      if accepted then Ledger(b.stored + [w.value], rest) else Ledger(b.stored, rest + [w.value])
  }

  predicate Seen(w: Option<E.Envelope>, s: NodeState) {
    w.Some? && w.value.envelopeId in s.seenBle
  }

  function Book(cfg: NodeCfg, ns: seq<NodeState>, os: seq<Offer>, n: nat): Ledger
    requires n <= |os| <= |ns|
  {
    if n == 0 then Ledger([], [])
    else
      var w := Wanted(cfg, os[n - 1]);
      Entered(Book(cfg, ns, os, n - 1), w, Seen(w, ns[n - 1]), IsAccepted(os[n - 1].out))
  }

  function Priorities(r: seq<E.Envelope>): multiset<nat> {
    if r == [] then multiset{} else multiset{r[0].priority} + Priorities(r[1..])
  }

  /** The priorities of all that was offered, each id counted once. */
  function Offered(b: Ledger): multiset<nat> {
    Priorities(b.stored) + Priorities(b.refused)
  }

  // ---------------------------------------------------------------- what the ledger says

  predicate Known(r: seq<E.Envelope>, id: Bytes) {
    exists i :: 0 <= i < |r| && r[i].envelopeId == id
  }

  ghost predicate Distinct(r: seq<E.Envelope>) {
    forall i, j :: 0 <= i < j < |r| ==> r[i].envelopeId != r[j].envelopeId
  }

  lemma {:induction false} WithoutIdMembers(r: seq<E.Envelope>, id: Bytes)
    requires Distinct(r)
    ensures var q := WithoutId(r, id);
      Distinct(q) && forall v :: v in q <==> v in r && v.envelopeId != id
    decreases r
  {
    if r != [] {
      assert r == [r[0]] + r[1..];
      assert forall v :: v in r[1..] ==> v.envelopeId != r[0].envelopeId;
      WithoutIdMembers(r[1..], id);
    }
  }

  /** The stored are exactly what the node has seen, under distinct ids, and none of the others is. */
  ghost predicate Kept(s: NodeState, b: Ledger) {
    && Distinct(b.stored) && Distinct(b.refused)
    && (forall id :: id in s.seenBle <==> Known(b.stored, id))
    && forall v :: v in b.refused ==> v.envelopeId !in s.seenBle
  }

  /** The ledger has each offered id once: its ids are distinct, every wanted offer's id is in it, and
      every entry is a wanted offer. */
  lemma {:induction false} LedgerIsOffers(cfg: NodeCfg, ns: seq<NodeState>, os: seq<Offer>, n: nat)
    requires IngestRun(cfg, ns, os) && n <= |os|
    ensures var b := Book(cfg, ns, os, n);
      && Distinct(b.stored + b.refused)
      && (forall i :: 0 <= i < n && Wanted(cfg, os[i]).Some? ==> Known(b.stored + b.refused, Wanted(cfg, os[i]).value.envelopeId))
      && (forall v :: v in b.stored + b.refused ==> exists i :: 0 <= i < n && Wanted(cfg, os[i]) == Some(v))
  {
    hide IngestStep, Wanted, Known;
    var b := Book(cfg, ns, os, n);
    BookKept(cfg, ns, os, n);
    KeptDistinct(ns[n], b);
    forall i | 0 <= i < n && Wanted(cfg, os[i]).Some? ensures Known(b.stored + b.refused, Wanted(cfg, os[i]).value.envelopeId) {
      BookHas(cfg, ns, os, n, i);
    }
    forall v | v in b.stored + b.refused ensures exists i :: 0 <= i < n && Wanted(cfg, os[i]) == Some(v) {
      BookFrom(cfg, ns, os, n, v);
    }
  }

  lemma KeptDistinct(s: NodeState, b: Ledger)
    requires Kept(s, b)
    ensures Distinct(b.stored + b.refused)
  {
    var all := b.stored + b.refused;
    forall i, j | 0 <= i < j < |all| ensures all[i].envelopeId != all[j].envelopeId {
      if i < |b.stored| <= j {
        assert Known(b.stored, all[i].envelopeId) && all[j] in b.refused;
      }
    }
  }

  lemma DecisionOn(cfg: NodeCfg, s: NodeState, o: Offer)
    ensures var d, w := Decide(cfg, s, o.now, o.data), Wanted(cfg, o);
      d.Store? ==> w.Some? && !Seen(w, s) && d.event.envelopeId == w.value.envelopeId && d.event.priority == w.value.priority
  {
    hide Screen, Translate, WorstIndex, Translatable;
    match Screen(cfg, o.now, o.data)
    case Verified(e) => TranslatableAlways(cfg, s.anonByAuthor, o.now, e);
    case _ =>
  }

  /** A step as the ledger sees it. */
  lemma SeenAfter(cfg: NodeCfg, s: NodeState, o: Offer, s': NodeState)
    requires IngestStep(cfg, s, o.now, o.data, s', o.out)
    ensures var w := Wanted(cfg, o);
      if IsAccepted(o.out) then w.Some? && !Seen(w, s) && s'.seenBle == s.seenBle + {w.value.envelopeId} else s'.seenBle == s.seenBle
  {
    var d := Decide(cfg, s, o.now, o.data);
    DecisionOn(cfg, s, o);
    AcceptedIffNews(cfg, s, o.now, o.data, s', o.out);
    hide Decide, Wanted, IsHeap;
    assert Ids([]) == {};
    assert d.Store? ==> Ids([d.event]) == {d.event.envelopeId};
    assert s.seenBle + {} == s.seenBle;
  }

  lemma EnteredKept(s: NodeState, b: Ledger, w: Option<E.Envelope>, accepted: bool, s': NodeState)
    requires Kept(s, b)
    requires if accepted then w.Some? && !Seen(w, s) && s'.seenBle == s.seenBle + {w.value.envelopeId} else s'.seenBle == s.seenBle
    ensures Kept(s', Entered(b, w, Seen(w, s), accepted))
  {
    if w.Some? && !Seen(w, s) {
      var id := w.value.envelopeId;
      WithoutIdMembers(b.refused, id);
      var r := if accepted then b.stored else WithoutId(b.refused, id);
      AppendDistinct(r, w.value);
      KnownAppended(b.stored, w.value);
      hide WithoutId;
    }
  }

  lemma AppendDistinct(r: seq<E.Envelope>, v: E.Envelope)
    requires Distinct(r)
    ensures !Known(r, v.envelopeId) ==> Distinct(r + [v])
    ensures (forall u :: u in r ==> u.envelopeId != v.envelopeId) ==> Distinct(r + [v])
  {
  }

  lemma KnownAppended(r: seq<E.Envelope>, v: E.Envelope)
    ensures forall id :: Known(r + [v], id) <==> Known(r, id) || id == v.envelopeId
  {
    forall id ensures Known(r + [v], id) <==> Known(r, id) || id == v.envelopeId {
      if Known(r, id) {
        var i :| 0 <= i < |r| && r[i].envelopeId == id;
        assert (r + [v])[i].envelopeId == id;
      }
      assert (r + [v])[|r|] == v;
    }
  }

  lemma {:induction false} BookKept(cfg: NodeCfg, ns: seq<NodeState>, os: seq<Offer>, n: nat)
    requires IngestRun(cfg, ns, os) && n <= |os|
    ensures Kept(ns[n], Book(cfg, ns, os, n))
    decreases n
  {
    hide IngestStep, Wanted, IsAccepted, Known, Entered;
    if n == 0 {
      NothingKept();
    } else {
      BookKept(cfg, ns, os, n - 1);
      assert IngestStep(cfg, ns[n - 1], os[n - 1].now, os[n - 1].data, ns[n], os[n - 1].out);
      SeenAfter(cfg, ns[n - 1], os[n - 1], ns[n]);
      EnteredKept(ns[n - 1], Book(cfg, ns, os, n - 1), Wanted(cfg, os[n - 1]), IsAccepted(os[n - 1].out), ns[n]);
    }
  }

  lemma NothingKept()
    ensures Kept(NODE_ZERO, Ledger([], []))
  {
  }

  lemma KnownIffMember(r: seq<E.Envelope>, id: Bytes)
    ensures Known(r, id) <==> exists v :: v in r && v.envelopeId == id
  {
    if Known(r, id) {
      var i :| 0 <= i < |r| && r[i].envelopeId == id;
      assert r[i] in r;
    }
  }

  /** What was in the ledger stays in it, and a wanted offer gets into it. */
  lemma EnteredHas(s: NodeState, b: Ledger, w: Option<E.Envelope>, accepted: bool, id: Bytes)
    requires Kept(s, b)
    ensures var b' := Entered(b, w, Seen(w, s), accepted);
      Known(b.stored + b.refused, id) || (w.Some? && w.value.envelopeId == id) ==> Known(b'.stored + b'.refused, id)
  {
    var b' := Entered(b, w, Seen(w, s), accepted);
    KnownIffMember(b.stored + b.refused, id);
    KnownIffMember(b'.stored + b'.refused, id);
    KnownIffMember(b.stored, id);
    if w.Some? && !Seen(w, s) {
      WithoutIdMembers(b.refused, w.value.envelopeId);
      if w.value.envelopeId == id {
        assert w.value in b'.stored + b'.refused;
      } else if Known(b.stored + b.refused, id) {
        var v :| v in b.stored + b.refused && v.envelopeId == id;
        assert v in b'.stored + b'.refused;
      }
    } else if w.Some? && w.value.envelopeId == id {
      var v :| v in b.stored && v.envelopeId == id;
      assert v in b.stored + b.refused;
    }
  }

  lemma {:induction false} BookHas(cfg: NodeCfg, ns: seq<NodeState>, os: seq<Offer>, n: nat, i: nat)
    requires IngestRun(cfg, ns, os) && i < n <= |os| && Wanted(cfg, os[i]).Some?
    ensures var b := Book(cfg, ns, os, n); Known(b.stored + b.refused, Wanted(cfg, os[i]).value.envelopeId)
    decreases n
  {
    hide IngestStep, Wanted, IsAccepted, Known, Entered;
    BookKept(cfg, ns, os, n - 1);
    if i < n - 1 {
      BookHas(cfg, ns, os, n - 1, i);
    }
    EnteredHas(ns[n - 1], Book(cfg, ns, os, n - 1), Wanted(cfg, os[n - 1]), IsAccepted(os[n - 1].out), Wanted(cfg, os[i]).value.envelopeId);
  }

  lemma {:induction false} WithoutIdSubset(r: seq<E.Envelope>, id: Bytes)
    ensures forall v :: v in WithoutId(r, id) ==> v in r
    ensures Priorities(WithoutId(r, id)) <= Priorities(r)
    decreases r
  {
    if r != [] {
      WithoutIdSubset(r[1..], id);
      assert r == [r[0]] + r[1..];
      var q := [r[0]] + WithoutId(r[1..], id);
      assert q[0] == r[0] && q[1..] == WithoutId(r[1..], id);
    }
  }

  lemma {:induction false} BookFrom(cfg: NodeCfg, ns: seq<NodeState>, os: seq<Offer>, n: nat, v: E.Envelope)
    requires n <= |os| <= |ns|
    requires var b := Book(cfg, ns, os, n); v in b.stored + b.refused
    ensures exists i :: 0 <= i < n && Wanted(cfg, os[i]) == Some(v)
    decreases n
  {
    hide Wanted, IsAccepted, WithoutId;
    if n > 0 {
      var b, w := Book(cfg, ns, os, n - 1), Wanted(cfg, os[n - 1]);
      if w.Some? {
        WithoutIdSubset(b.refused, w.value.envelopeId);
      }
      if w != Some(v) {
        assert v in b.stored + b.refused;
        BookFrom(cfg, ns, os, n - 1, v);
      }
    }
  }

  // ---------------------------------------------------------------- what a run keeps

  /** `out` holds the priorities of the stored events that were evicted again. */
  ghost predicate TopInv(cfg: NodeCfg, s: NodeState, b: Ledger, out: multiset<nat>) {
    && IsHeap(s.queue) && |s.queue| <= cfg.maxQueueSize
    && Severities(s.queue) + out == Priorities(b.stored)
    && Shut(cfg, s.queue, out + Priorities(b.refused))
  }

  /** What is not queued is no more severe than anything that is, and only a full queue shuts anything out. */
  ghost predicate Shut(cfg: NodeCfg, q: Queue, shut: multiset<nat>) {
    && (shut != multiset{} ==> |q| == cfg.maxQueueSize)
    && forall e, y :: e in q && y in shut ==> e.priority <= y
  }

  lemma {:induction false} PrioritiesAppended(r: seq<E.Envelope>, v: E.Envelope)
    ensures Priorities(r + [v]) == Priorities(r) + multiset{v.priority}
    decreases r
  {
    if r == [] {
      assert [v][1..] == [];
    } else {
      assert (r + [v])[1..] == r[1..] + [v];
      PrioritiesAppended(r[1..], v);
    }
  }

  /** A node that is not changed by a decision. */
  lemma NothingMoves(s: NodeState, d: Decision, s': NodeState, out: IngestResult)
    requires Carried(s, d, s', out) && IsHeap(s.queue)
    requires News(d) == [] && Gone(d) == []
    ensures multiset(s'.queue) == multiset(s.queue) && |s'.queue| == |s.queue| && IsHeap(s'.queue)
    ensures Severities(s'.queue) == Severities(s.queue) && forall e :: e in s'.queue <==> e in s.queue
  {
    hide IsHeap;
    assert multiset(s'.queue) + multiset(Gone(d)) == multiset(s'.queue);
    assert multiset(s.queue) + multiset(News(d)) == multiset(s.queue);
    assert |multiset(s'.queue)| == |multiset(s.queue)|;
    SeveritiesPermuted(s.queue, s'.queue);
    forall e ensures e in s'.queue <==> e in s.queue {
      assert e in s'.queue <==> e in multiset(s'.queue);
      assert e in s.queue <==> e in multiset(s.queue);
    }
  }

  lemma TopStays(cfg: NodeCfg, s: NodeState, d: Decision, s': NodeState, res: IngestResult, b: Ledger, out: multiset<nat>)
    requires TopInv(cfg, s, b, out) && Carried(s, d, s', res) && News(d) == [] && Gone(d) == []
    ensures TopInv(cfg, s', b, out)
  {
    NothingMoves(s, d, s', res);
    hide Carried, IsHeap, Severities;
  }

  /** The queue after an event was added to a queue with room. */
  lemma Added(s: NodeState, d: Decision, s': NodeState, res: IngestResult)
    requires Carried(s, d, s', res) && d.Store? && d.gone == []
    ensures Severities(s'.queue) == Severities(s.queue) + multiset{d.event.priority}
    ensures |s'.queue| == |s.queue| + 1 && IsHeap(s'.queue)
  {
    hide IsHeap;
    var q := [d.event] + s.queue;
    assert multiset(s'.queue) + multiset(Gone(d)) == multiset(q);
    assert multiset(s'.queue) == multiset(q);
    SeveritiesPermuted(q, s'.queue);
    assert q[0] == d.event && q[1..] == s.queue;
    assert |multiset(s'.queue)| == |multiset(q)|;
  }

  /** A wanted envelope stored in a queue with room. */
  lemma TopGains(cfg: NodeCfg, s: NodeState, d: Decision, s': NodeState, res: IngestResult, b: Ledger, out: multiset<nat>, v: E.Envelope)
    requires TopInv(cfg, s, b, out) && Carried(s, d, s', res)
    requires |s.queue| < cfg.maxQueueSize && d.Store? && d.gone == [] && d.event.priority == v.priority
    ensures TopInv(cfg, s', Ledger(b.stored + [v], WithoutId(b.refused, v.envelopeId)), out)
  {
    Added(s, d, s', res);
    hide Carried, IsHeap, Severities, Priorities;
    PrioritiesAppended(b.stored, v);
    WithoutIdSubset(b.refused, v.envelopeId);
    assert out + Priorities(b.refused) == multiset{};
    assert Priorities(b.refused) == multiset{} && Priorities(WithoutId(b.refused, v.envelopeId)) == multiset{};
    Swapped(Severities(s.queue), out, multiset{v.priority});
  }

  lemma Swapped<T>(a: multiset<T>, b: multiset<T>, c: multiset<T>)
    ensures (a + c) + b == (a + b) + c
  {
  }

  /** The queue after the least severe event made way. */
  lemma Replaced(s: NodeState, d: Decision, s': NodeState, out: IngestResult)
    requires Carried(s, d, s', out) && s.queue != []
    requires d.Store? && d.gone == [s.queue[WorstIndex(s.queue)]]
    ensures var worst := s.queue[WorstIndex(s.queue)];
      && Severities(s'.queue) + multiset{worst.priority} == Severities(s.queue) + multiset{d.event.priority}
      && |s'.queue| == |s.queue|
      && (forall e | e in s'.queue :: e == d.event || e in s.queue)
      && (forall e | e in s.queue :: e.priority <= worst.priority) && worst in s.queue
  {
    hide IsHeap, WorstIndex, Severities;
    var worst := s.queue[WorstIndex(s.queue)];
    assert multiset(Gone(d)) == multiset{worst} && multiset(News(d)) == multiset{d.event};
    ReplacedSeverities(s.queue, s'.queue, worst, d.event);
    assert |multiset(s'.queue) + multiset{worst}| == |multiset(s.queue) + multiset{d.event}|;
    forall e | e in s'.queue ensures e == d.event || e in s.queue {
      assert e in multiset(s'.queue) + multiset{worst};
    }
  }

  lemma ReplacedSeverities(before: Queue, after: Queue, worst: QueuedEvent, event: QueuedEvent)
    requires multiset(after) + multiset{worst} == multiset(before) + multiset{event}
    ensures Severities(after) + multiset{worst.priority} == Severities(before) + multiset{event.priority}
  {
    var q, l, n := [event] + before, after + [worst], |after|;
    assert multiset(l) == multiset(after) + multiset{worst} == multiset(q);
    SeveritiesPermuted(l, q);
    SeveritiesWithout(l, n);
    assert l[n] == worst && l[..n] + l[n + 1..] == after;
    assert q[0] == event && q[1..] == before;
    SeveritiesStep(q);
    hide Severities;
    assert Severities(after) + multiset{worst.priority} == Severities(l);
    assert Severities(before) + multiset{event.priority} == Severities(q);
  }

  /** A wanted envelope that displaces the least severe queued event. */
  lemma TopReplaces(cfg: NodeCfg, s: NodeState, d: Decision, s': NodeState, res: IngestResult, b: Ledger, out: multiset<nat>, v: E.Envelope)
    requires TopInv(cfg, s, b, out) && Carried(s, d, s', res)
    requires |s.queue| == cfg.maxQueueSize && s.queue != []
    requires d.Store? && d.gone == [s.queue[WorstIndex(s.queue)]] && d.gone[0].priority > v.priority && d.event.priority == v.priority
    ensures TopInv(cfg, s', Ledger(b.stored + [v], WithoutId(b.refused, v.envelopeId)), out + multiset{d.gone[0].priority})
  {
    Replaced(s, d, s', res);
    assert IsHeap(s'.queue);
    var worst := d.gone[0];
    PrioritiesAppended(b.stored, v);
    WithoutIdSubset(b.refused, v.envelopeId);
    hide Carried, IsHeap, Severities, WorstIndex, Priorities, WithoutId;
    Reassociate(Severities(s'.queue), out, multiset{worst.priority}, Severities(s.queue), multiset{v.priority});
    ShutReplaced(cfg, s.queue, s'.queue, worst, d.event, out + Priorities(b.refused), out + multiset{worst.priority} + Priorities(WithoutId(b.refused, v.envelopeId)));
  }

  lemma ShutReplaced(cfg: NodeCfg, q: Queue, q': Queue, worst: QueuedEvent, event: QueuedEvent, shut: multiset<nat>, shut': multiset<nat>)
    requires Shut(cfg, q, shut) && |q'| == |q| == cfg.maxQueueSize
    requires worst in q && (forall e | e in q :: e.priority <= worst.priority) && event.priority < worst.priority
    requires forall e | e in q' :: e == event || e in q
    requires shut' <= shut + multiset{worst.priority}
    ensures Shut(cfg, q', shut')
  {
    forall e, y | e in q' && y in shut' ensures e.priority <= y {
      assert y in shut + multiset{worst.priority};
      assert y in shut ==> worst.priority <= y;
    }
  }

  lemma Reassociate<T>(q': multiset<T>, out: multiset<T>, p: multiset<T>, q: multiset<T>, v: multiset<T>)
    requires q' + p == q + v
    ensures q' + (out + p) == q + out + v
  {
    assert q' + (out + p) == (q' + p) + out;
  }

  /** A wanted envelope turned away by a full queue. */
  lemma TopRefuses(cfg: NodeCfg, s: NodeState, d: Decision, s': NodeState, res: IngestResult, b: Ledger, out: multiset<nat>, v: E.Envelope)
    requires TopInv(cfg, s, b, out) && Carried(s, d, s', res) && News(d) == [] && Gone(d) == []
    requires |s.queue| == cfg.maxQueueSize
    requires s.queue != [] ==> s.queue[WorstIndex(s.queue)].priority <= v.priority
    ensures TopInv(cfg, s', Ledger(b.stored, WithoutId(b.refused, v.envelopeId) + [v]), out)
  {
    TopStays(cfg, s, d, s', res, b, out);
    NothingMoves(s, d, s', res);
    var rest := WithoutId(b.refused, v.envelopeId);
    PrioritiesAppended(rest, v);
    WithoutIdSubset(b.refused, v.envelopeId);
    hide Carried, IsHeap, Severities, Priorities, WithoutId;
    forall e, y | e in s'.queue && y in out + Priorities(rest + [v]) ensures e.priority <= y {
      assert y in out + Priorities(b.refused) || y == v.priority;
    }
  }

  /** The entry of an offer in the ledger. */
  function After(cfg: NodeCfg, s: NodeState, o: Offer, b: Ledger): Ledger {
    Entered(b, Wanted(cfg, o), Seen(Wanted(cfg, o), s), IsAccepted(o.out))
  }

  /** One ingest keeps the invariant unless it costs a place. */
  lemma TopStep(cfg: NodeCfg, s: NodeState, o: Offer, s': NodeState, b: Ledger, out: multiset<nat>) returns (out': multiset<nat>)
    requires TopInv(cfg, s, b, out) && IngestStep(cfg, s, o.now, o.data, s', o.out) && !CostsAPlace(cfg, s, o)
    ensures TopInv(cfg, s', After(cfg, s, o, b), out')
  {
    var d := Decide(cfg, s, o.now, o.data);
    AcceptedIffNews(cfg, s, o.now, o.data, s', o.out);
    out' := out;
    match Screen(cfg, o.now, o.data) {
      case Verified(e) =>
        assert d == Admit(cfg, s, o.now, e);
        assert Wanted(cfg, o) == if WirePriority(e.priority) && Translatable(e) then Some(e) else None;
        NoPlaceCost(cfg, s, o, e);
        hide Screen, Decide, Wanted, IngestStep, Carried, CostsAPlace, Translatable, TopInv, IsAccepted;
        out' := TopAdmit(cfg, s, o.now, e, s', o.out, b, out);
      case _ =>
        hide Screen, TopInv, Carried;
        TopStays(cfg, s, d, s', o.out, b, out);
    }
  }

  lemma NoPlaceCost(cfg: NodeCfg, s: NodeState, o: Offer, e: E.Envelope)
    requires Screen(cfg, o.now, o.data) == Verified(e) && !CostsAPlace(cfg, s, o)
    ensures var d := Admit(cfg, s, o.now, e); !(d.TripAfterEviction? && d.gone != [])
  {
    hide Screen, Translate, Translatable;
    TranslatableAlways(cfg, s.anonByAuthor, o.now, e);
  }

  lemma TopAdmit(cfg: NodeCfg, s: NodeState, now: int, e: E.Envelope, s': NodeState, res: IngestResult, b: Ledger, out: multiset<nat>)
    returns (out': multiset<nat>)
    requires TopInv(cfg, s, b, out)
    requires Carried(s, Admit(cfg, s, now, e), s', res) && (IsAccepted(res) <==> News(Admit(cfg, s, now, e)) != [])
    requires var d := Admit(cfg, s, now, e); !(d.TripAfterEviction? && d.gone != [])
    ensures var w := if WirePriority(e.priority) && Translatable(e) then Some(e) else None;
      TopInv(cfg, s', Entered(b, w, Seen(w, s), IsAccepted(res)), out')
  {
    var d := Admit(cfg, s, now, e);
    TranslatableAlways(cfg, s.anonByAuthor, now, e);
    hide Translate, Translatable, Carried, IsHeap, IsAccepted, WithoutId;
    out' := out;
    if e.envelopeId in s.seenBle || !WirePriority(e.priority) || !Translatable(e) {
      hide TopInv;
      TopStays(cfg, s, d, s', res, b, out);
    } else if |s.queue| < cfg.maxQueueSize {
      hide TopInv;
      TopGains(cfg, s, d, s', res, b, out, e);
    } else if s.queue != [] && s.queue[WorstIndex(s.queue)].priority > e.priority {
      out' := out + multiset{s.queue[WorstIndex(s.queue)].priority};
      TopReplaces(cfg, s, d, s', res, b, out, e);
    } else {
      TopRefuses(cfg, s, d, s', res, b, out, e);
    }
  }

  lemma {:induction false} TopRun(cfg: NodeCfg, ns: seq<NodeState>, os: seq<Offer>, n: nat) returns (out: multiset<nat>)
    requires IngestRun(cfg, ns, os) && n <= |os|
    requires forall i :: 0 <= i < n ==> !CostsAPlace(cfg, ns[i], os[i])
    ensures TopInv(cfg, ns[n], Book(cfg, ns, os, n), out)
    decreases n
  {
    out := multiset{};
    if n > 0 {
      hide IngestStep, CostsAPlace, Wanted, IsHeap, TopInv, Entered, IsAccepted;
      out := TopRun(cfg, ns, os, n - 1);
      assert IngestStep(cfg, ns[n - 1], os[n - 1].now, os[n - 1].data, ns[n], os[n - 1].out);
      out := TopStep(cfg, ns[n - 1], os[n - 1], ns[n], Book(cfg, ns, os, n - 1), out);
    }
  }

  lemma TopInvMeansTopK(cfg: NodeCfg, s: NodeState, b: Ledger, out: multiset<nat>)
    requires TopInv(cfg, s, b, out)
    ensures IsTopK(Severities(s.queue), Offered(b), cfg.maxQueueSize)
    ensures |s.queue| <= cfg.maxQueueSize && |Offered(b)| >= |s.queue|
  {
    hide IsHeap, Severities, Priorities, IsTopK;
    var top, shut := Severities(s.queue), out + Priorities(b.refused);
    SeveritiesMember(s.queue, 0);
    forall x, y | x in top && y in shut ensures x <= y {
      SeveritiesMember(s.queue, x);
    }
    assert Offered(b) == top + shut;
    LowestAreTopK(top, shut, cfg.maxQueueSize);
  }

  lemma LowestAreTopK(top: multiset<nat>, shut: multiset<nat>, k: nat)
    requires |top| <= k && (shut != multiset{} ==> |top| == k)
    requires forall x, y :: x in top && y in shut ==> x <= y
    ensures IsTopK(top, top + shut, k)
  {
    assert top + shut - top == shut;
    assert |top + shut| == |top| + |shut|;
  }

  /** A step that costs a place raises, enters nothing in the ledger, and leaves the queue one short. */
  lemma CostStep(cfg: NodeCfg, s: NodeState, o: Offer, s': NodeState)
    requires IngestStep(cfg, s, o.now, o.data, s', o.out) && CostsAPlace(cfg, s, o)
    ensures o.out == Raised && Wanted(cfg, o) == None
    ensures s.queue != [] && |s'.queue| == |s.queue| - 1 && s'.dropped == s.dropped + [s.queue[WorstIndex(s.queue)]]
  {
    CostDecision(cfg, s, o);
    hide Decide, IsHeap, CostsAPlace, Wanted, WorstIndex;
    var worst := s.queue[WorstIndex(s.queue)];
    assert |multiset(s'.queue) + multiset([worst])| == |multiset(s.queue) + multiset([])|;
  }

  lemma CostDecision(cfg: NodeCfg, s: NodeState, o: Offer)
    requires CostsAPlace(cfg, s, o)
    ensures s.queue != [] && Decide(cfg, s, o.now, o.data) == TripAfterEviction([s.queue[WorstIndex(s.queue)]])
    ensures Wanted(cfg, o) == None
  {
    hide Screen, Translate, Translatable;
    var e := Screen(cfg, o.now, o.data).env;
    TranslatableAlways(cfg, s.anonByAuthor, o.now, e);
  }

  /** At that point of the run the queue holds exactly the most severe of what was offered, as many as fit. */
  ghost predicate MostSevereAt(cfg: NodeCfg, ns: seq<NodeState>, os: seq<Offer>, n: nat)
    requires n <= |os| < |ns|
  {
    IsTopK(Severities(ns[n].queue), Offered(Book(cfg, ns, os, n)), cfg.maxQueueSize)
  }

  /** When a bounded queue keeps the most severe, exactly: in any ingest-only run it does so all the way
      if and only if no offer costs a place. */
  lemma QueueKeepsMostSevere(cfg: NodeCfg, ns: seq<NodeState>, os: seq<Offer>)
    requires IngestRun(cfg, ns, os)
    ensures (forall n :: 0 <= n <= |os| ==> MostSevereAt(cfg, ns, os, n))
       <==> (forall i :: 0 <= i < |os| ==> !CostsAPlace(cfg, ns[i], os[i]))
  {
    hide IngestStep, CostsAPlace, MostSevereAt;
    var i := FirstCost(cfg, ns, os, |os|);
    if i < |os| {
      KeepsUpTo(cfg, ns, os, i);
      BreaksAt(cfg, ns, os, i);
    } else {
      forall n | 0 <= n <= |os| ensures MostSevereAt(cfg, ns, os, n) {
        KeepsUpTo(cfg, ns, os, n);
      }
    }
  }

  /** The first offer among `n` that costs a place, or `n`. */
  lemma {:induction false} FirstCost(cfg: NodeCfg, ns: seq<NodeState>, os: seq<Offer>, n: nat) returns (i: nat)
    requires IngestRun(cfg, ns, os) && n <= |os|
    ensures i <= n && (i < n ==> CostsAPlace(cfg, ns[i], os[i]))
    ensures forall k :: 0 <= k < i ==> !CostsAPlace(cfg, ns[k], os[k])
    decreases n
  {
    hide IngestStep, CostsAPlace;
    i := n;
    if n > 0 {
      i := FirstCost(cfg, ns, os, n - 1);
      if i == n - 1 && !CostsAPlace(cfg, ns[i], os[i]) {
        i := n;
      }
    }
  }

  lemma KeepsUpTo(cfg: NodeCfg, ns: seq<NodeState>, os: seq<Offer>, n: nat)
    requires IngestRun(cfg, ns, os) && n <= |os|
    requires forall i :: 0 <= i < n ==> !CostsAPlace(cfg, ns[i], os[i])
    ensures MostSevereAt(cfg, ns, os, n)
    ensures |ns[n].queue| <= cfg.maxQueueSize && |Offered(Book(cfg, ns, os, n))| >= |ns[n].queue|
  {
    hide IngestStep, CostsAPlace, TopInv;
    var out := TopRun(cfg, ns, os, n);
    TopInvMeansTopK(cfg, ns[n], Book(cfg, ns, os, n), out);
  }

  lemma BreaksAt(cfg: NodeCfg, ns: seq<NodeState>, os: seq<Offer>, i: nat)
    requires IngestRun(cfg, ns, os) && i < |os| && CostsAPlace(cfg, ns[i], os[i])
    requires forall k :: 0 <= k < i ==> !CostsAPlace(cfg, ns[k], os[k])
    ensures !MostSevereAt(cfg, ns, os, i + 1)
  {
    KeepsUpTo(cfg, ns, os, i);
    assert IngestStep(cfg, ns[i], os[i].now, os[i].data, ns[i + 1], os[i].out);
    CostStep(cfg, ns[i], os[i], ns[i + 1]);
    SeveritiesMember(ns[i + 1].queue, 0);
    hide IngestStep, Wanted, Entered, CostsAPlace;
    assert Book(cfg, ns, os, i + 1) == Book(cfg, ns, os, i) by {
      UnwantedEntersNothing(Book(cfg, ns, os, i), Seen(None, ns[i]), IsAccepted(os[i].out));
    }
  }

  lemma UnwantedEntersNothing(b: Ledger, known: bool, accepted: bool)
    ensures Entered(b, None, known, accepted) == b
  {
  }

  // ---------------------------------------------------------------- SOS_RED over whole runs

  /** SOS_RED is never evicted: in any run, a dropped SOS_RED event has been lost on the air six times. */
  lemma {:induction false} SosRedOnlyGivenUp(cfg: Cfg, ss: seq<Sys>, ls: seq<Label>, n: nat, e: QueuedEvent)
    requires SameField(cfg) && Run(cfg, ss, ls) && n < |ss|
    requires e in ss[n].node.dropped && e.priority == SOS_RED
    ensures LostAttempts(ls, n, e.envelopeId) == 6
    decreases n
  {
    hide Next, Inv;
    if n > 0 {
      var s, l, s' := ss[n - 1], ls[n - 1], ss[n];
      assert Next(cfg, s, l, s');
      if e in s.node.dropped {
        SosRedOnlyGivenUp(cfg, ss, ls, n - 1, e);
        RunInv(cfg, ss, ls, n);
        DroppedIsAccepted(cfg, s', e);
        BoundedLosses(cfg, ss, ls, n, e);
      } else {
        RunInv(cfg, ss, ls, n - 1);
        NewlyDropped(cfg, s, l, s', e);
        GivenUpAfterBudget(cfg, ss, ls, n - 1);
      }
    }
  }

  lemma DroppedIsAccepted(cfg: Cfg, s: Sys, e: QueuedEvent)
    requires Inv(cfg, s) && e in s.node.dropped
    ensures e in s.h.accepted
  {
    hide IsHeap;
    Members(cfg, s, e);
  }

  lemma NewlyDropped(cfg: Cfg, s: Sys, l: Label, s': Sys, e: QueuedEvent)
    requires Inv(cfg, s) && Next(cfg, s, l, s')
    requires e in s'.node.dropped && e !in s.node.dropped && e.priority == SOS_RED
    ensures l.Transmit? && l.attempt == Exhausted(e)
  {
    match l
    case Ingest(now, data, out) =>
      IngestMoves(cfg, s, l, s');
      EvictedIsLess(cfg.a, s.node, now, data);
      hide Next, Decide;
    case Transmit(_, _) =>
      HeapOf(cfg, s);
      AttemptMoves(cfg, s, l, s');
      hide Next, Inv, IsHeap;
    case Drain(_) =>
      NodeUntouched(cfg, s, l, s');
    case RebootSender =>
      hide Inv;
    case RebootReceiver =>
      hide Inv;
  }

  lemma HeapOf(cfg: Cfg, s: Sys)
    requires Inv(cfg, s)
    ensures IsHeap(s.node.queue)
  {
  }

  lemma EvictedIsLess(cfg: NodeCfg, s: NodeState, now: int, data: Bytes)
    ensures forall e | e in Gone(Decide(cfg, s, now, data)) :: e.priority > SOS_RED
  {
    hide Screen, Translate;
  }

  /** And a verified SOS_RED envelope new to the node is turned away, in any run, only by a full queue of
      nothing but SOS_RED. */
  lemma SosRedTurnedAway(cfg: Cfg, ss: seq<Sys>, ls: seq<Label>, i: nat, v: E.Envelope)
    requires SameField(cfg) && Run(cfg, ss, ls) && i < |ls| && ls[i].Ingest?
    requires Screen(cfg.a, ls[i].now, ls[i].data) == Verified(v)
    requires v.priority == SOS_RED && v.envelopeId !in ss[i].node.seenBle
    requires ls[i].out.Receipted? && ls[i].out.receipt.status != ReceiptAccepted
    ensures var q := ss[i].node.queue;
      |q| == cfg.a.maxQueueSize && q != [] && forall e | e in q :: e.priority == SOS_RED
  {
    hide Screen, Translate;
    var s := ss[i];
    assert Next(cfg, s, ls[i], ss[i + 1]);
    AcceptedIffNews(cfg.a, s.node, ls[i].now, ls[i].data, ss[i + 1].node, ls[i].out);
    RunInv(cfg, ss, ls, i);
    hide Next;
    forall e | e in s.node.queue ensures e.priority >= SOS_RED {
      Members(cfg, s, e);
    }
  }

  // ---------------------------------------------------------------- when an ingest raises

  /** Bytes on which every node raises before it has looked at the signature. */
  predicate Unpackable(data: Bytes) {
    match E.EnvelopeOf(data)
    case Ok(e) => e.protocolVersion == E.PROTOCOL_VERSION_V3 && e.sigAlgo == E.SIG_ALGO_ED25519 && E.Overwide(e)
    case Malformed => false
  }

  /** When an ingest raises during verification, exactly. */
  lemma ScreenTripsIff(cfg: NodeCfg, now: int, data: Bytes)
    ensures Screen(cfg, now, data) == Trips <==> Unpackable(data)
  {
    if E.EnvelopeOf(data).Ok? {
      E.PackingRaisesIff(cfg.crypto, data);
    }
    hide E.EnvelopeOf, E.Canonical, E.Overwide;
  }

  /** A verified, new envelope on which the node raises: of no wire priority, for a node that can hold
      nothing, or due a place and not translatable. */
  ghost predicate Unstorable(cfg: NodeCfg, s: NodeState, e: E.Envelope) {
    && e.envelopeId !in s.seenBle
    && (|| !WirePriority(e.priority)
        || (|s.queue| >= cfg.maxQueueSize && s.queue == [])
        || ((|s.queue| < cfg.maxQueueSize || exists x :: x in s.queue && x.priority > e.priority) && !Translatable(e)))
  }

  /** The whole account: an ingest ends in an exception if and only if its bytes cannot be packed, or they
      are verified and cannot be stored. */
  lemma IngestRaisesIff(cfg: NodeCfg, s: NodeState, now: int, data: Bytes, s': NodeState, out: IngestResult)
    requires IngestStep(cfg, s, now, data, s', out)
    ensures out == Raised
       <==> Unpackable(data) || (Screen(cfg, now, data).Verified? && Unstorable(cfg, s, Screen(cfg, now, data).env))
  {
    ScreenTripsIff(cfg, now, data);
    hide Unpackable;
    if Screen(cfg, now, data).Verified? {
      AdmitRaisesIff(cfg, s, now, Screen(cfg, now, data).env);
    }
    hide Screen, Admit, Unstorable, IsHeap;
  }

  lemma AdmitRaisesIff(cfg: NodeCfg, s: NodeState, now: int, e: E.Envelope)
    ensures var d := Admit(cfg, s, now, e);
      d.Trip? || d.TripAfterEviction? <==> Unstorable(cfg, s, e)
  {
    hide Translate, Translatable;
    TranslatableAlways(cfg, s.anonByAuthor, now, e);
  }

  /** Among the envelopes the writer can write, those of version 3 with a number over 32 bits outside the
      clocks; no signature is needed. */
  lemma WrittenTripsIff(cfg: NodeCfg, now: int, e: E.Envelope)
    requires E.EnvelopeFits(e) && E.Required(e)
    ensures Screen(cfg, now, E.EnvelopeBytes(e)) == Trips
       <==> e.protocolVersion == E.PROTOCOL_VERSION_V3 && e.sigAlgo == E.SIG_ALGO_ED25519
            && (e.eventType >= U32 || e.priority >= U32 || e.maxHops >= U32
                || e.createdAt.counter >= U32 || e.expiresAt.counter >= U32)
  {
    E.EnvelopeRoundTrip(e);
    hide E.EnvelopeOf, E.EnvelopeBytes, Screen;
    ScreenTripsIff(cfg, now, E.EnvelopeBytes(e));
  }

  /** And any version 3 envelope followed by a second creation time of 70 bits. */
  lemma WideClockTrips(cfg: NodeCfg, now: int, e: E.Envelope)
    requires E.EnvelopeFits(e) && E.Required(e)
    requires e.protocolVersion == E.PROTOCOL_VERSION_V3 && e.sigAlgo == E.SIG_ALGO_ED25519
    ensures Screen(cfg, now, E.WideEnvelopeBytes(e)) == Trips
  {
    E.WideEnvelopeDecodes(e);
    hide E.EnvelopeOf, E.WideEnvelopeBytes, E.EnvelopeFits, E.Required, Screen;
    ScreenTripsIff(cfg, now, E.WideEnvelopeBytes(e));
  }
}
