/** Queued events and the order in which the heap keeps them. */
module Model {
  import opened Bits

  const SOS_RED := 1
  const NORMAL := 6

  /** The wire priorities; a smaller number is more severe. */
  predicate WirePriority(p: int) {
    SOS_RED <= p <= NORMAL
  }

  datatype QueuedEvent = QueuedEvent(
    createdMs: nat, createdCounter: nat, envelopeId: Bytes, eventType: nat,
    priority: nat, ttl: nat, authorKey: Bytes, compactPayload: Bytes)

  /** The dataclass comparison key, field by field: the sort key (priority, created_ms), then
      the declared fields in order. The hex id follows the id itself and never decides. */
  function Key(e: QueuedEvent): seq<seq<int>> {
    [ [e.priority, e.createdMs, e.createdMs, e.createdCounter], e.envelopeId,
      [e.eventType, e.priority, e.ttl], e.authorKey, e.compactPayload ]
  }

  /** Python's `<` on sequences of numbers: a proper prefix comes first. */
  predicate LexLess(a: seq<int>, b: seq<int>) {
    b != [] && (a == [] || a[0] < b[0] || (a[0] == b[0] && LexLess(a[1..], b[1..])))
  }

  predicate LexLess2(a: seq<seq<int>>, b: seq<seq<int>>) {
    b != [] && (a == [] || LexLess(a[0], b[0]) || (a[0] == b[0] && LexLess2(a[1..], b[1..])))
  }

  predicate Less(a: QueuedEvent, b: QueuedEvent) {
    LexLess2(Key(a), Key(b))
  }

  predicate Leq(a: QueuedEvent, b: QueuedEvent) {
    !Less(b, a)
  }

  lemma {:induction false} LexTrichotomy(a: seq<int>, b: seq<int>)
    ensures LexLess(a, b) || LexLess(b, a) || a == b
    ensures !(LexLess(a, b) && LexLess(b, a))
    ensures a == b ==> !LexLess(a, b)
  {
    if a != [] && b != [] {
      assert a == [a[0]] + a[1..] && b == [b[0]] + b[1..];
      LexTrichotomy(a[1..], b[1..]);
    }
  }

  lemma {:induction false} LexTransitive(a: seq<int>, b: seq<int>, c: seq<int>)
    requires LexLess(a, b) && LexLess(b, c)
    ensures LexLess(a, c)
  {
    if a != [] && a[0] == b[0] == c[0] {
      LexTransitive(a[1..], b[1..], c[1..]);
    }
  }

  lemma {:induction false} Lex2Trichotomy(a: seq<seq<int>>, b: seq<seq<int>>)
    ensures LexLess2(a, b) || LexLess2(b, a) || a == b
    ensures !(LexLess2(a, b) && LexLess2(b, a))
    ensures a == b ==> !LexLess2(a, b)
  {
    if a != [] && b != [] {
      assert a == [a[0]] + a[1..] && b == [b[0]] + b[1..];
      LexTrichotomy(a[0], b[0]);
      Lex2Trichotomy(a[1..], b[1..]);
    }
  }

  lemma {:induction false} Lex2Transitive(a: seq<seq<int>>, b: seq<seq<int>>, c: seq<seq<int>>)
    requires LexLess2(a, b) && LexLess2(b, c)
    ensures LexLess2(a, c)
  {
    if a != [] {
      if LexLess(a[0], b[0]) && LexLess(b[0], c[0]) {
        LexTransitive(a[0], b[0], c[0]);
      } else if a[0] == b[0] == c[0] {
        Lex2Transitive(a[1..], b[1..], c[1..]);
      }
    }
  }

  /** The comparison is a strict total order on events. */
  lemma LessTotal(a: QueuedEvent, b: QueuedEvent)
    ensures Less(a, b) || Less(b, a) || a == b
    ensures !(Less(a, b) && Less(b, a))
    ensures !Less(a, a)
  {
    Lex2Trichotomy(Key(a), Key(b));
    Lex2Trichotomy(Key(a), Key(a));
    if Key(a) == Key(b) {
      var k, k' := Key(a), Key(b);
      assert k[0] == k'[0] && k[0][0] == k'[0][0] && k[0][1] == k'[0][1] && k[0][3] == k'[0][3];
      assert k[1] == k'[1] && k[2] == k'[2] && k[2][0] == k'[2][0] && k[2][2] == k'[2][2];
      assert k[3] == k'[3] && k[4] == k'[4];
    }
  }

  lemma LeqTransitive(a: QueuedEvent, b: QueuedEvent, c: QueuedEvent)
    requires Leq(a, b) && Leq(b, c)
    ensures Leq(a, c)
  {
    LessTotal(a, b);
    LessTotal(b, c);
    LessTotal(a, c);
    if Less(a, b) && Less(b, c) {
      Lex2Transitive(Key(a), Key(b), Key(c));
    }
  }

  /** A smaller event is at least as severe, and the older one among equally severe events. */
  lemma LeqSeverity(a: QueuedEvent, b: QueuedEvent)
    requires Leq(a, b)
    ensures a.priority < b.priority || (a.priority == b.priority && a.createdMs <= b.createdMs)
  {
    LessTotal(a, b);
    if a != b {
      var u, u' := Key(a)[0], Key(b)[0];
      assert LexLess(u, u') || u == u';
      assert u[1..][0] == u[1] && u'[1..][0] == u'[1];
      assert LexLess(u, u') ==> u[0] < u'[0] || (u[0] == u'[0] && LexLess(u[1..], u'[1..]));
      assert LexLess(u[1..], u'[1..]) ==> u[1] <= u'[1];
      assert u == u' ==> u[0] == u'[0] && u[1] == u'[1];
    }
  }

  /** Two byte strings or number lists compare at the first place where they differ, or by length. */
  lemma {:induction false} LexIsFirstDifference(a: seq<int>, b: seq<int>, n: nat)
    requires n <= |a| && n <= |b| && a[..n] == b[..n]
    requires n < |a| && n < |b| ==> a[n] != b[n]
    ensures LexLess(a, b) <==> if n < |a| && n < |b| then a[n] < b[n] else |a| < |b|
    decreases n
  {
    if n > 0 {
      assert a[0] == a[..n][0] == b[..n][0] == b[0];
      assert a[1..][..n - 1] == a[..n][1..] && b[1..][..n - 1] == b[..n][1..];
      LexIsFirstDifference(a[1..], b[1..], n - 1);
    }
  }

  /** Priority, creation time, its counter, the envelope id, the type, the hops, the author and the payload:
      the first of these in which two events differ decides. */
  predicate Before(a: QueuedEvent, b: QueuedEvent) {
    if a.priority != b.priority then a.priority < b.priority
    else if a.createdMs != b.createdMs then a.createdMs < b.createdMs
    else if a.createdCounter != b.createdCounter then a.createdCounter < b.createdCounter
    else if a.envelopeId != b.envelopeId then LexLess(a.envelopeId, b.envelopeId)
    else if a.eventType != b.eventType then a.eventType < b.eventType
    else if a.ttl != b.ttl then a.ttl < b.ttl
    else if a.authorKey != b.authorKey then LexLess(a.authorKey, b.authorKey)
    else LexLess(a.compactPayload, b.compactPayload)
  }

  lemma LessIsBefore(a: QueuedEvent, b: QueuedEvent)
    ensures Less(a, b) <==> Before(a, b)
  {
    var k, k' := Key(a), Key(b);
    HeadDecides(a, b);
    LexTrichotomy(a.envelopeId, b.envelopeId);
    LexTrichotomy(a.authorKey, b.authorKey);
    if a.priority == b.priority {
      TypeAndHops(a, b);
    }
    assert k == [k[0], a.envelopeId, k[2], a.authorKey, a.compactPayload] && k' == [k'[0], b.envelopeId, k'[2], b.authorKey, b.compactPayload];
    hide Key, LexLess, LexLess2;
    FiveParts(k, k');
  }

  lemma FiveParts(k: seq<seq<int>>, k': seq<seq<int>>)
    requires |k| == |k'| == 5
    ensures LexLess2(k, k') <==>
      if k[0] != k'[0] then LexLess(k[0], k'[0])
      else if k[1] != k'[1] then LexLess(k[1], k'[1])
      else if k[2] != k'[2] then LexLess(k[2], k'[2])
      else if k[3] != k'[3] then LexLess(k[3], k'[3])
      else LexLess(k[4], k'[4])
  {
    hide LexLess;
    PartStep(k, k', 0);
    PartStep(k, k', 1);
    PartStep(k, k', 2);
    PartStep(k, k', 3);
    PartStep(k, k', 4);
    assert k[0..] == k && k'[0..] == k';
    assert k[5..] == [] && k'[5..] == [];
  }

  lemma PartStep(k: seq<seq<int>>, k': seq<seq<int>>, i: nat)
    requires i < |k| && |k| == |k'|
    ensures LexLess2(k[i..], k'[i..]) <==> if k[i] != k'[i] then LexLess(k[i], k'[i]) else LexLess2(k[i + 1..], k'[i + 1..])
  {
    LexTrichotomy(k[i], k'[i]);
    if k[i] == k'[i] {
      LexTrichotomy(k[i], k[i]);
    }
    assert k[i..][1..] == k[i + 1..] && k'[i..][1..] == k'[i + 1..];
  }

  lemma HeadDecides(a: QueuedEvent, b: QueuedEvent)
    ensures var u, v := Key(a)[0], Key(b)[0];
      && (u == v <==> a.priority == b.priority && a.createdMs == b.createdMs && a.createdCounter == b.createdCounter)
      && (LexLess(u, v)
          <==> a.priority < b.priority || (a.priority == b.priority && (a.createdMs < b.createdMs
               || (a.createdMs == b.createdMs && a.createdCounter < b.createdCounter))))
  {
    var u, v := Key(a)[0], Key(b)[0];
    assert u == v ==> u[0] == v[0] && u[1] == v[1] && u[3] == v[3];
    var n := if u[0] != v[0] then 0 else if u[1] != v[1] then 1 else if u[3] != v[3] then 3 else 4;
    LexIsFirstDifference(u, v, n);
  }

  lemma TypeAndHops(a: QueuedEvent, b: QueuedEvent)
    requires a.priority == b.priority
    ensures var u, v := Key(a)[2], Key(b)[2];
      && (u == v <==> a.eventType == b.eventType && a.ttl == b.ttl)
      && (LexLess(u, v) <==> a.eventType < b.eventType || (a.eventType == b.eventType && a.ttl < b.ttl))
  {
    var u, v := Key(a)[2], Key(b)[2];
    assert u == v ==> u[0] == v[0] && u[2] == v[2];
    LexIsFirstDifference(u, v, if u[0] != v[0] then 0 else if u[2] != v[2] then 2 else 3);
  }
}
