/** The proto3 wire format in literal numbers: varints bit group by bit group, tags by wire type, and
    which field number of which message carries what. */
module ProtoLayout {
  import opened Bits
  import opened Keys
  import opened ProtoWire
  import opened EnvelopeV3

  // ---------------------------------------------------------------- varints

  /** A written varint: groups of seven bits, the lowest first, all but the last marked; no longer than
      needed. */
  lemma {:induction false} VarintShape(v: nat, i: nat)
    ensures var s := Varint(v); var n := |s|;
      && (i + 1 < n ==> Pow(128, i) > 0 && s[i] == v / Pow(128, i) % 128 + 128)
      && (i + 1 == n ==> Pow(128, i) > 0 && s[i] == v / Pow(128, i))
      && s[n - 1] < 128 && (n > 1 ==> s[n - 1] > 0)
    decreases v
  {
    PowPositive(128, i);
    if v > 127 {
      VarintShape(v / 128, if i > 0 then i - 1 else 0);
      if i > 0 {
        PowPositive(128, i - 1);
        DivTwice(v, 128, Pow(128, i - 1));
      }
    }
  }

  /** The first `n` bytes of `s` as groups of seven bits. */
  function Groups(s: Bytes, n: nat): nat
    requires n <= |s|
  {
    if n == 0 then 0 else s[0] % 128 + 128 * Groups(s[1..], n - 1)
  }

  /** The first unmarked byte of `s` is at `n`. */
  ghost predicate EndsAt(s: Bytes, n: nat) {
    n < |s| && s[n] < 128 && forall i :: 0 <= i < n ==> s[i] >= 128
  }

  /** What is read, padded or not: everything up to the first unmarked byte, if that is among the first ten. */
  lemma {:induction false} ReadMeans(s: Bytes, k: nat, n: nat)
    requires k <= 9 && EndsAt(s, n)
    ensures ReadVarint(s, k) == if n <= 9 - k then Ok((Groups(s, n + 1), s[n + 1..])) else Malformed
    decreases s
  {
    if n > 0 {
      assert s[0] >= 128;
      if k < 9 {
        assert EndsAt(s[1..], n - 1) by {
          assert s[1..][n - 1] == s[n];
          assert forall i :: 0 <= i < n - 1 ==> s[1..][i] == s[i + 1];
        }
        ReadMeans(s[1..], k + 1, n - 1);
      }
    } else {
      assert Groups(s[1..], 0) == 0;
    }
  }

  /** And without an unmarked byte nothing is read. */
  lemma {:induction false} UnendedFails(s: Bytes, k: nat)
    requires forall i :: 0 <= i < |s| ==> s[i] >= 128
    ensures ReadVarint(s, k) == Malformed
    decreases s
  {
    if s != [] {
      assert forall i :: 0 <= i < |s[1..]| ==> s[1..][i] == s[i + 1];
      UnendedFails(s[1..], k + 1);
    }
  }

  // ---------------------------------------------------------------- tags

  /** A known number is read as what it is known for, whatever wire type its tag claims. */
  lemma WireTypeIgnored(m: Schema, n: nat, wire: nat, v: nat, data: Bytes, rest: Bytes)
    requires n * 8 + 8 <= U64 && wire < 8 && v < U64 && |data| < U64
    ensures n in m.varints ==> NextField(m, Varint(8 * n + wire) + (Varint(v) + rest)) == Ok(([Num(n, v)], rest))
    ensures n in m.lens && n !in m.varints ==>
      NextField(m, Varint(8 * n + wire) + (Varint(|data|) + (data + rest))) == Ok(([Blob(n, data)], rest))
  {
    hide ReadVarint, Varint;
    TagParts(n, wire);
    ReadWritten64(n * 8 + wire, Varint(v) + rest);
    ReadWritten64(v, rest);
    ReadWritten64(n * 8 + wire, Varint(|data|) + (data + rest));
    LenWritten(data, rest);
  }

  /** How a value of an unknown field is skipped: a varint for 0, length and bytes for 2, eight bytes for 1
      and four for 5, past the end if need be; the other wire types fail. */
  lemma SkipTable(s: Bytes, w: nat)
    ensures w == 0 ==> Skip(s, w) == (match ReadVarint(s) case Ok((_, rest)) => Ok(rest) case Malformed => Malformed)
    ensures w == 2 ==> Skip(s, w) == (match ReadVarint(s)
                                      case Ok((n, rest)) => if n <= |rest| then Ok(rest[n..]) else Malformed
                                      case Malformed => Malformed)
    ensures w == 1 ==> Skip(s, w) == Ok(if |s| < 8 then [] else s[8..])
    ensures w == 5 ==> Skip(s, w) == Ok(if |s| < 4 then [] else s[4..])
    ensures w == 3 || w == 4 || w >= 6 ==> Skip(s, w) == Malformed
  {
    hide ReadVarint;
  }

  // ---------------------------------------------------------------- field numbers

  /** The last number under `n`. */
  function NumUnder(fs: seq<Field>, n: nat): Option<nat> {
    if fs == [] then None
    else
      var later := NumUnder(fs[1..], n);
      if later.None? && fs[0].Num? && fs[0].number == n then Some(fs[0].value) else later
  }

  /** The last bytes under `n`. */
  function BlobUnder(fs: seq<Field>, n: nat): Option<Bytes> {
    if fs == [] then None
    else
      var later := BlobUnder(fs[1..], n);
      if later.None? && fs[0].Blob? && fs[0].number == n then Some(fs[0].data) else later
  }

  function Or<T>(o: Option<T>, d: T): T {
    if o.Some? then o.value else d
  }

  /** All bytes under `n`, in order. */
  function Blobs(fs: seq<Field>, n: nat): seq<Bytes> {
    if fs == [] then [] else (if fs[0].Blob? && fs[0].number == n then [fs[0].data] else []) + Blobs(fs[1..], n)
  }

  lemma {:induction false} BlobsLast(fs: seq<Field>, n: nat)
    ensures var b := Blobs(fs, n); BlobUnder(fs, n) == if b == [] then None else Some(b[|b| - 1])
    decreases fs
  {
    if fs != [] {
      BlobsLast(fs[1..], n);
    }
  }

  /** Zigzag in plain arithmetic. */
  function Zigzag(u: int): int {
    if u % 2 == 0 then u / 2 else -(u / 2) - 1
  }

  // ---------------------------------------------------------------- timestamps

  lemma {:induction false} HlcFold(fs: seq<Field>, h: Hlc)
    ensures Fold(HlcStep, fs, h) == Ok(Hlc(Or(NumUnder(fs, 1), h.ms), Or(NumUnder(fs, 2), h.counter)))
    decreases fs
  {
    if fs != [] {
      HlcFold(fs[1..], HlcStep(h, fs[0]).value);
    }
  }

  /** A timestamp: milliseconds under 1, counter under 2, zero if absent. */
  lemma HlcNumbers(s: Bytes)
    ensures HlcOf(s) == (match Fields(Schema({1, 2}, {}), s)
                         case Ok(fs) => Ok(Hlc(Or(NumUnder(fs, 1), 0), Or(NumUnder(fs, 2), 0)))
                         case Malformed => Malformed)
  {
    hide Fields, Fold, NumUnder;
    if Fields(HLC, s).Ok? {
      HlcFold(Fields(HLC, s).value, HLC_ZERO);
    }
  }

  ghost predicate AllHlc(bs: seq<Bytes>) {
    forall b :: b in bs ==> HlcOf(b).Ok?
  }

  function HlcOr(o: Option<Bytes>, d: Hlc): Hlc {
    if o.None? then d
    else
      match HlcOf(o.value)
      case Ok(h) => h
      case Malformed => Hlc(0, 0)
  }

  // ---------------------------------------------------------------- locations

  /** What a location holds after the fields `fs`, having been `l` before. */
  ghost predicate LocHolds(fs: seq<Field>, l: Location, r: Location) {
    var lat, lng, bearing := NumUnder(fs, 3), NumUnder(fs, 4), NumUnder(fs, 9);
    && r.source == Or(NumUnder(fs, 1), l.source) && r.frame == Or(NumUnder(fs, 2), l.frame)
    && r.latE7 == (if lat.Some? then Zigzag(lat.value) else l.latE7)
    && r.lngE7 == (if lng.Some? then Zigzag(lng.value) else l.lngE7)
    && r.accuracyM == Or(NumUnder(fs, 5), l.accuracyM)
    && r.observedAt == HlcOr(BlobUnder(fs, 6), l.observedAt)
    && r.anchorNodeId == Or(BlobUnder(fs, 7), l.anchorNodeId)
    && r.distanceM == Or(NumUnder(fs, 8), l.distanceM)
    && r.bearingDeg == (if bearing.None? then l.bearingDeg else if bearing.value == 0 then None else Some(bearing.value - 1))
  }

  lemma HlcBlobsStep(fs: seq<Field>, n: nat)
    requires fs != []
    ensures AllHlc(Blobs(fs, n)) <==> (fs[0].Blob? && fs[0].number == n ==> HlcOf(fs[0].data).Ok?) && AllHlc(Blobs(fs[1..], n))
  {
    hide HlcOf;
    var rest := Blobs(fs[1..], n);
    if fs[0].Blob? && fs[0].number == n {
      assert Blobs(fs, n) == [fs[0].data] + rest;
      assert fs[0].data in Blobs(fs, n) && forall b :: b in rest ==> b in Blobs(fs, n);
    } else {
      assert Blobs(fs, n) == rest;
    }
  }

  lemma {:induction false} LocFold(fs: seq<Field>, l: Location)
    ensures Fold(LocStep, fs, l).Ok? <==> AllHlc(Blobs(fs, 6))
    ensures Fold(LocStep, fs, l).Ok? ==> LocHolds(fs, l, Fold(LocStep, fs, l).value)
    decreases fs
  {
    hide HlcOf, ZigzagDecode, Blobs;
    if fs != [] {
      if fs[0].Num? {
        ZigzagForms(0, fs[0].value);
      }
      HlcBlobsStep(fs, 6);
      hide AllHlc;
      var next := LocStep(l, fs[0]);
      if next.Ok? {
        LocFold(fs[1..], next.value);
      }
    } else {
      assert Blobs(fs, 6) == [] by {
        NoBlobs(6);
      }
    }
  }

  lemma NoBlobs(n: nat)
    ensures Blobs([], n) == []
  {
  }

  /** A location, on every byte string: which number carries what, the coordinates in zigzag, the bearing
      one more than it is; it fails only if a timestamp under 6 does. */
  lemma LocNumbers(s: Bytes)
    ensures var fs := Fields(Schema({1, 2, 3, 4, 5, 8, 9}, {6, 7}), s);
      && (LocOf(s).Ok? <==> fs.Ok? && AllHlc(Blobs(fs.value, 6)))
      && (LocOf(s).Ok? ==> LocHolds(fs.value, Location(0, 0, 0, 0, 0, Hlc(0, 0), [], 0, None), LocOf(s).value))
  {
    hide Fields, Fold, AllHlc, LocHolds;
    if Fields(LOC, s).Ok? {
      LocFold(Fields(LOC, s).value, LOC_ZERO);
    }
  }

  // ---------------------------------------------------------------- needs and status updates

  ghost predicate NeedHolds(fs: seq<Field>, n: Need, r: Need) {
    && r.category == Or(NumUnder(fs, 1), n.category) && r.severity == Or(NumUnder(fs, 2), n.severity)
    && r.expiresAt == HlcOr(BlobUnder(fs, 3), n.expiresAt)
  }

  lemma {:induction false} NeedFold(fs: seq<Field>, n: Need)
    ensures Fold(NeedStep, fs, n).Ok? <==> AllHlc(Blobs(fs, 3))
    ensures Fold(NeedStep, fs, n).Ok? ==> NeedHolds(fs, n, Fold(NeedStep, fs, n).value)
    decreases fs
  {
    hide HlcOf, Blobs;
    if fs != [] {
      HlcBlobsStep(fs, 3);
      hide AllHlc;
      var next := NeedStep(n, fs[0]);
      if next.Ok? {
        NeedFold(fs[1..], next.value);
      }
    } else {
      NoBlobs(3);
    }
  }

  lemma NeedNumbers(s: Bytes)
    ensures var fs := Fields(Schema({1, 2}, {3}), s);
      && (NeedOf(s).Ok? <==> fs.Ok? && AllHlc(Blobs(fs.value, 3)))
      && (NeedOf(s).Ok? ==> NeedHolds(fs.value, Need(0, 0, Hlc(0, 0)), NeedOf(s).value))
  {
    hide Fields, Fold, AllHlc, NeedHolds;
    if Fields(NEED, s).Ok? {
      NeedFold(Fields(NEED, s).value, NEED_ZERO);
    }
  }

  function LocOr(o: Option<Bytes>, d: Option<Location>): Option<Location> {
    if o.None? then d
    else
      match LocOf(o.value)
      case Ok(l) => Some(l)
      case Malformed => None
  }

  /** Each of the bytes decodes as a need, and `ns` are these needs. */
  ghost predicate NeedsAre(bs: seq<Bytes>, ns: seq<Need>) {
    |ns| == |bs| && forall i :: 0 <= i < |bs| ==> NeedOf(bs[i]) == Ok(ns[i])
  }

  ghost predicate StatusHolds(fs: seq<Field>, s: Status, r: Status) {
    && r.safetyState == Or(NumUnder(fs, 1), s.safetyState)
    && |r.needs| >= |s.needs| && r.needs[..|s.needs|] == s.needs && NeedsAre(Blobs(fs, 2), r.needs[|s.needs|..])
    && r.location == LocOr(BlobUnder(fs, 3), s.location)
  }

  lemma {:induction false} StatusFold(fs: seq<Field>, s: Status)
    ensures Fold(StatusStep, fs, s).Ok? ==> StatusHolds(fs, s, Fold(StatusStep, fs, s).value)
    decreases fs
  {
    hide NeedOf, LocOf;
    if fs != [] {
      var next := StatusStep(s, fs[0]);
      if next.Ok? && Fold(StatusStep, fs[1..], next.value).Ok? {
        StatusFold(fs[1..], next.value);
        var r := Fold(StatusStep, fs, s).value;
        assert StatusHolds(fs[1..], next.value, r);
        if fs[0].Blob? && fs[0].number == 2 {
          NeedsMore(s.needs, next.value.needs[|s.needs|], fs[0].data, Blobs(fs[1..], 2), r.needs);
        } else {
          assert Blobs(fs, 2) == Blobs(fs[1..], 2);
        }
      }
    } else {
      assert s.needs[..|s.needs|] == s.needs;
    }
  }

  lemma NeedsMore(before: seq<Need>, n: Need, data: Bytes, rest: seq<Bytes>, all: seq<Need>)
    requires NeedOf(data) == Ok(n) && |all| > |before| && all[..|before| + 1] == before + [n]
    requires NeedsAre(rest, all[|before| + 1..])
    ensures all[..|before|] == before && NeedsAre([data] + rest, all[|before|..])
  {
    hide NeedOf;
    var k := |before|;
    assert all[..k] == all[..k + 1][..k];
    assert all[k] == all[..k + 1][k] == n;
    assert all[k..] == [all[k]] + all[k + 1..];
  }

  /** A status: safety state under 1, one need for each field 2 in order, the location under 3 if there is one. */
  lemma StatusNumbers(s: Bytes)
    requires StatusOf(s).Ok?
    ensures Fields(Schema({1}, {2, 3}), s).Ok?
    ensures var fs, r := Fields(Schema({1}, {2, 3}), s).value, StatusOf(s).value;
      && r.safetyState == Or(NumUnder(fs, 1), 0)
      && NeedsAre(Blobs(fs, 2), r.needs)
      && r.location == LocOr(BlobUnder(fs, 3), None)
  {
    hide Fields, Fold, NeedsAre, NumUnder, BlobUnder, Blobs, LocOr;
    StatusFold(Fields(STATUS, s).value, STATUS_ZERO);
    assert StatusOf(s).value.needs[0..] == StatusOf(s).value.needs;
  }

  // ---------------------------------------------------------------- presence and checkpoints

  lemma {:induction false} PresenceFold(fs: seq<Field>, p: Presence)
    ensures var f := Fold(PresenceStep, fs, p);
      f.Ok? ==>
        && f.value.anonUserId == Or(BlobUnder(fs, 1), p.anonUserId)
        && Some(f.value.location) == LocOr(BlobUnder(fs, 2), Some(p.location))
        && f.value.batteryHint == Or(NumUnder(fs, 3), p.batteryHint)
    decreases fs
  {
    hide LocOf;
    if fs != [] {
      var next := PresenceStep(p, fs[0]);
      if next.Ok? {
        PresenceFold(fs[1..], next.value);
      }
    }
  }

  lemma PresenceNumbers(s: Bytes)
    requires PresenceOf(s).Ok?
    ensures Fields(Schema({3}, {1, 2}), s).Ok?
    ensures var fs, r := Fields(Schema({3}, {1, 2}), s).value, PresenceOf(s).value;
      && r.anonUserId == Or(BlobUnder(fs, 1), [])
      && Some(r.location) == LocOr(BlobUnder(fs, 2), Some(Location(0, 0, 0, 0, 0, Hlc(0, 0), [], 0, None)))
      && r.batteryHint == Or(NumUnder(fs, 3), 0)
  {
    hide Fields, Fold, NumUnder, BlobUnder, LocOr;
    PresenceFold(Fields(PRESENCE, s).value, PRESENCE_ZERO);
  }

  lemma {:induction false} CheckpointFold(fs: seq<Field>, k: Checkpoint)
    ensures var f := Fold(CheckpointStep, fs, k);
      f.Ok? ==>
        && f.value.anonUserId == Or(BlobUnder(fs, 1), k.anonUserId)
        && f.value.checkpointId == Or(BlobUnder(fs, 2), k.checkpointId)
        && Some(f.value.location) == LocOr(BlobUnder(fs, 3), Some(k.location))
    decreases fs
  {
    hide LocOf;
    if fs != [] {
      var next := CheckpointStep(k, fs[0]);
      if next.Ok? {
        CheckpointFold(fs[1..], next.value);
      }
    }
  }

  lemma CheckpointNumbers(s: Bytes)
    requires CheckpointOf(s).Ok?
    ensures Fields(Schema({}, {1, 2, 3}), s).Ok?
    ensures var fs, r := Fields(Schema({}, {1, 2, 3}), s).value, CheckpointOf(s).value;
      && r.anonUserId == Or(BlobUnder(fs, 1), [])
      && r.checkpointId == Or(BlobUnder(fs, 2), [])
      && Some(r.location) == LocOr(BlobUnder(fs, 3), Some(Location(0, 0, 0, 0, 0, Hlc(0, 0), [], 0, None)))
  {
    hide Fields, Fold, NumUnder, BlobUnder, LocOr;
    CheckpointFold(Fields(CHECKPOINT, s).value, CHECKPOINT_ZERO);
  }

  // ---------------------------------------------------------------- the envelope

  function OptHlcOr(o: Option<Bytes>, d: Option<Hlc>): Option<Hlc> {
    if o.None? then d else Some(HlcOr(o, Hlc(0, 0)))
  }

  function BlobOr(o: Option<Bytes>, d: Option<Bytes>): Option<Bytes> {
    if o.Some? then o else d
  }

  ghost predicate NumsHold(fs: seq<Field>, p: Partial, r: Partial) {
    && r.protocolVersion == Or(NumUnder(fs, 1), p.protocolVersion) && r.versionSeen == (p.versionSeen || NumUnder(fs, 1).Some?)
    && r.eventType == Or(NumUnder(fs, 3), p.eventType)
    && r.priority == Or(NumUnder(fs, 4), p.priority)
    && r.maxHops == Or(NumUnder(fs, 7), p.maxHops)
    && r.sigAlgo == Or(NumUnder(fs, 9), p.sigAlgo) && r.sigAlgoSeen == (p.sigAlgoSeen || NumUnder(fs, 9).Some?)
    && r.isExperimental == (if NumUnder(fs, 13).Some? then NumUnder(fs, 13).value != 0 else p.isExperimental)
  }

  ghost predicate BlobsHold(fs: seq<Field>, p: Partial, r: Partial) {
    && r.envelopeId == BlobOr(BlobUnder(fs, 2), p.envelopeId)
    && r.createdAt == OptHlcOr(BlobUnder(fs, 5), p.createdAt)
    && r.expiresAt == OptHlcOr(BlobUnder(fs, 6), p.expiresAt)
    && r.authorKey == BlobOr(BlobUnder(fs, 8), p.authorKey)
    && r.signature == BlobOr(BlobUnder(fs, 10), p.signature)
    && r.payload == BlobOr(BlobUnder(fs, 11), p.payload)
    && r.lastRelayId == Or(BlobUnder(fs, 12), p.lastRelayId)
    && r.fieldId == BlobOr(BlobUnder(fs, 14), p.fieldId)
    && r.fieldMac == Or(BlobUnder(fs, 15), p.fieldMac)
  }

  lemma {:induction false} EnvelopeFold(fs: seq<Field>, p: Partial)
    ensures var f := Fold(EnvelopeStep, fs, p);
      && (f.Ok? <==> AllHlc(Blobs(fs, 5)) && AllHlc(Blobs(fs, 6)))
      && (f.Ok? ==> NumsHold(fs, p, f.value) && BlobsHold(fs, p, f.value))
    decreases fs
  {
    hide HlcOf, Blobs;
    if fs != [] {
      HlcBlobsStep(fs, 5);
      HlcBlobsStep(fs, 6);
      hide AllHlc, NumsHold, BlobsHold, EnvelopeNum, EnvelopeBlob;
      var next := EnvelopeStep(p, fs[0]);
      if next.Ok? {
        EnvelopeFold(fs[1..], next.value);
        if Fold(EnvelopeStep, fs, p).Ok? {
          NumsMore(fs, p, Fold(EnvelopeStep, fs, p).value);
          BlobsMore(fs, p, Fold(EnvelopeStep, fs, p).value);
        }
      }
      EnvelopeStepFails(p, fs[0]);
    } else {
      NoBlobs(5);
      NoBlobs(6);
    }
  }

  lemma EnvelopeStepFails(p: Partial, f: Field)
    ensures EnvelopeStep(p, f).Malformed? <==> f.Blob? && (f.number == 5 || f.number == 6) && HlcOf(f.data).Malformed?
  {
    hide HlcOf;
  }

  lemma NumStep(fs: seq<Field>, n: nat)
    requires fs != []
    ensures NumUnder(fs, n) == if NumUnder(fs[1..], n).Some? then NumUnder(fs[1..], n)
                               else if fs[0].Num? && fs[0].number == n then Some(fs[0].value) else None
  {
  }

  lemma BlobStep(fs: seq<Field>, n: nat)
    requires fs != []
    ensures BlobUnder(fs, n) == if BlobUnder(fs[1..], n).Some? then BlobUnder(fs[1..], n)
                                else if fs[0].Blob? && fs[0].number == n then Some(fs[0].data) else None
  {
  }

  /** What one number does to the locals. */
  lemma NumEffect(p: Partial, n: nat, v: nat)
    ensures var q := EnvelopeNum(p, n, v);
      && q.protocolVersion == (if n == 1 then v else p.protocolVersion) && q.versionSeen == (p.versionSeen || n == 1)
      && q.eventType == (if n == 3 then v else p.eventType) && q.priority == (if n == 4 then v else p.priority)
      && q.maxHops == (if n == 7 then v else p.maxHops)
      && q.sigAlgo == (if n == 9 then v else p.sigAlgo) && q.sigAlgoSeen == (p.sigAlgoSeen || n == 9)
      && q.isExperimental == (if n == 13 then v != 0 else p.isExperimental)
      && SameBlobs(p, q)
  {
  }

  predicate SameBlobs(p: Partial, q: Partial) {
    && q.envelopeId == p.envelopeId && q.createdAt == p.createdAt && q.expiresAt == p.expiresAt
    && q.authorKey == p.authorKey && q.signature == p.signature && q.payload == p.payload
    && q.lastRelayId == p.lastRelayId && q.fieldId == p.fieldId && q.fieldMac == p.fieldMac
  }

  predicate SameNums(p: Partial, q: Partial) {
    && q.protocolVersion == p.protocolVersion && q.versionSeen == p.versionSeen && q.eventType == p.eventType
    && q.priority == p.priority && q.maxHops == p.maxHops && q.sigAlgo == p.sigAlgo && q.sigAlgoSeen == p.sigAlgoSeen
    && q.isExperimental == p.isExperimental
  }

  /** And what bytes do. */
  lemma BlobEffect(p: Partial, n: nat, data: Bytes)
    requires EnvelopeBlob(p, n, data).Ok?
    ensures var q := EnvelopeBlob(p, n, data).value;
      && q.envelopeId == (if n == 2 then Some(data) else p.envelopeId)
      && q.createdAt == (if n == 5 then Some(HlcOr(Some(data), Hlc(0, 0))) else p.createdAt)
      && q.expiresAt == (if n == 6 then Some(HlcOr(Some(data), Hlc(0, 0))) else p.expiresAt)
      && q.authorKey == (if n == 8 then Some(data) else p.authorKey)
      && q.signature == (if n == 10 then Some(data) else p.signature)
      && q.payload == (if n == 11 then Some(data) else p.payload)
      && q.lastRelayId == (if n == 12 then data else p.lastRelayId)
      && q.fieldId == (if n == 14 then Some(data) else p.fieldId)
      && q.fieldMac == (if n == 15 then data else p.fieldMac)
      && SameNums(p, q)
  {
    hide HlcOf;
  }

  lemma NumsMore(fs: seq<Field>, p: Partial, r: Partial)
    requires fs != [] && EnvelopeStep(p, fs[0]).Ok? && NumsHold(fs[1..], EnvelopeStep(p, fs[0]).value, r)
    ensures NumsHold(fs, p, r)
  {
    hide HlcOf, NumUnder, EnvelopeNum, EnvelopeBlob, SameBlobs;
    NumStep(fs, 1);
    NumStep(fs, 3);
    NumStep(fs, 4);
    NumStep(fs, 7);
    NumStep(fs, 9);
    NumStep(fs, 13);
    match fs[0] {
      case Num(n, v) => NumEffect(p, n, v);
      case Blob(n, data) => BlobEffect(p, n, data);
    }
  }

  lemma BlobsMore(fs: seq<Field>, p: Partial, r: Partial)
    requires fs != [] && EnvelopeStep(p, fs[0]).Ok? && BlobsHold(fs[1..], EnvelopeStep(p, fs[0]).value, r)
    ensures BlobsHold(fs, p, r)
  {
    hide HlcOf, BlobUnder, EnvelopeNum, EnvelopeBlob, SameNums;
    BlobStep(fs, 2);
    BlobStep(fs, 5);
    BlobStep(fs, 6);
    BlobStep(fs, 8);
    BlobStep(fs, 10);
    BlobStep(fs, 11);
    BlobStep(fs, 12);
    BlobStep(fs, 14);
    BlobStep(fs, 15);
    match fs[0] {
      case Num(n, v) => NumEffect(p, n, v);
      case Blob(n, data) => BlobEffect(p, n, data);
    }
  }

  /** The fields of an envelope, read off a byte string by number. */
  function EnvelopeRead(s: Bytes): Res<seq<Field>> {
    Fields(Schema({1, 3, 4, 7, 9, 13}, {2, 5, 6, 8, 10, 11, 12, 14, 15}), s)
  }

  predicate Sized(o: Option<Bytes>, n: nat) {
    o.Some? && |o.value| == n
  }

  /** What makes fields an envelope: both timestamps present and readable, the version, type and priority
      not zero, the algorithm present, the payload present, and the ids, the key, the signature and a
      MAC, if there is one, of their sizes. */
  ghost predicate MakesEnvelope(fs: seq<Field>) {
    && AllHlc(Blobs(fs, 5)) && AllHlc(Blobs(fs, 6)) && BlobUnder(fs, 5).Some? && BlobUnder(fs, 6).Some?
    && Or(NumUnder(fs, 1), 0) != 0 && Or(NumUnder(fs, 3), 0) != 0 && Or(NumUnder(fs, 4), 0) != 0
    && NumUnder(fs, 9).Some? && BlobUnder(fs, 11).Some?
    && Sized(BlobUnder(fs, 2), 16) && Sized(BlobUnder(fs, 8), 32) && Sized(BlobUnder(fs, 10), 64) && Sized(BlobUnder(fs, 14), 16)
    && (Or(BlobUnder(fs, 15), []) == [] || Sized(BlobUnder(fs, 15), 16))
  }

  /** Which byte strings decode, exactly, and to what, field number by field number. */
  lemma EnvelopeNumbers(s: Bytes)
    ensures EnvelopeOf(s).Ok? <==> EnvelopeRead(s).Ok? && MakesEnvelope(EnvelopeRead(s).value)
    ensures EnvelopeOf(s).Ok? ==>
      var fs := EnvelopeRead(s).value;
      EnvelopeOf(s).value == Envelope(
        Or(NumUnder(fs, 1), 0), Or(BlobUnder(fs, 2), []), Or(NumUnder(fs, 3), 0), Or(NumUnder(fs, 4), 0),
        HlcOr(BlobUnder(fs, 5), Hlc(0, 0)), HlcOr(BlobUnder(fs, 6), Hlc(0, 0)), Or(NumUnder(fs, 7), 0),
        Or(BlobUnder(fs, 8), []), Or(NumUnder(fs, 9), 0), Or(BlobUnder(fs, 10), []), Or(BlobUnder(fs, 11), []),
        Or(BlobUnder(fs, 12), []), Or(NumUnder(fs, 13), 0) != 0, Or(BlobUnder(fs, 14), []), Or(BlobUnder(fs, 15), []))
  {
    hide Fields, Fold, AllHlc, NumUnder, BlobUnder, Blobs, HlcOf;
    if Fields(ENVELOPE, s).Ok? {
      EnvelopeFold(Fields(ENVELOPE, s).value, PARTIAL_ZERO);
    }
  }

  // ---------------------------------------------------------------- what the writers write

  /** Numbers between `lo` and `hi`, each larger than the one before, so each at most once. */
  ghost predicate InOrder(fs: seq<Field>, lo: nat, hi: nat) {
    && (forall i :: 0 <= i < |fs| ==> lo < fs[i].number <= hi)
    && forall i, j :: 0 <= i < j < |fs| ==> fs[i].number < fs[j].number
  }

  /** Nothing is written for a zero number, nor for empty bytes except under the numbers `always`. */
  ghost predicate Sparse(fs: seq<Field>, always: set<nat>) {
    forall i :: 0 <= i < |fs| ==>
      match fs[i]
      case Num(_, v) => v != 0
      case Blob(n, data) => data != [] || n in always
  }

  ghost predicate Wellordered(fs: seq<Field>, lo: nat, hi: nat, always: set<nat>) {
    InOrder(fs, lo, hi) && Sparse(fs, always)
  }

  lemma OrderedConcat(fs: seq<Field>, gs: seq<Field>, lo: nat, mid: nat, hi: nat, always: set<nat>)
    requires Wellordered(fs, lo, mid, always) && Wellordered(gs, mid, hi, always) && lo <= mid <= hi
    ensures Wellordered(fs + gs, lo, hi, always)
  {
  }

  lemma OrderedOne(fs: seq<Field>, lo: nat, n: nat, always: set<nat>)
    requires lo < n && |fs| <= 1
    requires fs != [] ==> fs[0].number == n
    requires fs != [] && fs[0].Num? ==> fs[0].value != 0
    requires fs != [] && fs[0].Blob? ==> fs[0].data != [] || n in always
    ensures Wellordered(fs, lo, n, always)
  {
  }

  /** One more field at the end of what is written so far. */
  lemma OrderedNext(fs: seq<Field>, f: seq<Field>, mid: nat, n: nat, always: set<nat>)
    requires Wellordered(fs, 0, mid, always) && mid < n && |f| <= 1
    requires f != [] ==> f[0].number == n
    requires f != [] && f[0].Num? ==> f[0].value != 0
    requires f != [] && f[0].Blob? ==> f[0].data != [] || n in always
    ensures Wellordered(fs + f, 0, n, always)
  {
    OrderedOne(f, mid, n, always);
    hide Wellordered;
    OrderedConcat(fs, f, 0, mid, n, always);
  }

  /** Zigzag keeps zero to itself, so a coordinate is left out only if it is zero. */
  lemma ZigzagZero(v: int)
    requires Int64(v)
    ensures ZigzagEncode(v) == 0 <==> v == 0
  {
    ZigzagForms(v, 0);
  }

  lemma LocInOrder(l: Location)
    requires LocFits(l)
    ensures Wellordered(LocFields(l), 0, 9, {6})
  {
    hide HlcBytes, ZigzagEncode;
    ZigzagZero(l.latE7);
    ZigzagZero(l.lngE7);
    OrderedOne(NumField(1, l.source), 0, 1, {6});
    var g2 := NumField(1, l.source) + NumField(2, l.frame);
    var g3 := g2 + SintField(3, l.latE7);
    var g4 := g3 + SintField(4, l.lngE7);
    var g5 := g4 + NumField(5, l.accuracyM);
    var g6 := g5 + ObservedField(l.observedAt);
    var g7 := g6 + BlobField(7, l.anchorNodeId);
    hide Wellordered;
    OrderedNext(NumField(1, l.source), NumField(2, l.frame), 1, 2, {6});
    OrderedNext(g2, SintField(3, l.latE7), 2, 3, {6});
    OrderedNext(g3, SintField(4, l.lngE7), 3, 4, {6});
    OrderedNext(g4, NumField(5, l.accuracyM), 4, 5, {6});
    OrderedNext(g5, ObservedField(l.observedAt), 5, 6, {6});
    OrderedNext(g6, BlobField(7, l.anchorNodeId), 6, 7, {6});
    OrderedNext(g7, NumField(8, l.distanceM), 7, 8, {6});
    OrderedNext(g7 + NumField(8, l.distanceM), BearingField(l.bearingDeg), 8, 9, {6});
  }

  lemma PresenceInOrder(p: Presence)
    ensures Wellordered(PresenceFields(p), 0, 3, {})
  {
    hide LocBytes;
    OrderedOne(BlobField(1, p.anonUserId), 0, 1, {});
    hide Wellordered;
    OrderedNext(BlobField(1, p.anonUserId), BlobField(2, LocBytes(p.location)), 1, 2, {});
    OrderedNext(BlobField(1, p.anonUserId) + BlobField(2, LocBytes(p.location)), NumField(3, p.batteryHint), 2, 3, {});
  }

  lemma CheckpointInOrder(k: Checkpoint)
    ensures Wellordered(CheckpointFields(k), 0, 3, {})
  {
    hide LocBytes;
    OrderedOne(BlobField(1, k.anonUserId), 0, 1, {});
    hide Wellordered;
    OrderedNext(BlobField(1, k.anonUserId), BlobField(2, k.checkpointId), 1, 2, {});
    OrderedNext(BlobField(1, k.anonUserId) + BlobField(2, k.checkpointId), BlobField(3, LocBytes(k.location)), 2, 3, {});
  }

  lemma NeedInOrder(n: Need)
    ensures Wellordered(NeedFields(n), 0, 3, {3})
  {
    hide HlcBytes;
    OrderedOne(NumField(1, n.category), 0, 1, {3});
    hide Wellordered;
    OrderedNext(NumField(1, n.category), NumField(2, n.severity), 1, 2, {3});
    OrderedNext(NumField(1, n.category) + NumField(2, n.severity), [Blob(3, HlcBytes(n.expiresAt))], 2, 3, {3});
  }

  lemma HlcInOrder(h: Hlc)
    ensures Wellordered(HlcFields(h), 0, 2, {})
  {
    OrderedOne(NumField(1, h.ms), 0, 1, {});
    hide Wellordered;
    OrderedNext(NumField(1, h.ms), NumField(2, h.counter), 1, 2, {});
  }

  /** A status: its safety state, its needs, its location. */
  lemma StatusInOrder(s: Status)
    ensures forall i, j :: 0 <= i < j < |StatusFields(s)| ==> StatusFields(s)[i].number <= StatusFields(s)[j].number
    ensures forall i :: 0 <= i < |StatusFields(s)| ==> 1 <= StatusFields(s)[i].number <= 3
    ensures forall i :: 0 <= i < |StatusFields(s)| && StatusFields(s)[i].Num? ==> StatusFields(s)[i].value != 0
  {
    hide NeedBytes, LocBytes;
  }

  /** An envelope: fifteen numbers in order, and only the two timestamps and the payload written even if empty. */
  lemma EnvelopeInOrder(e: Envelope)
    ensures Wellordered(EnvelopeFields(e), 0, 15, {5, 6, 11})
  {
    hide HlcBytes;
    var a: set<nat> := {5, 6, 11};
    OrderedOne(NumField(1, e.protocolVersion), 0, 1, a);
    var g2 := NumField(1, e.protocolVersion) + BlobField(2, e.envelopeId);
    var g3 := g2 + NumField(3, e.eventType);
    var g4 := g3 + NumField(4, e.priority);
    hide Wellordered;
    OrderedNext(NumField(1, e.protocolVersion), BlobField(2, e.envelopeId), 1, 2, a);
    OrderedNext(g2, NumField(3, e.eventType), 2, 3, a);
    OrderedNext(g3, NumField(4, e.priority), 3, 4, a);
    OrderedNext(g4, [Blob(5, HlcBytes(e.createdAt))], 4, 5, a);
    MiddleInOrder(e, EnvelopeHead(e), a);
    TailInOrder(e, EnvelopeHead(e) + EnvelopeMiddle(e), a);
  }

  lemma MiddleInOrder(e: Envelope, g5: seq<Field>, a: set<nat>)
    requires a == {5, 6, 11} && Wellordered(g5, 0, 5, a)
    ensures Wellordered(g5 + EnvelopeMiddle(e), 0, 10, a)
  {
    hide HlcBytes, Wellordered;
    var g6 := g5 + [Blob(6, HlcBytes(e.expiresAt))];
    var g7 := g6 + NumField(7, e.maxHops);
    var g8 := g7 + BlobField(8, e.authorKey);
    var g9 := g8 + NumField(9, e.sigAlgo);
    OrderedNext(g5, [Blob(6, HlcBytes(e.expiresAt))], 5, 6, a);
    OrderedNext(g6, NumField(7, e.maxHops), 6, 7, a);
    OrderedNext(g7, BlobField(8, e.authorKey), 7, 8, a);
    OrderedNext(g8, NumField(9, e.sigAlgo), 8, 9, a);
    OrderedNext(g9, BlobField(10, e.signature), 9, 10, a);
    hide NumField, BlobField;
    assert g9 + BlobField(10, e.signature) == g5 + EnvelopeMiddle(e);
  }

  lemma TailInOrder(e: Envelope, g10: seq<Field>, a: set<nat>)
    requires a == {5, 6, 11} && Wellordered(g10, 0, 10, a)
    ensures Wellordered(g10 + EnvelopeTail(e), 0, 15, a)
  {
    hide Wellordered;
    var flag := if e.isExperimental then 1 else 0;
    var g11 := g10 + [Blob(11, e.payload)];
    var g12 := g11 + BlobField(12, e.lastRelayId);
    var g13 := g12 + NumField(13, flag);
    var g14 := g13 + BlobField(14, e.fieldId);
    OrderedNext(g10, [Blob(11, e.payload)], 10, 11, a);
    OrderedNext(g11, BlobField(12, e.lastRelayId), 11, 12, a);
    OrderedNext(g12, NumField(13, flag), 12, 13, a);
    OrderedNext(g13, BlobField(14, e.fieldId), 13, 14, a);
    OrderedNext(g14, BlobField(15, e.fieldMac), 14, 15, a);
    hide NumField, BlobField;
    assert g14 + BlobField(15, e.fieldMac) == g10 + EnvelopeTail(e);
  }

  /** What the writer puts under each number: read back by number, the values themselves, nothing where there
      is nothing to write. */
  lemma EnvelopeWritten(e: Envelope)
    requires EnvelopeFits(e)
    ensures EnvelopeRead(EnvelopeBytes(e)).Ok?
    ensures var fs := EnvelopeRead(EnvelopeBytes(e)).value;
      && Wellordered(fs, 0, 15, {5, 6, 11})
      && Or(NumUnder(fs, 1), 0) == e.protocolVersion && Or(BlobUnder(fs, 2), []) == e.envelopeId
      && Or(NumUnder(fs, 3), 0) == e.eventType && Or(NumUnder(fs, 4), 0) == e.priority
      && HlcOr(BlobUnder(fs, 5), Hlc(0, 0)) == e.createdAt && HlcOr(BlobUnder(fs, 6), Hlc(0, 0)) == e.expiresAt
      && Or(NumUnder(fs, 7), 0) == e.maxHops && Or(BlobUnder(fs, 8), []) == e.authorKey
      && Or(NumUnder(fs, 9), 0) == e.sigAlgo && Or(BlobUnder(fs, 10), []) == e.signature
      && BlobUnder(fs, 11) == Some(e.payload) && Or(BlobUnder(fs, 12), []) == e.lastRelayId
      && (Or(NumUnder(fs, 13), 0) != 0 <==> e.isExperimental)
      && Or(BlobUnder(fs, 14), []) == e.fieldId && Or(BlobUnder(fs, 15), []) == e.fieldMac
  {
    hide Fields, Fold, NumUnder, BlobUnder, Write, EnvelopeHead, EnvelopeMiddle, EnvelopeTail, Wellordered, AllHlc;
    EnvelopeBrought(e);
    BroughtWritable(EnvelopeFields(e), AfterTail(e));
    ReadBack(ENVELOPE, EnvelopeFields(e));
    EnvelopeInOrder(e);
    EnvelopeFold(EnvelopeFields(e), PARTIAL_ZERO);
    hide HlcOf;
  }
}
