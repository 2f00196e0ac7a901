/** The v3 event envelope: its messages, their codecs and the canonical signature input.
    Strings are carried as their UTF-8 bytes. */
module EnvelopeV3 {
  import opened Bits
  import opened Keys
  import opened ProtoWire

  const PROTOCOL_VERSION_V3 := 3
  const SIG_ALGO_ED25519 := 1

  // ---------------------------------------------------------------- HLC timestamp

  datatype Hlc = Hlc(ms: nat, counter: nat)

  const HLC := Schema({1, 2}, {})
  const HLC_ZERO := Hlc(0, 0)

  function HlcFields(h: Hlc): seq<Field> {
    NumField(1, h.ms) + NumField(2, h.counter)
  }

  function HlcBytes(h: Hlc): Bytes {
    Write(HlcFields(h))
  }

  function HlcStep(h: Hlc, f: Field): Res<Hlc> {
    if f.Blob? then Ok(h)
    else if f.number == 1 then Ok(h.(ms := f.value))
    else if f.number == 2 then Ok(h.(counter := f.value))
    else Ok(h)
  }

  function HlcOf(s: Bytes): Res<Hlc> {
    Decode(HLC, HlcStep, s, HLC_ZERO)
  }

  predicate HlcFits(h: Hlc) {
    h.ms < U64 && h.counter < U64
  }

  lemma HlcRoundTrip(h: Hlc)
    requires HlcFits(h)
    ensures HlcOf(HlcBytes(h)) == Ok(h)
  {
    var f1, f2 := NumField(1, h.ms), NumField(2, h.counter);
    StageFirst(HLC, HlcStep, f1, HLC_ZERO, Hlc(h.ms, 0));
    Stage(HLC, HlcStep, f1, f2, HLC_ZERO, Hlc(h.ms, 0), h);
    StageDone(HLC, HlcStep, HlcFields(h), HLC_ZERO, h);
  }

  lemma {:induction false} VarintSize(v: nat, n: nat)
    requires 1 <= n && v < Pow(128, n)
    ensures |Varint(v)| <= n
    decreases n
  {
    assert Pow(128, 1) == 128;
    if v > 127 {
      VarintSize(v / 128, n - 1);
    }
  }

  /** A nested timestamp is short. */
  lemma HlcSize(h: Hlc)
    ensures |HlcBytes(h)| <= 40
  {
    var f1, f2 := NumField(1, h.ms), NumField(2, h.counter);
    WriteConcat(f1, f2);
    NumSize(1, h.ms);
    NumSize(2, h.counter);
  }

  lemma NumSize(n: nat, v: nat)
    ensures |Write(NumField(n, v))| <= 20
  {
    if v != 0 {
      var f := Num(n, v);
      WriteOne([], f);
      assert [] + [f] == [f] && Write([]) + WriteField(f) == WriteField(f);
      Pow128Of64();
      VarintSize((n * 8 + WIRE_VARINT) % U64, 10);
      VarintSize(v % U64, 10);
    }
  }

  method EncodeHlc(h: Hlc) returns (b: Bytes)
    ensures b == HlcBytes(h)
  {
    var w := new ProtoWriter();
    w.PutUint(1, h.ms);
    w.PutUint(2, h.counter);
    assert w.fields == HlcFields(h);
    b := w.buf;
  }

  method DecodeHlc(data: Bytes) returns (res: Res<Hlc>)
    ensures res == HlcOf(data)
  {
    var r := new ProtoReader(data);
    var acc := HLC_ZERO;
    while !r.AtEnd()
      invariant Decode(HLC, HlcStep, r.Rest(), acc) == HlcOf(data)
      decreases |r.Rest()|
    {
      hide Decode, Turn;
      DecodeByTurns(HLC, HlcStep, r.Rest(), acc);
      acc :- DecodeHlcField(r, acc);
    }
    return Ok(acc);
  }

  /** The body of the decode loop. */
  method DecodeHlcField(r: ProtoReader, acc: Hlc) returns (res: Res<Hlc>)
    modifies r
    ensures res.Ok? <==> Turn(HLC, HlcStep, old(r.Rest()), acc).Ok?
    ensures res.Ok? ==> Turn(HLC, HlcStep, old(r.Rest()), acc) == Ok((res.value, r.Rest()))
  {
    hide ReadVarint, Skip, ReadLen;
    var tag :- r.GetVarint();
    if tag / 8 == 1 {
      var v :- r.GetVarint();
      return Ok(acc.(ms := v));
    } else if tag / 8 == 2 {
      var v :- r.GetVarint();
      return Ok(acc.(counter := v));
    } else {
      var _ :- r.SkipValue(tag % 8);
      return Ok(acc);
    }
  }

  // ---------------------------------------------------------------- location evidence

  datatype Location = Location(
    source: nat, frame: nat, latE7: int, lngE7: int, accuracyM: nat, observedAt: Hlc,
    anchorNodeId: Bytes, distanceM: nat, bearingDeg: Option<nat>)

  const LOC := Schema({1, 2, 3, 4, 5, 8, 9}, {6, 7})
  const LOC_ZERO := Location(0, 0, 0, 0, 0, HLC_ZERO, [], 0, None)

  function BearingField(b: Option<nat>): seq<Field> {
    if b.None? then [] else NumField(9, b.value + 1)
  }

  function ObservedField(h: Hlc): seq<Field> {
    if h.ms != 0 || h.counter != 0 then [Blob(6, HlcBytes(h))] else []
  }

  function LocFields(l: Location): seq<Field> {
    NumField(1, l.source) + NumField(2, l.frame) + SintField(3, l.latE7) + SintField(4, l.lngE7)
    + NumField(5, l.accuracyM) + ObservedField(l.observedAt) + BlobField(7, l.anchorNodeId)
    + NumField(8, l.distanceM) + BearingField(l.bearingDeg)
  }

  function LocBytes(l: Location): Bytes {
    Write(LocFields(l))
  }

  function LocStep(l: Location, f: Field): Res<Location> {
    match f
    case Num(n, v) =>
      if n == 1 then Ok(l.(source := v))
      else if n == 2 then Ok(l.(frame := v))
      else if n == 3 then Ok(l.(latE7 := ZigzagDecode(v)))
      else if n == 4 then Ok(l.(lngE7 := ZigzagDecode(v)))
      else if n == 5 then Ok(l.(accuracyM := v))
      else if n == 8 then Ok(l.(distanceM := v))
      else if n == 9 then Ok(l.(bearingDeg := if v == 0 then None else Some(v - 1)))
      else Ok(l)
    case Blob(n, data) =>
      if n == 6 then
        var h :- HlcOf(data);
        Ok(l.(observedAt := h))
      else if n == 7 then Ok(l.(anchorNodeId := data))
      else Ok(l)
  }

  function LocOf(s: Bytes): Res<Location> {
    Decode(LOC, LocStep, s, LOC_ZERO)
  }

  predicate LocFits(l: Location) {
    && l.source < U64 && l.frame < U64 && Int64(l.latE7) && Int64(l.lngE7) && l.accuracyM < U64
    && HlcFits(l.observedAt) && |l.anchorNodeId| < U64 && l.distanceM < U64
    && (l.bearingDeg.Some? ==> l.bearingDeg.value + 1 < U64)
  }

  function LocHead(l: Location): seq<Field> {
    NumField(1, l.source) + NumField(2, l.frame) + SintField(3, l.latE7) + SintField(4, l.lngE7)
  }

  function AfterLocHead(l: Location): Location {
    LOC_ZERO.(source := l.source, frame := l.frame, latE7 := l.latE7, lngE7 := l.lngE7)
  }

  lemma LocHeadStage(l: Location)
    requires LocFits(l)
    ensures Brings(LOC, LocStep, LocHead(l), LOC_ZERO, AfterLocHead(l))
  {
    hide Fold, Brings, ZigzagEncode, ZigzagDecode, HlcOf;
    var l1 := LOC_ZERO.(source := l.source);
    var l2 := l1.(frame := l.frame);
    var l3 := l2.(latE7 := l.latE7);
    var g1 := NumField(1, l.source);
    var g2 := g1 + NumField(2, l.frame);
    var g3 := g2 + SintField(3, l.latE7);
    ZigzagBijection(l.latE7, 0);
    ZigzagBijection(l.lngE7, 0);
    StageFirst(LOC, LocStep, g1, LOC_ZERO, l1);
    Stage(LOC, LocStep, g1, NumField(2, l.frame), LOC_ZERO, l1, l2);
    Stage(LOC, LocStep, g2, SintField(3, l.latE7), LOC_ZERO, l2, l3);
    Stage(LOC, LocStep, g3, SintField(4, l.lngE7), LOC_ZERO, l3, AfterLocHead(l));
  }

  lemma LocTailStage(l: Location, g: seq<Field>)
    requires LocFits(l) && Brings(LOC, LocStep, g, LOC_ZERO, AfterLocHead(l))
    ensures Brings(LOC, LocStep, g + NumField(5, l.accuracyM) + ObservedField(l.observedAt) + BlobField(7, l.anchorNodeId)
                                 + NumField(8, l.distanceM) + BearingField(l.bearingDeg), LOC_ZERO, l)
  {
    hide Fold, Brings, ZigzagEncode, ZigzagDecode, HlcOf, HlcBytes;
    var l5 := AfterLocHead(l).(accuracyM := l.accuracyM);
    var l6 := l5.(observedAt := l.observedAt);
    var l7 := l6.(anchorNodeId := l.anchorNodeId);
    var l8 := l7.(distanceM := l.distanceM);
    var g5 := g + NumField(5, l.accuracyM);
    var g6 := g5 + ObservedField(l.observedAt);
    var g7 := g6 + BlobField(7, l.anchorNodeId);
    var g8 := g7 + NumField(8, l.distanceM);
    HlcRoundTrip(l.observedAt);
    HlcSize(l.observedAt);
    Stage(LOC, LocStep, g, NumField(5, l.accuracyM), LOC_ZERO, AfterLocHead(l), l5);
    Stage(LOC, LocStep, g5, ObservedField(l.observedAt), LOC_ZERO, l5, l6);
    Stage(LOC, LocStep, g6, BlobField(7, l.anchorNodeId), LOC_ZERO, l6, l7);
    Stage(LOC, LocStep, g7, NumField(8, l.distanceM), LOC_ZERO, l7, l8);
    Stage(LOC, LocStep, g8, BearingField(l.bearingDeg), LOC_ZERO, l8, l);
  }

  /** Every field survives, an absent bearing and a bearing of zero staying distinct. */
  lemma LocRoundTrip(l: Location)
    requires LocFits(l)
    ensures LocOf(LocBytes(l)) == Ok(l)
  {
    hide Decode, Fold, Brings, Write, NumField, SintField, BlobField, ObservedField, BearingField;
    LocHeadStage(l);
    LocTailStage(l, LocHead(l));
    StageDone(LOC, LocStep, LocFields(l), LOC_ZERO, l);
  }

  /** The bytes of a location at its defaults are empty, and only those. */
  lemma LocEmpty(l: Location)
    requires LocFits(l)
    ensures LocBytes(l) == [] <==> l == LOC_ZERO
  {
    LocRoundTrip(l);
    assert LocOf([]) == Ok(LOC_ZERO);
  }

  lemma OneSize(f: seq<Field>, n: nat)
    requires |f| <= 1
    requires f != [] && f[0].Blob? ==> |f[0].data| <= n
    ensures |Write(f)| <= 20 + n
  {
    if f != [] {
      assert f == [] + [f[0]];
      WriteOne([], f[0]);
      hide Varint;
      Pow128Of64();
      match f[0] {
        case Num(k, v) =>
          VarintSize((k * 8 + WIRE_VARINT) % U64, 10);
          VarintSize(v % U64, 10);
        case Blob(k, data) =>
          VarintSize((k * 8 + WIRE_LEN) % U64, 10);
          VarintSize(|data| % U64, 10);
      }
    }
  }

  /** A location without an anchor is short. */
  lemma LocSize(l: Location)
    requires l.anchorNodeId == []
    ensures |LocBytes(l)| <= 240
  {
    hide Write, HlcBytes, ZigzagEncode;
    var g2 := NumField(1, l.source) + NumField(2, l.frame);
    var g3 := g2 + SintField(3, l.latE7);
    var g4 := g3 + SintField(4, l.lngE7);
    var g5 := g4 + NumField(5, l.accuracyM);
    var g6 := g5 + ObservedField(l.observedAt);
    var g7 := g6 + BlobField(7, l.anchorNodeId);
    var g8 := g7 + NumField(8, l.distanceM);
    HlcSize(l.observedAt);
    WriteConcat(NumField(1, l.source), NumField(2, l.frame));
    OneSize(NumField(1, l.source), 0);
    OneSize(NumField(2, l.frame), 0);
    WriteConcat(g2, SintField(3, l.latE7));
    OneSize(SintField(3, l.latE7), 0);
    WriteConcat(g3, SintField(4, l.lngE7));
    OneSize(SintField(4, l.lngE7), 0);
    WriteConcat(g4, NumField(5, l.accuracyM));
    OneSize(NumField(5, l.accuracyM), 0);
    WriteConcat(g5, ObservedField(l.observedAt));
    OneSize(ObservedField(l.observedAt), 40);
    WriteConcat(g6, BlobField(7, l.anchorNodeId));
    OneSize(BlobField(7, l.anchorNodeId), 0);
    WriteConcat(g7, NumField(8, l.distanceM));
    OneSize(NumField(8, l.distanceM), 0);
    WriteConcat(g8, BearingField(l.bearingDeg));
    OneSize(BearingField(l.bearingDeg), 0);
  }

  lemma TwoSizes(f: seq<Field>, n: nat, g: seq<Field>, m: nat)
    requires |f| <= 1 && (f != [] && f[0].Blob? ==> |f[0].data| <= n)
    requires |g| <= 1 && (g != [] && g[0].Blob? ==> |g[0].data| <= m)
    ensures |Write(f + g)| <= 40 + n + m
  {
    hide Write;
    WriteConcat(f, g);
    OneSize(f, n);
    OneSize(g, m);
  }

  method EncodeLocation(l: Location) returns (b: Bytes)
    ensures b == LocBytes(l)
  {
    hide Write, HlcBytes, NumField, SintField, BlobField;
    var w := new ProtoWriter();
    w.PutUint(1, l.source);
    w.PutUint(2, l.frame);
    w.PutSint64(3, l.latE7);
    w.PutSint64(4, l.lngE7);
    w.PutUint(5, l.accuracyM);
    ghost var g := w.fields;
    assert g == NumField(1, l.source) + NumField(2, l.frame) + SintField(3, l.latE7) + SintField(4, l.lngE7) + NumField(5, l.accuracyM);
    if l.observedAt.ms != 0 || l.observedAt.counter != 0 {
      var observed := EncodeHlc(l.observedAt);
      w.PutBytesAlways(6, observed);
    }
    assert w.fields == g + ObservedField(l.observedAt);
    w.PutBytes(7, l.anchorNodeId);
    w.PutUint(8, l.distanceM);
    if l.bearingDeg.Some? {
      w.PutUint(9, l.bearingDeg.value + 1);
    }
    assert w.fields == LocFields(l);
    b := w.buf;
  }

  method DecodeLocation(data: Bytes) returns (res: Res<Location>)
    ensures res == LocOf(data)
  {
    var r := new ProtoReader(data);
    var l := LOC_ZERO;
    while !r.AtEnd()
      invariant Decode(LOC, LocStep, r.Rest(), l) == LocOf(data)
      decreases |r.Rest()|
    {
      hide Decode, Turn;
      DecodeByTurns(LOC, LocStep, r.Rest(), l);
      l :- DecodeLocationField(r, l);
    }
    return Ok(l);
  }

  /** The body of the decode loop. */
  method DecodeLocationField(r: ProtoReader, acc: Location) returns (res: Res<Location>)
    modifies r
    ensures res.Ok? <==> Turn(LOC, LocStep, old(r.Rest()), acc).Ok?
    ensures res.Ok? ==> Turn(LOC, LocStep, old(r.Rest()), acc) == Ok((res.value, r.Rest()))
  {
    hide HlcOf, ZigzagDecode, ReadVarint, Skip, ReadLen;
    var l := acc;
    var tag :- r.GetVarint();
    var f := tag / 8;
    if f in LOC.varints {
      var v :- r.GetVarint();
      if f == 1 {
        l := l.(source := v);
      } else if f == 2 {
        l := l.(frame := v);
      } else if f == 3 {
        l := l.(latE7 := ZigzagDecode(v));
      } else if f == 4 {
        l := l.(lngE7 := ZigzagDecode(v));
      } else if f == 5 {
        l := l.(accuracyM := v);
      } else if f == 8 {
        l := l.(distanceM := v);
      } else {
        l := l.(bearingDeg := if v == 0 then None else Some(v - 1));
      }
    } else if f == 6 {
      var m :- r.GetLen();
      var h :- DecodeHlc(m);
      l := l.(observedAt := h);
    } else if f == 7 {
      var m :- r.GetLen();
      l := l.(anchorNodeId := m);
    } else {
      var _ :- r.SkipValue(tag % 8);
    }
    return Ok(l);
  }

  // ---------------------------------------------------------------- needs and status updates

  datatype Need = Need(category: nat, severity: nat, expiresAt: Hlc)

  const NEED := Schema({1, 2}, {3})
  const NEED_ZERO := Need(0, 0, HLC_ZERO)

  function NeedFields(n: Need): seq<Field> {
    NumField(1, n.category) + NumField(2, n.severity) + [Blob(3, HlcBytes(n.expiresAt))]
  }

  function NeedBytes(n: Need): Bytes {
    Write(NeedFields(n))
  }

  function NeedStep(n: Need, f: Field): Res<Need> {
    match f
    case Num(k, v) =>
      if k == 1 then Ok(n.(category := v))
      else if k == 2 then Ok(n.(severity := v))
      else Ok(n)
    case Blob(k, data) =>
      if k == 3 then
        var h :- HlcOf(data);
        Ok(n.(expiresAt := h))
      else Ok(n)
  }

  function NeedOf(s: Bytes): Res<Need> {
    Decode(NEED, NeedStep, s, NEED_ZERO)
  }

  predicate NeedFits(n: Need) {
    n.category < U64 && n.severity < U64 && HlcFits(n.expiresAt)
  }

  lemma NeedRoundTrip(n: Need)
    requires NeedFits(n)
    ensures NeedOf(NeedBytes(n)) == Ok(n)
  {
    hide Decode, Fold, Brings, HlcOf, HlcBytes, Write;
    var n1 := NEED_ZERO.(category := n.category);
    var n2 := n1.(severity := n.severity);
    var g1 := NumField(1, n.category);
    var g2 := g1 + NumField(2, n.severity);
    HlcRoundTrip(n.expiresAt);
    HlcSize(n.expiresAt);
    StageFirst(NEED, NeedStep, g1, NEED_ZERO, n1);
    Stage(NEED, NeedStep, g1, NumField(2, n.severity), NEED_ZERO, n1, n2);
    Stage(NEED, NeedStep, g2, [Blob(3, HlcBytes(n.expiresAt))], NEED_ZERO, n2, n);
    StageDone(NEED, NeedStep, NeedFields(n), NEED_ZERO, n);
  }

  /** A nested need is short. */
  lemma NeedSize(n: Need)
    ensures |NeedBytes(n)| <= 200
  {
    hide Write, HlcBytes;
    var g1, g2, g3 := NumField(1, n.category), NumField(2, n.severity), Blob(3, HlcBytes(n.expiresAt));
    NumSize(1, n.category);
    NumSize(2, n.severity);
    HlcSize(n.expiresAt);
    WriteConcat(g1, g2);
    WriteOne(g1 + g2, g3);
    Pow128Of64();
    VarintSize((3 * 8 + WIRE_LEN) % U64, 10);
    VarintSize(|g3.data| % U64, 10);
  }

  method EncodeNeed(n: Need) returns (b: Bytes)
    ensures b == NeedBytes(n)
  {
    hide Write, HlcBytes, NumField;
    var w := new ProtoWriter();
    w.PutUint(1, n.category);
    w.PutUint(2, n.severity);
    var expires := EncodeHlc(n.expiresAt);
    w.PutBytesAlways(3, expires);
    assert w.fields == NeedFields(n);
    b := w.buf;
  }

  method DecodeNeed(data: Bytes) returns (res: Res<Need>)
    ensures res == NeedOf(data)
  {
    var r := new ProtoReader(data);
    var acc := NEED_ZERO;
    while !r.AtEnd()
      invariant Decode(NEED, NeedStep, r.Rest(), acc) == NeedOf(data)
      decreases |r.Rest()|
    {
      hide Decode, Turn;
      DecodeByTurns(NEED, NeedStep, r.Rest(), acc);
      acc :- DecodeNeedField(r, acc);
    }
    return Ok(acc);
  }

  /** The body of the decode loop. */
  method DecodeNeedField(r: ProtoReader, acc: Need) returns (res: Res<Need>)
    modifies r
    ensures res.Ok? <==> Turn(NEED, NeedStep, old(r.Rest()), acc).Ok?
    ensures res.Ok? ==> Turn(NEED, NeedStep, old(r.Rest()), acc) == Ok((res.value, r.Rest()))
  {
    hide HlcOf, ReadVarint, Skip, ReadLen;
    var tag :- r.GetVarint();
    if tag / 8 == 1 {
      var v :- r.GetVarint();
      return Ok(acc.(category := v));
    } else if tag / 8 == 2 {
      var v :- r.GetVarint();
      return Ok(acc.(severity := v));
    } else if tag / 8 == 3 {
      var m :- r.GetLen();
      var h :- DecodeHlc(m);
      return Ok(acc.(expiresAt := h));
    } else {
      var _ :- r.SkipValue(tag % 8);
      return Ok(acc);
    }
  }

  datatype Status = Status(safetyState: nat, needs: seq<Need>, location: Option<Location>)

  const STATUS := Schema({1}, {2, 3})
  const STATUS_ZERO := Status(0, [], None)

  function NeedsFields(ns: seq<Need>): seq<Field> {
    seq(|ns|, i requires 0 <= i < |ns| => Blob(2, NeedBytes(ns[i])))
  }

  function StatusFields(s: Status): seq<Field> {
    NumField(1, s.safetyState) + NeedsFields(s.needs)
    + if s.location.None? then [] else [Blob(3, LocBytes(s.location.value))]
  }

  function StatusBytes(s: Status): Bytes {
    Write(StatusFields(s))
  }

  function StatusStep(s: Status, f: Field): Res<Status> {
    match f
    case Num(k, v) =>
      if k == 1 then Ok(s.(safetyState := v)) else Ok(s)
    case Blob(k, data) =>
      if k == 2 then
        var n :- NeedOf(data);
        Ok(s.(needs := s.needs + [n]))
      else if k == 3 then
        var l :- LocOf(data);
        Ok(s.(location := Some(l)))
      else Ok(s)
  }

  function StatusOf(s: Bytes): Res<Status> {
    Decode(STATUS, StatusStep, s, STATUS_ZERO)
  }

  predicate StatusFits(s: Status) {
    && s.safetyState < U64
    && (forall n | n in s.needs :: NeedFits(n))
    && (s.location.Some? ==> LocFits(s.location.value) && |LocBytes(s.location.value)| < U64)
  }

  lemma {:induction false} NeedsStage(g: seq<Field>, ns: seq<Need>, mid: Status)
    requires Brings(STATUS, StatusStep, g, STATUS_ZERO, mid)
    requires forall n | n in ns :: NeedFits(n)
    ensures Brings(STATUS, StatusStep, g + NeedsFields(ns), STATUS_ZERO, mid.(needs := mid.needs + ns))
    decreases |ns|
  {
    hide Decode, Fold, Brings, NeedOf, NeedBytes, Write;
    if ns == [] {
      assert g + NeedsFields(ns) == g && mid.needs + ns == mid.needs;
    } else {
      var f := [Blob(2, NeedBytes(ns[0]))];
      var mid' := mid.(needs := mid.needs + [ns[0]]);
      NeedRoundTrip(ns[0]);
      NeedSize(ns[0]);
      Stage(STATUS, StatusStep, g, f, STATUS_ZERO, mid, mid');
      NeedsStage(g + f, ns[1..], mid');
      assert g + NeedsFields(ns) == g + f + NeedsFields(ns[1..]);
      assert mid.needs + ns == mid'.needs + ns[1..];
    }
  }

  /** A status update survives with any number of needs, an absent location staying distinct
      from one at its defaults. */
  lemma StatusRoundTrip(s: Status)
    requires StatusFits(s)
    ensures StatusOf(StatusBytes(s)) == Ok(s)
  {
    hide Decode, Fold, Brings, LocOf, LocBytes, Write;
    var s1 := STATUS_ZERO.(safetyState := s.safetyState);
    var s2 := s1.(needs := s.needs);
    var g1 := NumField(1, s.safetyState);
    var g2 := g1 + NeedsFields(s.needs);
    StageFirst(STATUS, StatusStep, g1, STATUS_ZERO, s1);
    NeedsStage(g1, s.needs, s1);
    assert s1.needs + s.needs == s.needs;
    if s.location.Some? {
      LocRoundTrip(s.location.value);
    }
    Stage(STATUS, StatusStep, g2, if s.location.None? then [] else [Blob(3, LocBytes(s.location.value))], STATUS_ZERO, s2, s);
    StageDone(STATUS, StatusStep, StatusFields(s), STATUS_ZERO, s);
  }

  method EncodeStatus(s: Status) returns (b: Bytes)
    ensures b == StatusBytes(s)
  {
    hide Write, NeedBytes, LocBytes, NumField;
    var w := new ProtoWriter();
    w.PutUint(1, s.safetyState);
    for i := 0 to |s.needs|
      invariant w.Valid() && w.fields == NumField(1, s.safetyState) + NeedsFields(s.needs)[..i]
    {
      var need := EncodeNeed(s.needs[i]);
      w.PutBytesAlways(2, need);
    }
    if s.location.Some? {
      var loc := EncodeLocation(s.location.value);
      w.PutBytesAlways(3, loc);
    }
    assert w.fields == StatusFields(s);
    b := w.buf;
  }

  method DecodeStatus(data: Bytes) returns (res: Res<Status>)
    ensures res == StatusOf(data)
  {
    var r := new ProtoReader(data);
    var acc := STATUS_ZERO;
    while !r.AtEnd()
      invariant Decode(STATUS, StatusStep, r.Rest(), acc) == StatusOf(data)
      decreases |r.Rest()|
    {
      hide Decode, Turn;
      DecodeByTurns(STATUS, StatusStep, r.Rest(), acc);
      acc :- DecodeStatusField(r, acc);
    }
    return Ok(acc);
  }

  /** The body of the decode loop. */
  method DecodeStatusField(r: ProtoReader, acc: Status) returns (res: Res<Status>)
    modifies r
    ensures res.Ok? <==> Turn(STATUS, StatusStep, old(r.Rest()), acc).Ok?
    ensures res.Ok? ==> Turn(STATUS, StatusStep, old(r.Rest()), acc) == Ok((res.value, r.Rest()))
  {
    hide LocOf, NeedOf, ReadVarint, Skip, ReadLen;
    var tag :- r.GetVarint();
    if tag / 8 == 1 {
      var v :- r.GetVarint();
      return Ok(acc.(safetyState := v));
    } else if tag / 8 == 2 {
      var m :- r.GetLen();
      var n :- DecodeNeed(m);
      return Ok(acc.(needs := acc.needs + [n]));
    } else if tag / 8 == 3 {
      var m :- r.GetLen();
      var l :- DecodeLocation(m);
      return Ok(acc.(location := Some(l)));
    } else {
      var _ :- r.SkipValue(tag % 8);
      return Ok(acc);
    }
  }

  // ---------------------------------------------------------------- presence and checkpoints

  datatype Presence = Presence(anonUserId: Bytes, location: Location, batteryHint: nat)

  const PRESENCE := Schema({3}, {1, 2})
  const PRESENCE_ZERO := Presence([], LOC_ZERO, 0)

  function PresenceFields(p: Presence): seq<Field> {
    BlobField(1, p.anonUserId) + BlobField(2, LocBytes(p.location)) + NumField(3, p.batteryHint)
  }

  function PresenceBytes(p: Presence): Bytes {
    Write(PresenceFields(p))
  }

  function PresenceStep(p: Presence, f: Field): Res<Presence> {
    match f
    case Num(k, v) =>
      if k == 3 then Ok(p.(batteryHint := v)) else Ok(p)
    case Blob(k, data) =>
      if k == 1 then Ok(p.(anonUserId := data))
      else if k == 2 then
        var l :- LocOf(data);
        Ok(p.(location := l))
      else Ok(p)
  }

  function PresenceOf(s: Bytes): Res<Presence> {
    Decode(PRESENCE, PresenceStep, s, PRESENCE_ZERO)
  }

  predicate PresenceFits(p: Presence) {
    |p.anonUserId| < U64 && LocFits(p.location) && |LocBytes(p.location)| < U64 && p.batteryHint < U64
  }

  lemma PresenceRoundTrip(p: Presence)
    requires PresenceFits(p)
    ensures PresenceOf(PresenceBytes(p)) == Ok(p)
  {
    hide Decode, Fold, Brings, LocOf, LocBytes, Write;
    var p1 := PRESENCE_ZERO.(anonUserId := p.anonUserId);
    var p2 := p1.(location := p.location);
    var g1 := BlobField(1, p.anonUserId);
    var g2 := g1 + BlobField(2, LocBytes(p.location));
    LocRoundTrip(p.location);
    LocEmpty(p.location);
    StageFirst(PRESENCE, PresenceStep, g1, PRESENCE_ZERO, p1);
    Stage(PRESENCE, PresenceStep, g1, BlobField(2, LocBytes(p.location)), PRESENCE_ZERO, p1, p2);
    Stage(PRESENCE, PresenceStep, g2, NumField(3, p.batteryHint), PRESENCE_ZERO, p2, p);
    StageDone(PRESENCE, PresenceStep, PresenceFields(p), PRESENCE_ZERO, p);
  }

  method EncodePresence(p: Presence) returns (b: Bytes)
    ensures b == PresenceBytes(p)
  {
    hide Write, LocBytes;
    var w := new ProtoWriter();
    w.PutBytes(1, p.anonUserId);
    var loc := EncodeLocation(p.location);
    if loc != [] {
      w.PutBytesAlways(2, loc);
    }
    w.PutUint(3, p.batteryHint);
    assert w.fields == PresenceFields(p);
    b := w.buf;
  }

  method DecodePresence(data: Bytes) returns (res: Res<Presence>)
    ensures res == PresenceOf(data)
  {
    var r := new ProtoReader(data);
    var acc := PRESENCE_ZERO;
    while !r.AtEnd()
      invariant Decode(PRESENCE, PresenceStep, r.Rest(), acc) == PresenceOf(data)
      decreases |r.Rest()|
    {
      hide Decode, Turn;
      DecodeByTurns(PRESENCE, PresenceStep, r.Rest(), acc);
      acc :- DecodePresenceField(r, acc);
    }
    return Ok(acc);
  }

  /** The body of the decode loop. */
  method DecodePresenceField(r: ProtoReader, acc: Presence) returns (res: Res<Presence>)
    modifies r
    ensures res.Ok? <==> Turn(PRESENCE, PresenceStep, old(r.Rest()), acc).Ok?
    ensures res.Ok? ==> Turn(PRESENCE, PresenceStep, old(r.Rest()), acc) == Ok((res.value, r.Rest()))
  {
    hide LocOf, ReadVarint, Skip, ReadLen;
    var tag :- r.GetVarint();
    if tag / 8 == 1 {
      var m :- r.GetLen();
      return Ok(acc.(anonUserId := m));
    } else if tag / 8 == 2 {
      var m :- r.GetLen();
      var l :- DecodeLocation(m);
      return Ok(acc.(location := l));
    } else if tag / 8 == 3 {
      var v :- r.GetVarint();
      return Ok(acc.(batteryHint := v));
    } else {
      var _ :- r.SkipValue(tag % 8);
      return Ok(acc);
    }
  }

  datatype Checkpoint = Checkpoint(anonUserId: Bytes, checkpointId: Bytes, location: Location)

  const CHECKPOINT := Schema({}, {1, 2, 3})
  const CHECKPOINT_ZERO := Checkpoint([], [], LOC_ZERO)

  function CheckpointFields(k: Checkpoint): seq<Field> {
    BlobField(1, k.anonUserId) + BlobField(2, k.checkpointId) + BlobField(3, LocBytes(k.location))
  }

  function CheckpointBytes(k: Checkpoint): Bytes {
    Write(CheckpointFields(k))
  }

  function CheckpointStep(k: Checkpoint, f: Field): Res<Checkpoint> {
    if f.Num? then Ok(k)
    else if f.number == 1 then Ok(k.(anonUserId := f.data))
    else if f.number == 2 then Ok(k.(checkpointId := f.data))
    else if f.number == 3 then
      var l :- LocOf(f.data);
      Ok(k.(location := l))
    else Ok(k)
  }

  function CheckpointOf(s: Bytes): Res<Checkpoint> {
    Decode(CHECKPOINT, CheckpointStep, s, CHECKPOINT_ZERO)
  }

  predicate CheckpointFits(k: Checkpoint) {
    |k.anonUserId| < U64 && |k.checkpointId| < U64 && LocFits(k.location) && |LocBytes(k.location)| < U64
  }

  lemma CheckpointRoundTrip(k: Checkpoint)
    requires CheckpointFits(k)
    ensures CheckpointOf(CheckpointBytes(k)) == Ok(k)
  {
    hide Decode, Fold, Brings, LocOf, LocBytes, Write;
    var k1 := CHECKPOINT_ZERO.(anonUserId := k.anonUserId);
    var k2 := k1.(checkpointId := k.checkpointId);
    var g1 := BlobField(1, k.anonUserId);
    var g2 := g1 + BlobField(2, k.checkpointId);
    LocRoundTrip(k.location);
    LocEmpty(k.location);
    StageFirst(CHECKPOINT, CheckpointStep, g1, CHECKPOINT_ZERO, k1);
    Stage(CHECKPOINT, CheckpointStep, g1, BlobField(2, k.checkpointId), CHECKPOINT_ZERO, k1, k2);
    Stage(CHECKPOINT, CheckpointStep, g2, BlobField(3, LocBytes(k.location)), CHECKPOINT_ZERO, k2, k);
    StageDone(CHECKPOINT, CheckpointStep, CheckpointFields(k), CHECKPOINT_ZERO, k);
  }

  method EncodeCheckpoint(k: Checkpoint) returns (b: Bytes)
    ensures b == CheckpointBytes(k)
  {
    hide Write, LocBytes;
    var w := new ProtoWriter();
    w.PutBytes(1, k.anonUserId);
    w.PutBytes(2, k.checkpointId);
    var loc := EncodeLocation(k.location);
    if loc != [] {
      w.PutBytesAlways(3, loc);
    }
    assert w.fields == CheckpointFields(k);
    b := w.buf;
  }

  method DecodeCheckpoint(data: Bytes) returns (res: Res<Checkpoint>)
    ensures res == CheckpointOf(data)
  {
    var r := new ProtoReader(data);
    var acc := CHECKPOINT_ZERO;
    while !r.AtEnd()
      invariant Decode(CHECKPOINT, CheckpointStep, r.Rest(), acc) == CheckpointOf(data)
      decreases |r.Rest()|
    {
      hide Decode, Turn;
      DecodeByTurns(CHECKPOINT, CheckpointStep, r.Rest(), acc);
      acc :- DecodeCheckpointField(r, acc);
    }
    return Ok(acc);
  }

  /** The body of the decode loop. */
  method DecodeCheckpointField(r: ProtoReader, acc: Checkpoint) returns (res: Res<Checkpoint>)
    modifies r
    ensures res.Ok? <==> Turn(CHECKPOINT, CheckpointStep, old(r.Rest()), acc).Ok?
    ensures res.Ok? ==> Turn(CHECKPOINT, CheckpointStep, old(r.Rest()), acc) == Ok((res.value, r.Rest()))
  {
    hide LocOf, ReadVarint, Skip, ReadLen;
    var tag :- r.GetVarint();
    if tag / 8 == 1 {
      var m :- r.GetLen();
      return Ok(acc.(anonUserId := m));
    } else if tag / 8 == 2 {
      var m :- r.GetLen();
      return Ok(acc.(checkpointId := m));
    } else if tag / 8 == 3 {
      var m :- r.GetLen();
      var l :- DecodeLocation(m);
      return Ok(acc.(location := l));
    } else {
      var _ :- r.SkipValue(tag % 8);
      return Ok(acc);
    }
  }

  // ---------------------------------------------------------------- the envelope

  datatype Envelope = Envelope(
    protocolVersion: nat, envelopeId: Bytes, eventType: nat, priority: nat,
    createdAt: Hlc, expiresAt: Hlc, maxHops: nat, authorKey: Bytes, sigAlgo: nat,
    signature: Bytes, payload: Bytes, lastRelayId: Bytes, isExperimental: bool,
    fieldId: Bytes, fieldMac: Bytes)

  const ENVELOPE := Schema({1, 3, 4, 7, 9, 13}, {2, 5, 6, 8, 10, 11, 12, 14, 15})

  function EnvelopeHead(e: Envelope): seq<Field> {
    NumField(1, e.protocolVersion) + BlobField(2, e.envelopeId) + NumField(3, e.eventType)
    + NumField(4, e.priority) + [Blob(5, HlcBytes(e.createdAt))]
  }

  function EnvelopeMiddle(e: Envelope): seq<Field> {
    [Blob(6, HlcBytes(e.expiresAt))] + NumField(7, e.maxHops) + BlobField(8, e.authorKey)
    + NumField(9, e.sigAlgo) + BlobField(10, e.signature)
  }

  function EnvelopeTail(e: Envelope): seq<Field> {
    [Blob(11, e.payload)] + BlobField(12, e.lastRelayId) + NumField(13, if e.isExperimental then 1 else 0)
    + BlobField(14, e.fieldId) + BlobField(15, e.fieldMac)
  }

  function EnvelopeFields(e: Envelope): seq<Field> {
    EnvelopeHead(e) + EnvelopeMiddle(e) + EnvelopeTail(e)
  }

  function EnvelopeBytes(e: Envelope): Bytes {
    Write(EnvelopeFields(e))
  }

  /** The locals of the decode loop. */
  datatype Partial = Partial(
    protocolVersion: nat, versionSeen: bool, envelopeId: Option<Bytes>, eventType: nat, priority: nat,
    createdAt: Option<Hlc>, expiresAt: Option<Hlc>, maxHops: nat, authorKey: Option<Bytes>,
    sigAlgo: nat, sigAlgoSeen: bool, signature: Option<Bytes>, payload: Option<Bytes>,
    lastRelayId: Bytes, isExperimental: bool, fieldId: Option<Bytes>, fieldMac: Bytes)

  const PARTIAL_ZERO := Partial(0, false, None, 0, 0, None, None, 0, None, 0, false, None, None, [], false, None, [])

  function EnvelopeNum(p: Partial, n: nat, v: nat): Partial {
    if n == 1 then p.(protocolVersion := v, versionSeen := true)
    else if n == 3 then p.(eventType := v)
    else if n == 4 then p.(priority := v)
    else if n == 7 then p.(maxHops := v)
    else if n == 9 then p.(sigAlgo := v, sigAlgoSeen := true)
    else if n == 13 then p.(isExperimental := v != 0)
    else p
  }

  function EnvelopeBlob(p: Partial, n: nat, data: Bytes): Res<Partial> {
    if n == 2 then Ok(p.(envelopeId := Some(data)))
    else if n == 5 then
      var h :- HlcOf(data);
      Ok(p.(createdAt := Some(h)))
    else if n == 6 then
      var h :- HlcOf(data);
      Ok(p.(expiresAt := Some(h)))
    else if n == 8 then Ok(p.(authorKey := Some(data)))
    else if n == 10 then Ok(p.(signature := Some(data)))
    else if n == 11 then Ok(p.(payload := Some(data)))
    else if n == 12 then Ok(p.(lastRelayId := data))
    else if n == 14 then Ok(p.(fieldId := Some(data)))
    else if n == 15 then Ok(p.(fieldMac := data))
    else Ok(p)
  }

  function EnvelopeStep(p: Partial, f: Field): Res<Partial> {
    match f
    case Num(n, v) => Ok(EnvelopeNum(p, n, v))
    case Blob(n, data) => EnvelopeBlob(p, n, data)
  }

  /** Required-field enforcement once the message is read. */
  function Finish(p: Partial): Res<Envelope> {
    if !p.versionSeen || p.protocolVersion == 0 then Malformed
    else if p.envelopeId.None? || |p.envelopeId.value| != 16 then Malformed
    else if p.eventType == 0 then Malformed
    else if p.priority == 0 then Malformed
    else if p.createdAt.None? then Malformed
    else if p.expiresAt.None? then Malformed
    else if p.authorKey.None? || |p.authorKey.value| != 32 then Malformed
    else if !p.sigAlgoSeen then Malformed
    else if p.signature.None? || |p.signature.value| != 64 then Malformed
    else if p.payload.None? then Malformed
    else if p.fieldId.None? || |p.fieldId.value| != 16 then Malformed
    else if p.fieldMac != [] && |p.fieldMac| != 16 then Malformed
    else Ok(Envelope(
      p.protocolVersion, p.envelopeId.value, p.eventType, p.priority, p.createdAt.value, p.expiresAt.value,
      p.maxHops, p.authorKey.value, p.sigAlgo, p.signature.value, p.payload.value, p.lastRelayId,
      p.isExperimental, p.fieldId.value, p.fieldMac))
  }

  function EnvelopeOf(s: Bytes): Res<Envelope> {
    var p :- Decode(ENVELOPE, EnvelopeStep, s, PARTIAL_ZERO);
    Finish(p)
  }

  /** The field rules an envelope must meet to be readable at all. */
  predicate Required(e: Envelope) {
    && e.protocolVersion != 0 && |e.envelopeId| == 16 && e.eventType != 0 && e.priority != 0
    && |e.authorKey| == 32 && e.sigAlgo != 0 && |e.signature| == 64 && |e.fieldId| == 16
    && (e.fieldMac == [] || |e.fieldMac| == 16)
  }

  /** The numbers are 64-bit and no byte string is longer than a 64-bit length can say. */
  predicate EnvelopeFits(e: Envelope) {
    && e.protocolVersion < U64 && e.eventType < U64 && e.priority < U64 && e.maxHops < U64 && e.sigAlgo < U64
    && HlcFits(e.createdAt) && HlcFits(e.expiresAt)
    && |e.envelopeId| < U64 && |e.authorKey| < U64 && |e.signature| < U64 && |e.payload| < U64
    && |e.lastRelayId| < U64 && |e.fieldId| < U64 && |e.fieldMac| < U64
  }

  function Present(data: Bytes): Option<Bytes> {
    if data == [] then None else Some(data)
  }

  function AfterHead(e: Envelope): Partial {
    PARTIAL_ZERO.(
      protocolVersion := e.protocolVersion, versionSeen := e.protocolVersion != 0,
      envelopeId := Present(e.envelopeId), eventType := e.eventType, priority := e.priority,
      createdAt := Some(e.createdAt))
  }

  function AfterMiddle(e: Envelope): Partial {
    AfterHead(e).(
      expiresAt := Some(e.expiresAt), maxHops := e.maxHops, authorKey := Present(e.authorKey),
      sigAlgo := e.sigAlgo, sigAlgoSeen := e.sigAlgo != 0, signature := Present(e.signature))
  }

  function AfterTail(e: Envelope): Partial {
    AfterMiddle(e).(
      payload := Some(e.payload), lastRelayId := e.lastRelayId, isExperimental := e.isExperimental,
      fieldId := Present(e.fieldId), fieldMac := e.fieldMac)
  }

  function WithNum(p: Partial, n: nat, v: nat): Partial {
    if v == 0 then p else EnvelopeNum(p, n, v)
  }

  lemma NumStage(g: seq<Field>, n: nat, v: nat, mid: Partial)
    requires Brings(ENVELOPE, EnvelopeStep, g, PARTIAL_ZERO, mid)
    requires n in ENVELOPE.varints && v < U64
    ensures Brings(ENVELOPE, EnvelopeStep, g + NumField(n, v), PARTIAL_ZERO, WithNum(mid, n, v))
  {
    hide Brings, EnvelopeNum;
    Stage(ENVELOPE, EnvelopeStep, g, NumField(n, v), PARTIAL_ZERO, mid, WithNum(mid, n, v));
  }

  lemma BlobStage(g: seq<Field>, n: nat, data: Bytes, mid: Partial, mid': Partial)
    requires Brings(ENVELOPE, EnvelopeStep, g, PARTIAL_ZERO, mid)
    requires n in ENVELOPE.lens && |data| < U64
    requires EnvelopeBlob(mid, n, data) == Ok(mid')
    ensures Brings(ENVELOPE, EnvelopeStep, g + [Blob(n, data)], PARTIAL_ZERO, mid')
    ensures data != [] ==> Brings(ENVELOPE, EnvelopeStep, g + BlobField(n, data), PARTIAL_ZERO, mid')
    ensures data == [] ==> Brings(ENVELOPE, EnvelopeStep, g + BlobField(n, data), PARTIAL_ZERO, mid)
  {
    hide Brings, EnvelopeBlob;
    Stage(ENVELOPE, EnvelopeStep, g, [Blob(n, data)], PARTIAL_ZERO, mid, mid');
    assert g + [] == g;
  }

  lemma HlcStage(g: seq<Field>, n: nat, h: Hlc, mid: Partial, mid': Partial)
    requires Brings(ENVELOPE, EnvelopeStep, g, PARTIAL_ZERO, mid)
    requires n == 5 || n == 6
    requires HlcFits(h) && mid' == if n == 5 then mid.(createdAt := Some(h)) else mid.(expiresAt := Some(h))
    ensures Brings(ENVELOPE, EnvelopeStep, g + [Blob(n, HlcBytes(h))], PARTIAL_ZERO, mid')
  {
    hide Brings, HlcOf, HlcBytes;
    HlcRoundTrip(h);
    HlcSize(h);
    BlobStage(g, n, HlcBytes(h), mid, mid');
  }

  lemma HeadStage(e: Envelope)
    requires EnvelopeFits(e)
    ensures Brings(ENVELOPE, EnvelopeStep, EnvelopeHead(e), PARTIAL_ZERO, AfterHead(e))
  {
    StageFirst(ENVELOPE, EnvelopeStep, [], PARTIAL_ZERO, PARTIAL_ZERO);
    hide Brings, HlcBytes, Write, EnvelopeStep;
    var p1 := PARTIAL_ZERO.(protocolVersion := e.protocolVersion, versionSeen := e.protocolVersion != 0);
    var p2 := p1.(envelopeId := Present(e.envelopeId));
    var p3 := p2.(eventType := e.eventType);
    var p4 := p3.(priority := e.priority);
    var g1 := NumField(1, e.protocolVersion);
    var g2 := g1 + BlobField(2, e.envelopeId);
    var g3 := g2 + NumField(3, e.eventType);
    var g4 := g3 + NumField(4, e.priority);
    assert [] + g1 == g1;
    NumStage([], 1, e.protocolVersion, PARTIAL_ZERO);
    BlobStage(g1, 2, e.envelopeId, p1, p1.(envelopeId := Some(e.envelopeId)));
    NumStage(g2, 3, e.eventType, p2);
    NumStage(g3, 4, e.priority, p3);
    HlcStage(g4, 5, e.createdAt, p4, AfterHead(e));
  }

  lemma MiddleStage(e: Envelope, g: seq<Field>)
    requires EnvelopeFits(e)
    requires Brings(ENVELOPE, EnvelopeStep, g, PARTIAL_ZERO, AfterHead(e))
    ensures Brings(ENVELOPE, EnvelopeStep, g + EnvelopeMiddle(e), PARTIAL_ZERO, AfterMiddle(e))
  {
    hide Brings, HlcBytes, Write, EnvelopeStep, NumField, BlobField;
    var p1 := AfterHead(e).(expiresAt := Some(e.expiresAt));
    var p2 := p1.(maxHops := e.maxHops);
    var p3 := p2.(authorKey := Present(e.authorKey));
    var p4 := p3.(sigAlgo := e.sigAlgo, sigAlgoSeen := e.sigAlgo != 0);
    var g1 := g + [Blob(6, HlcBytes(e.expiresAt))];
    var g2 := g1 + NumField(7, e.maxHops);
    var g3 := g2 + BlobField(8, e.authorKey);
    var g4 := g3 + NumField(9, e.sigAlgo);
    HlcStage(g, 6, e.expiresAt, AfterHead(e), p1);
    NumStage(g1, 7, e.maxHops, p1);
    BlobStage(g2, 8, e.authorKey, p2, p2.(authorKey := Some(e.authorKey)));
    NumStage(g3, 9, e.sigAlgo, p3);
    BlobStage(g4, 10, e.signature, p4, p4.(signature := Some(e.signature)));
    assert g4 + BlobField(10, e.signature) == g + EnvelopeMiddle(e);
  }

  lemma TailStage(e: Envelope, g: seq<Field>)
    requires EnvelopeFits(e)
    requires Brings(ENVELOPE, EnvelopeStep, g, PARTIAL_ZERO, AfterMiddle(e))
    ensures Brings(ENVELOPE, EnvelopeStep, g + EnvelopeTail(e), PARTIAL_ZERO, AfterTail(e))
  {
    hide Brings, Write, EnvelopeStep, NumField, BlobField;
    var flag := if e.isExperimental then 1 else 0;
    var p1 := AfterMiddle(e).(payload := Some(e.payload));
    var p2 := p1.(lastRelayId := e.lastRelayId);
    var p3 := p2.(isExperimental := e.isExperimental);
    var p4 := p3.(fieldId := Present(e.fieldId));
    var g1 := g + [Blob(11, e.payload)];
    var g2 := g1 + BlobField(12, e.lastRelayId);
    var g3 := g2 + NumField(13, flag);
    var g4 := g3 + BlobField(14, e.fieldId);
    BlobStage(g, 11, e.payload, AfterMiddle(e), p1);
    BlobStage(g1, 12, e.lastRelayId, p1, p2);
    NumStage(g2, 13, flag, p2);
    BlobStage(g3, 14, e.fieldId, p3, p3.(fieldId := Some(e.fieldId)));
    BlobStage(g4, 15, e.fieldMac, p4, AfterTail(e));
    assert g4 + BlobField(15, e.fieldMac) == g + EnvelopeTail(e);
  }

  lemma EnvelopeBrought(e: Envelope)
    requires EnvelopeFits(e)
    ensures Brings(ENVELOPE, EnvelopeStep, EnvelopeFields(e), PARTIAL_ZERO, AfterTail(e))
  {
    hide Brings, Write, EnvelopeHead, EnvelopeMiddle, EnvelopeTail;
    HeadStage(e);
    MiddleStage(e, EnvelopeHead(e));
    TailStage(e, EnvelopeHead(e) + EnvelopeMiddle(e));
  }

  /** The round trip, and exactly when it holds: an envelope meeting the field rules comes back
      whole, and one that breaks any of them (a zero version or signature algorithm, which the
      writer omits, included) is rejected by the reader. */
  lemma EnvelopeRoundTrip(e: Envelope)
    requires EnvelopeFits(e)
    ensures EnvelopeOf(EnvelopeBytes(e)) == if Required(e) then Ok(e) else Malformed
  {
    hide Decode, Fold, Brings, Write, EnvelopeHead, EnvelopeMiddle, EnvelopeTail;
    EnvelopeBrought(e);
    StageDone(ENVELOPE, EnvelopeStep, EnvelopeFields(e), PARTIAL_ZERO, AfterTail(e));
  }

  /** Whatever decodes meets the field rules, except that the signature algorithm, which must be
      present, may be an explicit zero. */
  lemma EnvelopeShape(data: Bytes)
    ensures EnvelopeOf(data).Ok? ==> Required(EnvelopeOf(data).value.(sigAlgo := SIG_ALGO_ED25519))
  {
    hide Decode;
  }

  /** Forward compatibility: an envelope written by a newer writer, with any number of fields above
      15 before, between and behind the known ones, reads as if they were not there. */
  lemma EnvelopeForwardCompatible(e: Envelope, items: seq<Item>)
    requires EnvelopeFits(e) && KnownFields(items) == EnvelopeFields(e)
    requires forall i | i in items && i.Unknown? :: i.alien.number > 15 && Foreign(ENVELOPE, i.alien)
    ensures EnvelopeOf(WriteItems(items)) == if Required(e) then Ok(e) else Malformed
  {
    hide Fields, Fold, Brings, Write, EnvelopeHead, EnvelopeMiddle, EnvelopeTail, Writable, Foreign, WriteItems, KnownFields;
    EnvelopeBrought(e);
    var fs := EnvelopeFields(e);
    BroughtWritable(fs, AfterTail(e));
    forall i | i in items ensures ItemFits(ENVELOPE, i) {
      if i.Known? {
        KnownIn(items, i);
      }
    }
    ItemsRead(ENVELOPE, items);
  }

  lemma BroughtWritable(fs: seq<Field>, p: Partial)
    requires Brings(ENVELOPE, EnvelopeStep, fs, PARTIAL_ZERO, p)
    ensures forall f | f in fs :: Writable(ENVELOPE, f)
    ensures Fold(EnvelopeStep, fs, PARTIAL_ZERO) == Ok(p)
  {
    hide Fold;
  }

  lemma {:induction false} KnownIn(items: seq<Item>, i: Item)
    requires i in items && i.Known?
    ensures i.field in KnownFields(items)
    decreases items
  {
    if i != items[0] {
      KnownIn(items[1..], i);
    }
  }

  /** The same of bytes: fields no decoder knows, behind complete fields, change nothing even when
      what follows them is not well formed. */
  lemma UnknownInEnvelope(before: Bytes, a: Alien, after: Bytes)
    requires Complete(ENVELOPE, before) && a.number > 15 && Foreign(ENVELOPE, a)
    ensures EnvelopeOf(before + WriteAlien(a) + after) == EnvelopeOf(before + after)
  {
    AlienComplete(ENVELOPE, a);
    UnknownFieldsIgnored(ENVELOPE, before, WriteAlien(a), after);
  }

  // ---------------------------------------------------------------- numbers wider than 64 bits

  /** An HLC whose milliseconds are the widest varint. */
  function WideClock(): Bytes {
    Varint(1 * 8 + WIRE_VARINT) + WIDEST
  }

  lemma WideClockReads()
    ensures HlcOf(WideClock()) == Ok(Hlc(WIDEST_VALUE, 0)) && |WideClock()| < U64
  {
    hide ReadVarint, Fields;
    TagParts(1, WIRE_VARINT);
    ReadWritten64(8, WIDEST);
    WidestReads([]);
    assert WIDEST + [] == WIDEST;
    assert NextField(HLC, WideClock()) == Ok(([Num(1, WIDEST_VALUE)], []));
    FieldsTurn(HLC, WideClock(), [Num(1, WIDEST_VALUE)], []);
    FieldsOfNothing(HLC);
    Fold1(HlcStep, Num(1, WIDEST_VALUE), HLC_ZERO);
  }

  /** The bytes of an envelope followed by a second, wider creation time. */
  function WideEnvelopeBytes(e: Envelope): Bytes {
    Write(EnvelopeFields(e) + [Blob(5, WideClock())])
  }

  /** It decodes, the last occurrence of a field counting, to a time of 70 bits. */
  lemma WideEnvelopeDecodes(e: Envelope)
    requires EnvelopeFits(e) && Required(e)
    ensures EnvelopeOf(WideEnvelopeBytes(e)) == Ok(e.(createdAt := Hlc(WIDEST_VALUE, 0)))
  {
    hide Decode, Fold, Brings, Write, EnvelopeHead, EnvelopeMiddle, EnvelopeTail, HlcOf, WideClock;
    EnvelopeBrought(e);
    WideClockReads();
    var p := AfterTail(e).(createdAt := Some(Hlc(WIDEST_VALUE, 0)));
    BlobStage(EnvelopeFields(e), 5, WideClock(), AfterTail(e), p);
    StageDone(ENVELOPE, EnvelopeStep, EnvelopeFields(e) + [Blob(5, WideClock())], PARTIAL_ZERO, p);
  }

  method EncodeEnvelope(e: Envelope) returns (b: Bytes)
    ensures b == EnvelopeBytes(e)
  {
    hide Write;
    var w := new ProtoWriter();
    PutHead(w, e);
    PutMiddle(w, e);
    PutTail(w, e);
    assert w.fields == EnvelopeFields(e);
    b := w.buf;
  }

  method PutHead(w: ProtoWriter, e: Envelope)
    requires w.Valid()
    modifies w
    ensures w.Valid() && w.fields == old(w.fields) + EnvelopeHead(e)
  {
    hide Write, HlcBytes, NumField, BlobField;
    w.PutUint(1, e.protocolVersion);
    w.PutBytes(2, e.envelopeId);
    w.PutUint(3, e.eventType);
    w.PutUint(4, e.priority);
    var created := EncodeHlc(e.createdAt);
    w.PutBytesAlways(5, created);
    assert w.fields == old(w.fields) + EnvelopeHead(e);
  }

  method PutMiddle(w: ProtoWriter, e: Envelope)
    requires w.Valid()
    modifies w
    ensures w.Valid() && w.fields == old(w.fields) + EnvelopeMiddle(e)
  {
    hide Write, HlcBytes, NumField, BlobField;
    var expires := EncodeHlc(e.expiresAt);
    w.PutBytesAlways(6, expires);
    w.PutUint(7, e.maxHops);
    w.PutBytes(8, e.authorKey);
    w.PutUint(9, e.sigAlgo);
    w.PutBytes(10, e.signature);
    assert w.fields == old(w.fields) + EnvelopeMiddle(e);
  }

  method PutTail(w: ProtoWriter, e: Envelope)
    requires w.Valid()
    modifies w
    ensures w.Valid() && w.fields == old(w.fields) + EnvelopeTail(e)
  {
    hide Write, HlcBytes, NumField, BlobField;
    w.PutBytesAlways(11, e.payload);
    w.PutBytes(12, e.lastRelayId);
    w.PutUint(13, if e.isExperimental then 1 else 0);
    w.PutBytes(14, e.fieldId);
    w.PutBytes(15, e.fieldMac);
    assert w.fields == old(w.fields) + EnvelopeTail(e);
  }

  method DecodeEnvelope(data: Bytes) returns (res: Res<Envelope>)
    ensures res == EnvelopeOf(data)
  {
    hide Finish;
    var r := new ProtoReader(data);
    var p := PARTIAL_ZERO;
    while !r.AtEnd()
      invariant Decode(ENVELOPE, EnvelopeStep, r.Rest(), p) == Decode(ENVELOPE, EnvelopeStep, data, PARTIAL_ZERO)
      decreases |r.Rest()|
    {
      hide Decode, Turn;
      DecodeByTurns(ENVELOPE, EnvelopeStep, r.Rest(), p);
      p :- DecodeEnvelopeField(r, p);
    }
    return Finish(p);
  }

  /** The body of the decode loop. */
  method DecodeEnvelopeField(r: ProtoReader, acc: Partial) returns (res: Res<Partial>)
    modifies r
    ensures res.Ok? <==> Turn(ENVELOPE, EnvelopeStep, old(r.Rest()), acc).Ok?
    ensures res.Ok? ==> Turn(ENVELOPE, EnvelopeStep, old(r.Rest()), acc) == Ok((res.value, r.Rest()))
  {
    hide HlcOf, ReadVarint, Skip, ReadLen, EnvelopeNum, EnvelopeBlob;
    var tag :- r.GetVarint();
    var f := tag / 8;
    if f in ENVELOPE.varints {
      var v :- r.GetVarint();
      var p := StoreNum(acc, f, v);
      return Ok(p);
    } else if f in ENVELOPE.lens {
      var data :- r.GetLen();
      res := StoreBlob(acc, f, data);
    } else {
      var _ :- r.SkipValue(tag % 8);
      return Ok(acc);
    }
  }

  method StoreNum(acc: Partial, f: nat, v: nat) returns (p: Partial)
    ensures p == EnvelopeNum(acc, f, v)
  {
    p := acc;
    if f == 1 {
      p := p.(protocolVersion := v, versionSeen := true);
    } else if f == 3 {
      p := p.(eventType := v);
    } else if f == 4 {
      p := p.(priority := v);
    } else if f == 7 {
      p := p.(maxHops := v);
    } else if f == 9 {
      p := p.(sigAlgo := v, sigAlgoSeen := true);
    } else if f == 13 {
      p := p.(isExperimental := v != 0);
    }
  }

  method StoreBlob(acc: Partial, f: nat, data: Bytes) returns (res: Res<Partial>)
    ensures res == EnvelopeBlob(acc, f, data)
  {
    var p := acc;
    if f == 2 {
      p := p.(envelopeId := Some(data));
    } else if f == 5 {
      var h :- DecodeHlc(data);
      p := p.(createdAt := Some(h));
    } else if f == 6 {
      var h :- DecodeHlc(data);
      p := p.(expiresAt := Some(h));
    } else if f == 8 {
      p := p.(authorKey := Some(data));
    } else if f == 10 {
      p := p.(signature := Some(data));
    } else if f == 11 {
      p := p.(payload := Some(data));
    } else if f == 12 {
      p := p.(lastRelayId := data);
    } else if f == 14 {
      p := p.(fieldId := Some(data));
    } else if f == 15 {
      p := p.(fieldMac := data);
    }
    return Ok(p);
  }

  // ---------------------------------------------------------------- canonical signature input

  /** The thirteen values a signature covers. */
  datatype Claim = Claim(
    protocolVersion: nat, envelopeId: Bytes, fieldId: Bytes, eventType: nat, priority: nat,
    createdAt: Hlc, expiresAt: Hlc, maxHops: nat, authorKey: Bytes, sigAlgo: nat, payloadSha256: Bytes)

  /** What packing demands; it raises otherwise. */
  predicate Packable(k: Claim) {
    && |k.envelopeId| == 16 && |k.fieldId| == 16 && |k.authorKey| == 32 && |k.payloadSha256| == 32
    && k.protocolVersion < U32 && k.eventType < U32 && k.priority < U32
    && k.createdAt.ms < U64 && k.createdAt.counter < U32
    && k.expiresAt.ms < U64 && k.expiresAt.counter < U32
    && k.maxHops < U32 && k.sigAlgo < 256
  }

  function ScopePart(k: Claim): Bytes {
    Le(k.protocolVersion, 4) + ([16] + (k.envelopeId + ([16] + k.fieldId)))
  }

  function NumberPart(k: Claim): Bytes {
    Le(k.eventType, 4) + (Le(k.priority, 4) + (Le(k.createdAt.ms, 8) + (Le(k.createdAt.counter, 4)
    + (Le(k.expiresAt.ms, 8) + (Le(k.expiresAt.counter, 4) + Le(k.maxHops, 4))))))
  }

  function AuthorPart(k: Claim): Bytes
    requires k.sigAlgo < 256
  {
    [32] + (k.authorKey + ([k.sigAlgo] + ([32] + k.payloadSha256)))
  }

  /** None when packing raises. */
  function Canonical(k: Claim): Option<Bytes> {
    if Packable(k) then Some(ScopePart(k) + (NumberPart(k) + AuthorPart(k))) else None
  }

  lemma CanonicalPackable(k: Claim)
    ensures Canonical(k).Some? <==> Packable(k)
  {
  }

  /** A number that does not fit the slot it has in the canonical input: four bytes, or eight for the
      two clocks. Version and algorithm apart, which are checked before. */
  predicate Overwide(e: Envelope) {
    || e.eventType >= U32 || e.priority >= U32 || e.maxHops >= U32
    || e.createdAt.counter >= U32 || e.expiresAt.counter >= U32
    || e.createdAt.ms >= U64 || e.expiresAt.ms >= U64
  }

  /** When packing an envelope that was decoded raises, exactly: its lengths are right, so it is its
      numbers that decide. */
  lemma PackingRaisesIff(c: Crypto, data: Bytes)
    requires EnvelopeOf(data).Ok?
    ensures var e := EnvelopeOf(data).value;
      Canonical(ClaimOf(c, e)) == None <==> Overwide(e) || e.protocolVersion >= U32 || e.sigAlgo >= 256
  {
    EnvelopeShape(data);
    hide EnvelopeOf;
    CanonicalPackable(ClaimOf(c, EnvelopeOf(data).value));
  }

  /** The same bytes, appended piece by piece. */
  method CanonicalSigInput(k: Claim) returns (res: Option<Bytes>)
    ensures res == Canonical(k)
  {
    hide Le;
    if |k.envelopeId| != 16 || |k.fieldId| != 16 || |k.authorKey| != 32 || |k.payloadSha256| != 32 {
      return None;
    }
    if !Packable(k) {
      return None;
    }
    var out := Le(k.protocolVersion, 4);
    out := out + [16] + k.envelopeId;
    out := out + [16] + k.fieldId;
    assert out == ScopePart(k);
    out := out + Le(k.eventType, 4);
    out := out + Le(k.priority, 4);
    out := out + Le(k.createdAt.ms, 8);
    out := out + Le(k.createdAt.counter, 4);
    out := out + Le(k.expiresAt.ms, 8);
    out := out + Le(k.expiresAt.counter, 4);
    out := out + Le(k.maxHops, 4);
    assert out == ScopePart(k) + NumberPart(k);
    out := out + [32] + k.authorKey;
    out := out + [k.sigAlgo];
    out := out + [32] + k.payloadSha256;
    assert out == ScopePart(k) + (NumberPart(k) + AuthorPart(k));
    return Some(out);
  }

  lemma Cut(a: Bytes, b: Bytes, a': Bytes, b': Bytes)
    requires |a| == |a'| && a + b == a' + b'
    ensures a == a' && b == b'
  {
    assert a == (a + b)[..|a|] && a' == (a' + b')[..|a|];
    assert b == (a + b)[|a|..] && b' == (a' + b')[|a|..];
  }

  lemma CutNumber(v: nat, w: nat, n: nat, b: Bytes, b': Bytes)
    requires v < Pow(256, n) && w < Pow(256, n)
    requires Le(v, n) + b == Le(w, n) + b'
    ensures v == w && b == b'
  {
    Cut(Le(v, n), b, Le(w, n), b');
    LeInjective(v, w, n);
  }

  lemma ScopeInjective(k: Claim, k': Claim)
    requires Packable(k) && Packable(k') && ScopePart(k) == ScopePart(k')
    ensures k.protocolVersion == k'.protocolVersion && k.envelopeId == k'.envelopeId && k.fieldId == k'.fieldId
  {
    hide Le;
    Pow256Values();
    CutNumber(k.protocolVersion, k'.protocolVersion, 4, [16] + (k.envelopeId + ([16] + k.fieldId)), [16] + (k'.envelopeId + ([16] + k'.fieldId)));
    Cut([16], k.envelopeId + ([16] + k.fieldId), [16], k'.envelopeId + ([16] + k'.fieldId));
    Cut(k.envelopeId, [16] + k.fieldId, k'.envelopeId, [16] + k'.fieldId);
    Cut([16], k.fieldId, [16], k'.fieldId);
  }

  lemma NumberInjective(k: Claim, k': Claim)
    requires Packable(k) && Packable(k') && NumberPart(k) == NumberPart(k')
    ensures k.eventType == k'.eventType && k.priority == k'.priority && k.createdAt == k'.createdAt
    ensures k.expiresAt == k'.expiresAt && k.maxHops == k'.maxHops
  {
    hide Le;
    Pow256Values();
    var r6, r6' := Le(k.maxHops, 4), Le(k'.maxHops, 4);
    var r5, r5' := Le(k.expiresAt.counter, 4) + r6, Le(k'.expiresAt.counter, 4) + r6';
    var r4, r4' := Le(k.expiresAt.ms, 8) + r5, Le(k'.expiresAt.ms, 8) + r5';
    var r3, r3' := Le(k.createdAt.counter, 4) + r4, Le(k'.createdAt.counter, 4) + r4';
    var r2, r2' := Le(k.createdAt.ms, 8) + r3, Le(k'.createdAt.ms, 8) + r3';
    var r1, r1' := Le(k.priority, 4) + r2, Le(k'.priority, 4) + r2';
    CutNumber(k.eventType, k'.eventType, 4, r1, r1');
    CutNumber(k.priority, k'.priority, 4, r2, r2');
    CutNumber(k.createdAt.ms, k'.createdAt.ms, 8, r3, r3');
    CutNumber(k.createdAt.counter, k'.createdAt.counter, 4, r4, r4');
    CutNumber(k.expiresAt.ms, k'.expiresAt.ms, 8, r5, r5');
    CutNumber(k.expiresAt.counter, k'.expiresAt.counter, 4, r6, r6');
    LeInjective(k.maxHops, k'.maxHops, 4);
  }

  lemma AuthorInjective(k: Claim, k': Claim)
    requires Packable(k) && Packable(k') && AuthorPart(k) == AuthorPart(k')
    ensures k.authorKey == k'.authorKey && k.sigAlgo == k'.sigAlgo && k.payloadSha256 == k'.payloadSha256
  {
    Cut([32], k.authorKey + ([k.sigAlgo] + ([32] + k.payloadSha256)), [32], k'.authorKey + ([k'.sigAlgo] + ([32] + k'.payloadSha256)));
    Cut(k.authorKey, [k.sigAlgo] + ([32] + k.payloadSha256), k'.authorKey, [k'.sigAlgo] + ([32] + k'.payloadSha256));
    Cut([k.sigAlgo], [32] + k.payloadSha256, [k'.sigAlgo], [32] + k'.payloadSha256);
    Cut([32], k.payloadSha256, [32], k'.payloadSha256);
  }

  /** The canonical input is always 141 bytes, and two claims share one only if they are equal
      in all thirteen values: no signature can be read as covering a different claim. */
  lemma CanonicalInjective(k: Claim, k': Claim)
    requires Canonical(k).Some?
    ensures |Canonical(k).value| == 141
    ensures Canonical(k) == Canonical(k') ==> k == k'
  {
    hide Le;
    if Canonical(k) == Canonical(k') {
      hide ScopePart, NumberPart, AuthorPart;
      PartLengths(k);
      PartLengths(k');
      Cut(ScopePart(k), NumberPart(k) + AuthorPart(k), ScopePart(k'), NumberPart(k') + AuthorPart(k'));
      Cut(NumberPart(k), AuthorPart(k), NumberPart(k'), AuthorPart(k'));
      ScopeInjective(k, k');
      NumberInjective(k, k');
      AuthorInjective(k, k');
    }
  }

  lemma PartLengths(k: Claim)
    requires Packable(k)
    ensures |ScopePart(k)| == 38 && |NumberPart(k)| == 36 && |AuthorPart(k)| == 67
  {
  }

  /** What the signature of an envelope covers. */
  function ClaimOf(c: Crypto, e: Envelope): Claim {
    Claim(e.protocolVersion, e.envelopeId, e.fieldId, e.eventType, e.priority, e.createdAt, e.expiresAt,
          e.maxHops, e.authorKey, e.sigAlgo, c.sha256(e.payload))
  }
}
