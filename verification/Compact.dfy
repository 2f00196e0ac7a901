/** Compact LoRa payloads: what a node puts on air instead of the typed envelope payload. */
module Compact {
  import opened Bits
  import opened EnvelopeV3

  const U16_MAX := 0xFFFF

  function SatU16(v: int): int {
    if v < 0 then 0 else if v <= U16_MAX then v else U16_MAX
  }

  /** The first eight bytes of an anonymous id, zero-padded. */
  function Anon8(id: Bytes): (a: Bytes)
    ensures |a| == 8
  {
    if |id| >= 8 then id[..8] else id + seq(8 - |id|, _ => 0)
  }

  /** Python's `//` floors, as Dafny's `/` does for a positive divisor. */
  function AgeSeconds(observedMs: int, nowMs: int): int {
    SatU16((nowMs - observedMs) / 1000)
  }

  /** A signed 32-bit integer read from two's complement. */
  function ReadI32(s: Bytes): int {
    if Un(s) >= 0x8000_0000 then Un(s) - U32 else Un(s)
  }

  predicate Int32(v: int) {
    -0x8000_0000 <= v < 0x8000_0000
  }

  lemma I32RoundTrip(v: int)
    requires Int32(v)
    ensures ReadI32(Le(v, 4)) == v
  {
    hide Le, Un;
    Pow256Values();
    UnLe(v, 4);
  }

  // ---------------------------------------------------------------- loc13

  datatype Loc13 = Loc13(src: int, latE7: int, lngE7: int, accM: int, ageS: int)

  function EncodeLoc13(l: Loc13): (b: Bytes)
    ensures |b| == 13
  {
    [l.src % 256] + Le(l.latE7, 4) + Le(l.lngE7, 4) + Le(SatU16(l.accM), 2) + Le(SatU16(l.ageS), 2)
  }

  function DecodeLoc13(b: Bytes): Loc13
    requires |b| == 13
  {
    Loc13(b[0], ReadI32(b[1..5]), ReadI32(b[5..9]), Un(b[9..11]), Un(b[11..13]))
  }

  /** Coordinates survive exactly; accuracy and age come back saturated to 0..65535. */
  lemma Loc13RoundTrip(l: Loc13)
    requires Int32(l.latE7) && Int32(l.lngE7)
    ensures DecodeLoc13(EncodeLoc13(l)) == Loc13(l.src % 256, l.latE7, l.lngE7, SatU16(l.accM), SatU16(l.ageS))
  {
    hide Le, Un, ReadI32;
    var b := EncodeLoc13(l);
    assert b[1..5] == Le(l.latE7, 4) && b[5..9] == Le(l.lngE7, 4);
    assert b[9..11] == Le(SatU16(l.accM), 2) && b[11..13] == Le(SatU16(l.ageS), 2);
    I32RoundTrip(l.latE7);
    I32RoundTrip(l.lngE7);
    Pow256Values();
    UnLe(SatU16(l.accM), 2);
    UnLe(SatU16(l.ageS), 2);
  }

  // ---------------------------------------------------------------- payloads

  /** What a receiver reads out of a compact payload; Raw when its length does not fit its type. */
  datatype Decoded =
    | PresenceView(anon8: Bytes, battery: int, evidSrc: int)
    | SosView(anon8: Bytes, safety: int, loc: Loc13)
    | CheckpointView(anon8: Bytes, checkpointNode: int)
    | Raw(payload: Bytes)

  /** `_decode_compact`: a payload of the wrong length, or of an unknown type, stays raw. */
  function DecodeCompact(eventType: int, payload: Bytes): Decoded {
    if eventType == 1 && |payload| == 22 then
      SosView(payload[..8], payload[8], DecodeLoc13(payload[9..]))
    else if eventType == 3 && |payload| == 10 then
      PresenceView(payload[..8], payload[8], payload[9])
    else if eventType == 4 && |payload| == 10 then
      CheckpointView(payload[..8], Un(payload[8..10]))
    else Raw(payload)
  }

  // ---------------------------------------------------------------- typed payload to compact payload

  function Loc13Of(loc: Option<Location>, nowMs: int): Loc13 {
    if loc.None? then Loc13(0, 0, 0, 0, 0)
    else
      var l := loc.value;
      Loc13(l.source, l.latE7, l.lngE7, l.accuracyM, AgeSeconds(l.observedAt.ms, nowMs))
  }

  function PresenceFromTyped(p: Presence): (b: Bytes)
    ensures |b| == 10
  {
    Anon8(p.anonUserId) + [p.batteryHint % 256, p.location.source % 256]
  }

  function SosFromTyped(s: Status, anon8: Bytes, nowMs: int): (b: Bytes)
    ensures |b| == 22
  {
    Anon8(anon8) + [s.safetyState % 256] + EncodeLoc13(Loc13Of(s.location, nowMs))
  }

  function CheckpointFromTyped(k: Checkpoint, node: int): (b: Bytes)
    ensures |b| == 10
  {
    Anon8(k.anonUserId) + Le(node, 2)
  }

  predicate OnMap(loc: Option<Location>) {
    loc.Some? ==> Int32(loc.value.latE7) && Int32(loc.value.lngE7)
  }

  /** What the receiver of a status update reads: the safety state and the location itself,
      coordinates exact, accuracy and floor-divided age saturated. */
  lemma SosSurvives(s: Status, anon8: Bytes, nowMs: int)
    requires OnMap(s.location)
    ensures DecodeCompact(1, SosFromTyped(s, anon8, nowMs)) == SosView(Anon8(anon8), s.safetyState % 256,
      if s.location.None? then Loc13(0, 0, 0, 0, 0)
      else
        var l := s.location.value;
        Loc13(l.source % 256, l.latE7, l.lngE7, SatU16(l.accuracyM), AgeSeconds(l.observedAt.ms, nowMs)))
  {
    hide Le, Un, ReadI32, EncodeLoc13, DecodeLoc13, Anon8;
    var loc := Loc13Of(s.location, nowMs);
    var b := SosFromTyped(s, anon8, nowMs);
    Loc13RoundTrip(loc);
    assert b[..8] == Anon8(anon8) && b[9..] == EncodeLoc13(loc);
  }

  lemma PresenceSurvives(p: Presence)
    ensures DecodeCompact(3, PresenceFromTyped(p))
         == PresenceView(Anon8(p.anonUserId), p.batteryHint % 256, p.location.source % 256)
  {
    assert PresenceFromTyped(p)[..8] == Anon8(p.anonUserId);
  }

  lemma CheckpointSurvives(k: Checkpoint, node: int)
    ensures DecodeCompact(4, CheckpointFromTyped(k, node)) == CheckpointView(Anon8(k.anonUserId), node % U16)
  {
    hide Le, Un;
    assert CheckpointFromTyped(k, node)[..8] == Anon8(k.anonUserId);
    assert CheckpointFromTyped(k, node)[8..10] == Le(node, 2);
    Pow256Values();
    UnLe(node, 2);
  }

  // ---------------------------------------------------------------- what a receiver is shown

  /** The whole seconds between observation and now, never negative and never more than two bytes hold. */
  predicate AgeShown(observedMs: int, nowMs: int, age: int) {
    var passed := nowMs - observedMs;
    && 0 <= age <= 65535
    && (passed < 0 ==> age == 0)
    && (0 <= passed < 65536000 ==> 1000 * age <= passed < 1000 * age + 1000)
    && (passed >= 65536000 ==> age == 65535)
  }

  lemma AgeIsShown(observedMs: int, nowMs: int)
    ensures AgeShown(observedMs, nowMs, AgeSeconds(observedMs, nowMs))
  {
    var passed := nowMs - observedMs;
    var q := passed / 1000;
    assert passed == 1000 * q + passed % 1000;
  }

  predicate AccuracyShown(accuracyM: nat, shown: int) {
    shown == if accuracyM <= 65535 then accuracyM else 65535
  }

  /** The first eight bytes of an id, or all of a shorter one and zeros behind it. */
  ghost predicate AnonShown(id: Bytes, anon: Bytes) {
    && |anon| == 8
    && (|id| >= 8 ==> anon == id[..8])
    && (|id| < 8 ==> anon[..|id|] == id && forall i :: |id| <= i < 8 ==> anon[i] == 0)
  }

  lemma AnonIsShown(id: Bytes)
    ensures AnonShown(id, Anon8(id)) && Anon8(Anon8(id)) == Anon8(id)
  {
  }

  /** A location as the gateway shows it: zeros if there was none. */
  predicate LocShown(loc: Option<Location>, nowMs: int, shown: Loc13) {
    if loc.None? then shown == Loc13(0, 0, 0, 0, 0)
    else
      && shown.src == loc.value.source % 256
      && shown.latE7 == loc.value.latE7 && shown.lngE7 == loc.value.lngE7
      && AccuracyShown(loc.value.accuracyM, shown.accM)
      && AgeShown(loc.value.observedAt.ms, nowMs, shown.ageS)
  }

  // ---------------------------------------------------------------- the payloads byte by byte

  lemma PresenceLayout(p: Presence)
    ensures var b := PresenceFromTyped(p);
      |b| == 10 && AnonShown(p.anonUserId, b[0..8]) && b[8] == p.batteryHint % 256 && b[9] == p.location.source % 256
  {
    AnonIsShown(p.anonUserId);
    hide Anon8, AnonShown;
    assert PresenceFromTyped(p)[0..8] == Anon8(p.anonUserId);
  }

  lemma CheckpointLayout(k: Checkpoint, node: int)
    ensures var b := CheckpointFromTyped(k, node);
      |b| == 10 && AnonShown(k.anonUserId, b[0..8]) && b[8..10] == Le(node, 2)
  {
    AnonIsShown(k.anonUserId);
    hide Anon8, AnonShown, Le;
    assert CheckpointFromTyped(k, node)[0..8] == Anon8(k.anonUserId);
  }

  /** Anonymous id, safety state, source of the location, coordinates, accuracy, age. */
  lemma SosLayout(s: Status, anon8: Bytes, nowMs: int)
    ensures var b := SosFromTyped(s, anon8, nowMs);
      |b| == 22 && AnonShown(anon8, b[0..8]) && b[8] == s.safetyState % 256
    ensures s.location.None? ==> forall i :: 9 <= i < 22 ==> SosFromTyped(s, anon8, nowMs)[i] == 0
    ensures s.location.Some? ==>
      var b, l := SosFromTyped(s, anon8, nowMs), s.location.value;
      && b[9] == l.source % 256 && b[10..14] == Le(l.latE7, 4) && b[14..18] == Le(l.lngE7, 4)
      && (exists acc, age :: AccuracyShown(l.accuracyM, acc) && AgeShown(l.observedAt.ms, nowMs, age)
                             && b[18..20] == Le(acc, 2) && b[20..22] == Le(age, 2))
  {
    AnonIsShown(anon8);
    hide Anon8, AnonShown, Le, AgeShown;
    var b, loc := SosFromTyped(s, anon8, nowMs), Loc13Of(s.location, nowMs);
    assert b[0..8] == Anon8(anon8) && b[9..] == EncodeLoc13(loc);
    if s.location.Some? {
      var l := s.location.value;
      AgeIsShown(l.observedAt.ms, nowMs);
      Loc13Bytes(loc, b[9..]);
      assert b[10..14] == b[9..][1..5] && b[14..18] == b[9..][5..9] && b[18..20] == b[9..][9..11] && b[20..22] == b[9..][11..13];
      assert AccuracyShown(l.accuracyM, SatU16(l.accuracyM));
    } else {
      NoLocBytes();
      forall i | 9 <= i < 22 ensures b[i] == 0 {
        assert b[i] == b[9..][i - 9];
      }
    }
  }

  lemma Loc13Bytes(l: Loc13, b: Bytes)
    requires b == EncodeLoc13(l)
    ensures b[0] == l.src % 256 && b[1..5] == Le(l.latE7, 4) && b[5..9] == Le(l.lngE7, 4)
    ensures b[9..11] == Le(SatU16(l.accM), 2) && b[11..13] == Le(SatU16(l.ageS), 2)
  {
    hide Le;
  }

  lemma NoLocBytes()
    ensures forall i :: 0 <= i < 13 ==> EncodeLoc13(Loc13(0, 0, 0, 0, 0))[i] == 0
  {
    assert Le(0, 1) == [0];
    assert Le(0, 2) == [0, 0];
    assert Le(0, 3) == [0, 0, 0];
    assert Le(0, 4) == [0, 0, 0, 0];
  }

  /** Only payloads of these lengths under these types are read; any other stays as it is. */
  lemma RawIff(eventType: int, payload: Bytes)
    ensures DecodeCompact(eventType, payload).Raw?
       <==> !((eventType == 1 && |payload| == 22) || (eventType == 3 && |payload| == 10) || (eventType == 4 && |payload| == 10))
    ensures DecodeCompact(eventType, payload).Raw? ==> DecodeCompact(eventType, payload).payload == payload
  {
  }
}
