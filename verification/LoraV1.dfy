/** LORA-WIRE v1: frame = header (11) | body | mac8 (8) | crc16 (2). */
module LoraV1 {
  import opened Bits
  import opened Crc
  import opened Keys

  const VERSION := 1
  const PTYPE_EVENT := 1
  const PTYPE_ACK := 2
  const HDR_BYTES := 11
  const TRAILER_BYTES := 10
  const ACK_FRAME_BYTES := 32
  const EVENT_MIN_FRAME_BYTES := 48
  const LENGTH_INDEX := 37
  const MAX_PAYLOAD_BYTES := 64
  const HLC_REPLAY_WINDOW_MS := 48 * 60 * 60 * 1000

  datatype Frame =
    | Event(flags: int, fieldTag: Bytes, srcNode: int, packetSeq: int, ttl: int,
            eventId: Bytes, eventType: int, priority: int, hlcMs: int, hlcCounter: int, payload: Bytes)
    | Ack(flags: int, fieldTag: Bytes, srcNode: int, packetSeq: int, ttl: int,
          ackSeq: int, eventIdPrefix: Bytes, status: int)

  datatype Reason =
    | Truncated | UnknownVersion | UnknownPtype | PayloadTooLong | LengthMismatch
    | CrcMismatch | MacMismatch | TtlExpired | ReplayWindow | ReplayDuplicate

  datatype Verdict = Accepted(frame: Frame) | Rejected(reason: Reason)

  // ---------------------------------------------------------------- encoders

  function Ptype(f: Frame): byte {
    if f.Event? then PTYPE_EVENT else PTYPE_ACK
  }

  function Hdr(f: Frame): Bytes {
    [16 * VERSION + Ptype(f), f.flags % 256] + f.fieldTag + Le(f.srcNode, 2) + Le(f.packetSeq, 2) + [f.ttl % 256]
  }

  function Body(f: Frame): Bytes {
    match f
    case Event(_, _, _, _, _, id, eventType, priority, hlcMs, hlcCounter, payload) =>
      id + [eventType % 256, priority % 256] + Le(hlcMs, 6) + Le(hlcCounter, 2) + [|payload| % 256] + payload
    case Ack(_, _, _, _, _, ackSeq, prefix, status) =>
      Le(ackSeq, 2) + prefix + [status % 256]
  }

  function Seal(c: Crypto, key: Bytes, hdrBody: Bytes): Bytes {
    var sealed := hdrBody + c.loraMac8(key, hdrBody);
    sealed + Le(Crc16(sealed), 2)
  }

  /** What the encoders demand; they raise ValueError otherwise. */
  predicate Encodable(f: Frame) {
    && |f.fieldTag| == 4
    && (f.Event? ==> |f.eventId| == 16 && |f.payload| <= MAX_PAYLOAD_BYTES)
    && (f.Ack? ==> |f.eventIdPrefix| == 8)
  }

  function Encode(c: Crypto, key: Bytes, f: Frame): Option<Bytes> {
    if Encodable(f) then Some(Seal(c, key, Hdr(f) + Body(f))) else None
  }

  /** Every number fits the width it has on air. */
  predicate InRange(f: Frame) {
    && Encodable(f)
    && 0 <= f.flags < 256 && 0 <= f.srcNode < U16 && 0 <= f.packetSeq < U16 && 0 <= f.ttl < 256
    && (f.Event? ==>
          && 0 <= f.eventType < 256 && 0 <= f.priority < 256
          && 0 <= f.hlcMs < U48 && 0 <= f.hlcCounter < U16)
    && (f.Ack? ==> 0 <= f.ackSeq < U16 && 0 <= f.status < 256)
  }

  /** The numbers that reach the air. */
  function OnAir(f: Frame): Frame {
    var g := f.(flags := f.flags % 256, srcNode := f.srcNode % U16, packetSeq := f.packetSeq % U16, ttl := f.ttl % 256);
    if g.Event? then
      g.(eventType := g.eventType % 256, priority := g.priority % 256,
         hlcMs := g.hlcMs % U48, hlcCounter := g.hlcCounter % U16)
    else
      g.(ackSeq := g.ackSeq % U16, status := g.status % 256)
  }

  // ---------------------------------------------------------------- receive pipeline

  function LengthFault(frame: Bytes, ptype: int): Option<Reason>
    requires |frame| >= HDR_BYTES
  {
    if ptype == PTYPE_ACK then
      if |frame| < ACK_FRAME_BYTES then Some(Truncated)
      else if |frame| != ACK_FRAME_BYTES then Some(LengthMismatch)
      else None
    else
      if |frame| < EVENT_MIN_FRAME_BYTES then Some(Truncated)
      else if frame[LENGTH_INDEX] > MAX_PAYLOAD_BYTES then Some(PayloadTooLong)
      else if |frame| < EVENT_MIN_FRAME_BYTES + frame[LENGTH_INDEX] then Some(Truncated)
      else if |frame| != EVENT_MIN_FRAME_BYTES + frame[LENGTH_INDEX] then Some(LengthMismatch)
      else None
  }

  /** Header, version, type and length are right (steps 1 to 4). */
  predicate WellShaped(frame: Bytes) {
    && |frame| >= HDR_BYTES
    && frame[0] / 16 == VERSION
    && (frame[0] % 16 == PTYPE_EVENT || frame[0] % 16 == PTYPE_ACK)
    && LengthFault(frame, frame[0] % 16) == None
  }

  function Parse(frame: Bytes): Frame
    requires WellShaped(frame)
  {
    var flags, tag, src, sq, ttl := frame[1], frame[2..6], Un(frame[6..8]), Un(frame[8..10]), frame[10];
    if frame[0] % 16 == PTYPE_ACK then
      Ack(flags, tag, src, sq, ttl, Un(frame[11..13]), frame[13..21], frame[21])
    else
      Event(flags, tag, src, sq, ttl, frame[11..27], frame[27], frame[28],
            Un(frame[29..35]), Un(frame[35..37]), frame[38..38 + frame[37]])
  }

  function Covered(frame: Bytes): Bytes
    requires |frame| >= TRAILER_BYTES
  {
    frame[..|frame| - 2]
  }

  function Signed(frame: Bytes): Bytes
    requires |frame| >= TRAILER_BYTES
  {
    frame[..|frame| - TRAILER_BYTES]
  }

  /** Steps 1 to 7: everything that does not depend on the receiver's clock or ring. */
  function Inspect(c: Crypto, key: Bytes, frame: Bytes): Verdict {
    if |frame| < HDR_BYTES then Rejected(Truncated)
    else if frame[0] / 16 != VERSION then Rejected(UnknownVersion)
    else if frame[0] % 16 != PTYPE_EVENT && frame[0] % 16 != PTYPE_ACK then Rejected(UnknownPtype)
    else if LengthFault(frame, frame[0] % 16).Some? then Rejected(LengthFault(frame, frame[0] % 16).value)
    else if Un(frame[|frame| - 2..]) != Crc16(Covered(frame)) then Rejected(CrcMismatch)
    else if frame[|frame| - TRAILER_BYTES..|frame| - 2] != c.loraMac8(key, Signed(frame)) then Rejected(MacMismatch)
    else if frame[10] == 0 then Rejected(TtlExpired)
    else Accepted(Parse(frame))
  }

  predicate OutsideWindow(f: Frame, est: Option<int>, window: int)
    requires f.Event?
  {
    && f.flags % 2 != 0
    && est.Some?
    && (f.hlcMs - est.value > window || est.value - f.hlcMs > window)
  }

  /** The whole pipeline, for a receiver whose ring holds `seen` (None: no ring). */
  function Verify(c: Crypto, key: Bytes, frame: Bytes, est: Option<int>, seen: Option<set<Bytes>>, window: int): Verdict {
    var v := Inspect(c, key, frame);
    if v.Accepted? && v.frame.Event? then
      if OutsideWindow(v.frame, est, window) then Rejected(ReplayWindow)
      else if seen.Some? && v.frame.eventId in seen.value then Rejected(ReplayDuplicate)
      else v
    else v
  }

  /** The ids an accepted frame adds to the ring: its own, for an EVENT. */
  function RingIds(v: Verdict): set<Bytes> {
    if v.Accepted? && v.frame.Event? then {v.frame.eventId} else {}
  }

  lemma RejectedAddsNothing(v: Verdict)
    ensures v.Rejected? ==> RingIds(v) == {}
  {
  }

  /** The caller's set of event ids, updated by the verifier. */
  class SeenRing {
    var ids: set<Bytes>

    constructor ()
      ensures ids == {}
    {
      ids := {};
    }
  }

  lemma UnStep(s: Bytes, scale: nat)
    requires s != []
    ensures scale * Un(s) == s[0] * scale + (256 * scale) * Un(s[1..])
  {
    ghost var rest := Un(s[1..]);
    assert Un(s) == s[0] + 256 * rest;
    hide Un;
    Distribute(scale, s[0], rest);
  }

  lemma Distribute(scale: nat, low: nat, rest: nat)
    ensures scale * (low + 256 * rest) == low * scale + (256 * scale) * rest
  {
    assert scale * (256 * rest) == (256 * scale) * rest;
  }

  method ReadU48(b: Bytes, off: nat) returns (v: nat)
    requires off + 6 <= |b|
    ensures v == Un(b[off..off + 6])
  {
    v := 0;
    for i := 0 to 6
      invariant Un(b[off..off + 6]) == v + Pow(256, i) * Un(b[off + i..off + 6])
    {
      UnStep(b[off + i..off + 6], Pow(256, i));
      assert b[off + i..off + 6][1..] == b[off + i + 1..off + 6];
      v := v + b[off + i] * Pow(256, i);
    }
  }

  /** The receive pipeline as the receiver runs it, adding an accepted EVENT's id to `ring`. */
  method VerifyLoraFrame(c: Crypto, key: Bytes, frame: Bytes, est: Option<int>, ring: SeenRing?, window: int)
    returns (res: Verdict)
    modifies if ring == null then {} else {ring}
    ensures res == Verify(c, key, frame, est, if ring == null then None else Some(old(ring.ids)), window)
    ensures ring != null ==> ring.ids == old(ring.ids) + RingIds(res)
  {
    if |frame| < HDR_BYTES {
      return Rejected(Truncated);
    }
    var version, ptype := frame[0] / 16, frame[0] % 16;
    if version != VERSION {
      return Rejected(UnknownVersion);
    }
    if ptype != PTYPE_EVENT && ptype != PTYPE_ACK {
      return Rejected(UnknownPtype);
    }
    var fault := LengthFault(frame, ptype);
    if fault.Some? {
      return Rejected(fault.value);
    }
    var crc := Crc16Ccitt(frame[..|frame| - 2]);
    if Un(frame[|frame| - 2..]) != crc {
      return Rejected(CrcMismatch);
    }
    var macOff := |frame| - TRAILER_BYTES;
    if frame[macOff..macOff + 8] != c.loraMac8(key, frame[..macOff]) {
      return Rejected(MacMismatch);
    }
    if frame[10] == 0 {
      return Rejected(TtlExpired);
    }
    if ptype == PTYPE_ACK {
      return Accepted(Parse(frame));
    }
    var eventId := frame[HDR_BYTES..HDR_BYTES + 16];
    var hlcMs := ReadU48(frame, HDR_BYTES + 18);
    if frame[1] % 2 != 0 && est.Some? {
      if hlcMs - est.value > window || est.value - hlcMs > window {
        return Rejected(ReplayWindow);
      }
    }
    if ring != null {
      if eventId in ring.ids {
        return Rejected(ReplayDuplicate);
      }
      ring.ids := ring.ids + {eventId};
    }
    return Accepted(Parse(frame));
  }

  // ---------------------------------------------------------------- encode / verify agreement

  lemma HdrParts(f: Frame)
    requires |f.fieldTag| == 4
    ensures var h := Hdr(f);
      && |h| == HDR_BYTES
      && h[0] == 16 + Ptype(f) && h[1] == f.flags % 256 && h[2..6] == f.fieldTag
      && h[6..8] == Le(f.srcNode, 2) && h[8..10] == Le(f.packetSeq, 2) && h[10] == f.ttl % 256
  {
  }

  lemma EventBodyParts(f: Frame)
    requires f.Event? && Encodable(f)
    ensures var b := Body(f);
      && |b| == 27 + |f.payload|
      && b[0..16] == f.eventId && b[16] == f.eventType % 256 && b[17] == f.priority % 256
      && b[18..24] == Le(f.hlcMs, 6) && b[24..26] == Le(f.hlcCounter, 2)
      && b[26] == |f.payload| && b[27..27 + |f.payload|] == f.payload
  {
  }

  lemma AckBodyParts(f: Frame)
    requires f.Ack? && Encodable(f)
    ensures var b := Body(f);
      && |b| == 11 && b[0..2] == Le(f.ackSeq, 2) && b[2..10] == f.eventIdPrefix && b[10] == f.status % 256
  {
  }

  /** Reading back the fields of an encoded header and body gives what went on air. */
  lemma ParseEncoded(f: Frame, tail: Bytes)
    requires Encodable(f) && |tail| == TRAILER_BYTES
    ensures var frame := Hdr(f) + Body(f) + tail;
      WellShaped(frame) && Parse(frame) == OnAir(f)
  {
    if f.Ack? {
      ParseEncodedAck(f, tail);
    } else {
      ParseEncodedEvent(f, tail);
    }
  }

  lemma LeWidths(v: int)
    ensures Un(Le(v, 2)) == v % U16
    ensures Un(Le(v, 6)) == v % U48
  {
    hide Le, Un;
    Pow256Values();
    UnLe(v, 2);
    UnLe(v, 6);
  }

  lemma ParseEncodedAck(f: Frame, tail: Bytes)
    requires f.Ack? && Encodable(f) && |tail| == TRAILER_BYTES
    ensures var frame := Hdr(f) + Body(f) + tail;
      WellShaped(frame) && Parse(frame) == OnAir(f)
  {
    hide Hdr, Body, Le, Un;
    var h, b := Hdr(f), Body(f);
    var frame := h + b + tail;
    HdrParts(f);
    AckBodyParts(f);
    LeWidths(f.srcNode);
    LeWidths(f.packetSeq);
    LeWidths(f.ackSeq);
    assert frame[2..6] == h[2..6] && frame[6..8] == h[6..8] && frame[8..10] == h[8..10];
    assert frame[11..13] == b[0..2] && frame[13..21] == b[2..10] && frame[21] == b[10];
  }

  lemma ParseEncodedEvent(f: Frame, tail: Bytes)
    requires f.Event? && Encodable(f) && |tail| == TRAILER_BYTES
    ensures var frame := Hdr(f) + Body(f) + tail;
      WellShaped(frame) && Parse(frame) == OnAir(f)
  {
    hide Hdr, Body, Le, Un;
    var h, b := Hdr(f), Body(f);
    var frame := h + b + tail;
    HdrParts(f);
    EventBodyParts(f);
    LeWidths(f.srcNode);
    LeWidths(f.packetSeq);
    LeWidths(f.hlcMs);
    LeWidths(f.hlcCounter);
    assert frame[2..6] == h[2..6] && frame[6..8] == h[6..8] && frame[8..10] == h[8..10];
    assert frame[11..27] == b[0..16] && frame[29..35] == b[18..24] && frame[35..37] == b[24..26];
    assert frame[27] == b[16] && frame[28] == b[17];
    assert frame[37] == b[26] && frame[38..38 + |f.payload|] == b[27..27 + |f.payload|];
  }

  /** The verdict on a frame the encoder made: accepted with the on-air fields, unless its
      time-to-live wrapped to zero. */
  lemma InspectEncoded(c: Crypto, key: Bytes, f: Frame)
    requires Encodable(f)
    ensures Inspect(c, key, Encode(c, key, f).value)
         == if f.ttl % 256 == 0 then Rejected(TtlExpired) else Accepted(OnAir(f))
  {
    hide Hdr, Body, Le, Un, Crc16, OnAir, Parse, LengthFault;
    EncodedParts(c, key, f);
  }

  /** The four parts of an encoded frame, as the verifier cuts them. */
  lemma EncodedParts(c: Crypto, key: Bytes, f: Frame)
    requires Encodable(f)
    ensures var frame := Encode(c, key, f).value;
      && |frame| == (if f.Event? then EVENT_MIN_FRAME_BYTES + |f.payload| else ACK_FRAME_BYTES)
      && WellShaped(frame) && Parse(frame) == OnAir(f) && frame[10] == f.ttl % 256
      && (f.Event? ==> frame[LENGTH_INDEX] == |f.payload|)
      && frame[0] % 16 == Ptype(f)
      && Signed(frame) == Hdr(f) + Body(f)
      && frame[|frame| - TRAILER_BYTES..|frame| - 2] == c.loraMac8(key, Signed(frame))
      && Un(frame[|frame| - 2..]) == Crc16(Covered(frame))
  {
    hide Hdr, Body, Le, Un, Crc16, OnAir, WellShaped, Parse;
    var h, b := Hdr(f), Body(f);
    var mac := c.loraMac8(key, h + b);
    var crc := Crc16(h + b + mac);
    var frame := Encode(c, key, f).value;
    assert frame == h + b + (mac + Le(crc, 2));
    ParseEncoded(f, mac + Le(crc, 2));
    HdrParts(f);
    if f.Event? {
      EventBodyParts(f);
    } else {
      AckBodyParts(f);
    }
    assert Covered(frame) == h + b + mac && frame[|frame| - 2..] == Le(crc, 2);
    assert Signed(frame) == h + b && frame[|frame| - TRAILER_BYTES..|frame| - 2] == mac;
    LeWidths(crc);
  }

  lemma HdrOfParse(frame: Bytes)
    requires WellShaped(frame)
    ensures Hdr(Parse(frame)) == frame[..11]
  {
    LeUn(frame[6..8]);
    LeUn(frame[8..10]);
    assert frame[..11] == [frame[0], frame[1]] + frame[2..6] + frame[6..8] + frame[8..10] + [frame[10]];
  }

  lemma BodyOfParse(frame: Bytes)
    requires WellShaped(frame)
    ensures Body(Parse(frame)) == frame[11..|frame| - TRAILER_BYTES]
  {
    if frame[0] % 16 == PTYPE_ACK {
      hide Le, Un;
      LeUn(frame[11..13]);
      assert frame[11..22] == frame[11..13] + frame[13..21] + [frame[21]];
    } else {
      EventBodyOfParse(frame, frame[37]);
    }
  }

  lemma EventBodyOfParse(frame: Bytes, n: nat)
    requires |frame| == EVENT_MIN_FRAME_BYTES + n && frame[0] % 16 == PTYPE_EVENT && WellShaped(frame)
    requires frame[37] == n
    ensures Body(Parse(frame)) == frame[11..38 + n]
  {
    hide Le, Un, WellShaped, LengthFault;
    LeUn(frame[29..35]);
    LeUn(frame[35..37]);
    var f := Parse(frame);
    assert frame[11..38 + n] == frame[11..29] + (frame[29..35] + frame[35..37]) + frame[37..38 + n];
    assert frame[11..29] == frame[11..27] + [frame[27], frame[28]];
    assert frame[37..38 + n] == [n] + frame[38..38 + n];
    assert Body(f) == frame[11..27] + [frame[27], frame[28]] + frame[29..35] + frame[35..37] + [n] + frame[38..38 + n];
  }

  lemma ParseInRange(frame: Bytes)
    requires WellShaped(frame)
    ensures InRange(Parse(frame))
  {
    Pow256Values();
    LeUn(frame[6..8]);
    LeUn(frame[8..10]);
    if frame[0] % 16 == PTYPE_ACK {
      LeUn(frame[11..13]);
    } else {
      LeUn(frame[29..35]);
      LeUn(frame[35..37]);
    }
  }

  /** The verifier accepts exactly the encoders' image: a byte string passes steps 1 to 7 as
      `f` iff it is the encoding of `f`, every field of `f` fits its width and the
      time-to-live is not zero. */
  lemma AcceptsExactlyEncodings(c: Crypto, key: Bytes, frame: Bytes, f: Frame)
    ensures Inspect(c, key, frame) == Accepted(f)
       <==> InRange(f) && f.ttl != 0 && Encode(c, key, f) == Some(frame)
  {
    hide Inspect, Encode;
    if InRange(f) && f.ttl != 0 && Encode(c, key, f) == Some(frame) {
      InspectEncoded(c, key, f);
      OnAirFixed(f);
    }
    if Inspect(c, key, frame) == Accepted(f) {
      AcceptedIsEncoded(c, key, frame);
    }
  }

  lemma OnAirFixed(f: Frame)
    requires InRange(f)
    ensures OnAir(f) == f
  {
  }

  /** Re-encoding the fields of an accepted frame gives back its bytes. */
  lemma AcceptedIsEncoded(c: Crypto, key: Bytes, frame: Bytes)
    requires Inspect(c, key, frame).Accepted?
    ensures var f := Inspect(c, key, frame).frame;
      InRange(f) && f.ttl != 0 && Encode(c, key, f) == Some(frame)
  {
    hide Hdr, Body, Le, Un, Crc16, LengthFault;
    AcceptedCrc(c, key, frame);
    var f, n := Parse(frame), |frame|;
    HdrOfParse(frame);
    BodyOfParse(frame);
    ParseInRange(frame);
    hide WellShaped, Parse;
    assert Hdr(f) + Body(f) == Signed(frame);
    assert Signed(frame) + frame[n - TRAILER_BYTES..n - 2] == Covered(frame);
    LeUn(frame[n - 2..]);
    assert Covered(frame) + frame[n - 2..] == frame;
  }

  // ---------------------------------------------------------------- corruption

  lemma AcceptedCrc(c: Crypto, key: Bytes, frame: Bytes)
    requires Inspect(c, key, frame).Accepted?
    ensures |frame| >= ACK_FRAME_BYTES && WellShaped(frame)
    ensures Un(frame[|frame| - 2..]) == Crc16(Covered(frame))
  {
  }

  /** What is under the MAC decides the rest of an accepted frame of that length. */
  lemma SignedDecides(c: Crypto, key: Bytes, frame: Bytes, bad: Bytes)
    requires Inspect(c, key, frame).Accepted? && Inspect(c, key, bad).Accepted?
    requires |frame| == |bad| && Signed(frame) == Signed(bad)
    ensures frame == bad
  {
    AcceptedTail(c, key, frame);
    AcceptedTail(c, key, bad);
  }

  lemma AcceptedTail(c: Crypto, key: Bytes, frame: Bytes)
    requires Inspect(c, key, frame).Accepted?
    ensures |frame| >= ACK_FRAME_BYTES
    ensures var sealed := Signed(frame) + c.loraMac8(key, Signed(frame));
      frame == sealed + Le(Crc16(sealed), 2)
  {
    hide Crc16, Le, Un, Parse;
    AcceptedCrc(c, key, frame);
    var n := |frame|;
    LeUn(frame[n - 2..]);
    assert Signed(frame) + frame[n - TRAILER_BYTES..n - 2] == Covered(frame);
    assert Covered(frame) + frame[n - 2..] == frame;
  }

  /** No change confined to two adjacent bytes of an accepted frame survives the verifier, wherever they are:
      not under the CRC, because of the CRC, and not where it reaches the CRC, because of the MAC. */
  lemma BurstRejected(c: Crypto, key: Bytes, frame: Bytes, bad: Bytes, k: nat)
    requires Inspect(c, key, frame).Accepted?
    requires bad != frame && BurstAt(frame, bad, k)
    ensures Inspect(c, key, bad).Rejected?
  {
    hide Inspect, Crc16, WellShaped, Un;
    var n := |frame|;
    AcceptedCrc(c, key, frame);
    if k + 4 <= n {
      var m, m' := Covered(frame), Covered(bad);
      assert frame[n - 2..] == bad[n - 2..] by {
        assert frame[n - 2..] == frame[k + 2..][n - 4 - k..];
        assert bad[n - 2..] == bad[k + 2..][n - 4 - k..];
      }
      assert m[..k] == frame[..k] && m'[..k] == bad[..k];
      assert m[k + 2..] == frame[k + 2..][..n - 4 - k] && m'[k + 2..] == bad[k + 2..][..n - 4 - k];
      assert frame == m + frame[n - 2..] && bad == m' + bad[n - 2..];
      BurstDetected(m, m', k);
      if Inspect(c, key, bad).Accepted? {
        AcceptedCrc(c, key, bad);
      }
    } else {
      TailRejected(c, key, frame, bad, k);
    }
  }

  lemma TailRejected(c: Crypto, key: Bytes, frame: Bytes, bad: Bytes, k: nat)
    requires Inspect(c, key, frame).Accepted? && |frame| >= TRAILER_BYTES
    requires bad != frame && |bad| == |frame| && |frame| - TRAILER_BYTES <= k <= |frame| && frame[..k] == bad[..k]
    ensures Inspect(c, key, bad).Rejected?
  {
    hide Inspect;
    var n := |frame| - TRAILER_BYTES;
    assert frame[..n] == frame[..k][..n] && bad[..n] == bad[..k][..n];
    if Inspect(c, key, bad).Accepted? {
      SignedDecides(c, key, frame, bad);
    }
  }

  /** Nor does a burst of up to sixteen bits, wherever in a byte it begins. */
  lemma BitBurstRejected(c: Crypto, key: Bytes, frame: Bytes, bad: Bytes, k: nat, p: nat, up: nat)
    requires Inspect(c, key, frame).Accepted?
    requires bad != frame && BitBurstAt(frame, bad, k, p, up)
    ensures Inspect(c, key, bad).Rejected?
  {
    hide Inspect, Crc16, WellShaped, Pattern, Un;
    var n := |frame|;
    AcceptedCrc(c, key, frame);
    if k + 5 <= n {
      var m, m' := Covered(frame), Covered(bad);
      assert frame[n - 2..] == bad[n - 2..] by {
        assert frame[n - 2..] == frame[k + 3..][n - 5 - k..];
        assert bad[n - 2..] == bad[k + 3..][n - 5 - k..];
      }
      assert m[..k] == frame[..k] && m'[..k] == bad[..k];
      assert m[k + 3..] == frame[k + 3..][..n - 5 - k] && m'[k + 3..] == bad[k + 3..][..n - 5 - k];
      assert frame == m + frame[n - 2..] && bad == m' + bad[n - 2..];
      BitBurstDetected(m, m', k, p, up);
      if Inspect(c, key, bad).Accepted? {
        AcceptedCrc(c, key, bad);
      }
    } else {
      TailRejected(c, key, frame, bad, k);
    }
  }

  /** Changing any one byte of an accepted frame, the CRC itself included, gets it rejected. */
  lemma ByteChangeRejected(c: Crypto, key: Bytes, frame: Bytes, i: nat, b: byte)
    requires Inspect(c, key, frame).Accepted?
    requires i < |frame| && frame[i] != b
    ensures Inspect(c, key, frame[i := b]).Rejected?
  {
    hide Inspect;
    var bad := frame[i := b];
    assert bad[..i] == frame[..i] && (i + 2 <= |frame| ==> bad[i + 2..] == frame[i + 2..]);
    BurstRejected(c, key, frame, bad, i);
  }

  /** The byte the channel writes at a corrupted position. */
  function Flip(b: byte): (r: byte)
    ensures r != b
    ensures b <= 64 ==> r > 64
  {
    FlipComplements(b, 8);
    assert Pow(2, 7) == 128;
    Xor(b, 0xFF)
  }

  lemma {:induction false} FlipComplements(b: int, n: nat)
    requires 0 <= b < Pow(2, n)
    ensures Xor(b, Pow(2, n) - 1) == Pow(2, n) - 1 - b
    decreases n
  {
    hide Xor;
    if n == 0 {
      XorZero(0);
    } else {
      var p := Pow(2, n - 1);
      PowPositive(2, n - 1);
      FlipComplements(b / 2, n - 1);
      XorBits(b, 2 * p - 1);
      FlipBit(b, p);
    }
  }

  lemma FlipBit(b: int, p: nat)
    requires p > 0
    ensures (2 * p - 1) / 2 == p - 1
    ensures 2 * (p - 1 - b / 2) + (b + (2 * p - 1)) % 2 == 2 * p - 1 - b
  {
  }

  /** Every corruption the channel can make of a frame under way is caught, and how:
      a flip of an EVENT's length byte makes the length absurd, any other breaks the CRC.
      The receiver's ring is not consulted, so no ring and no clock changes the answer. */
  lemma FlipCaught(c: Crypto, key: Bytes, f: Frame, i: nat, est: Option<int>, seen: Option<set<Bytes>>, window: int)
    requires Encodable(f)
    requires HDR_BYTES <= i < |Encode(c, key, f).value| - 2
    ensures var frame := Encode(c, key, f).value;
      var v := Verify(c, key, frame[i := Flip(frame[i])], est, seen, window);
      && v == Rejected(if f.Event? && i == LENGTH_INDEX then PayloadTooLong else CrcMismatch)
      && RingIds(v) == {}
  {
    hide Hdr, Body, Un, Crc16, Parse, OnAir, Seal;
    EncodedParts(c, key, f);
    var frame := Encode(c, key, f).value;
    var n, bad := |frame|, frame[i := Flip(frame[i])];
    assert bad[n - 2..] == frame[n - 2..];
    var k := if i == n - 3 then i - 1 else i;
    var m, m' := Covered(frame), Covered(bad);
    assert m[..k] == m'[..k] && m[k + 2..] == m'[k + 2..] && m[i] != m'[i];
    BurstDetected(m, m', k);
  }
}
