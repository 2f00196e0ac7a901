/** The LORA-WIRE v1 frame at literal offsets, and the receive pipeline's verdicts on any byte string,
    told without the codec's own tables. */
module FrameLayout {
  import opened Bits
  import opened Crc
  import opened Keys
  import opened LoraV1

  // ---------------------------------------------------------------- little-endian bytes

  lemma LeStep(v: int, n: nat)
    ensures Le(v, n + 1) == [v % 256] + Le(v / 256, n)
  {
  }

  lemma Le2(v: int)
    ensures Le(v, 2) == [v % 256, v / 256 % 256]
  {
    LeStep(v, 1);
    LeStep(v / 256, 0);
  }

  lemma Le4(v: int)
    ensures Le(v, 4) == [v % 256, v / 0x100 % 256, v / 0x1_0000 % 256, v / 0x100_0000 % 256]
  {
    LeStep(v, 3);
    LeStep(v / 256, 2);
    Le2(v / 256 / 256);
  }

  lemma Le6(v: int)
    ensures Le(v, 6) == [v % 256, v / 0x100 % 256, v / 0x1_0000 % 256, v / 0x100_0000 % 256,
                         v / 0x1_0000_0000 % 256, v / 0x100_0000_0000 % 256]
  {
    LeStep(v, 5);
    LeStep(v / 256, 4);
    Le4(v / 256 / 256);
    hide Le;
    DivTwice(v, 256, 0x100);
    DivTwice(v / 256, 256, 0x100);
    DivTwice(v / 256, 256, 0x1_0000);
    DivTwice(v / 256, 256, 0x100_0000);
    DivTwice(v, 256, 0x1_0000);
    DivTwice(v, 256, 0x100_0000);
    DivTwice(v, 256, 0x1_0000_0000);
  }

  // ---------------------------------------------------------------- what goes on air

  /** Eleven bytes of header. */
  ghost predicate HasHeader(s: Bytes, first: byte, f: Frame) {
    && |s| >= 11
    && s[0] == first && s[1] == f.flags % 256 && s[2..6] == f.fieldTag
    && s[6] == f.srcNode % 256 && s[7] == f.srcNode / 256 % 256
    && s[8] == f.packetSeq % 256 && s[9] == f.packetSeq / 256 % 256
    && s[10] == f.ttl % 256
  }

  /** The MAC over everything before it, then the CRC over everything before that, low byte first. */
  ghost predicate HasTrailer(c: Crypto, key: Bytes, s: Bytes) {
    var n := |s|;
    && n >= 10
    && s[n - 10..n - 2] == c.loraMac8(key, s[..n - 10])
    && s[n - 2] == Crc16(s[..n - 2]) % 256 && s[n - 1] == Crc16(s[..n - 2]) / 256
  }

  /** The bytes of an EVENT frame, each at its place. */
  lemma EventLayout(c: Crypto, key: Bytes, f: Frame)
    requires f.Event? && |f.fieldTag| == 4 && |f.eventId| == 16 && |f.payload| <= 64
    ensures Encode(c, key, f).Some?
    ensures var s := Encode(c, key, f).value;
      && |s| == 48 + |f.payload| && HasHeader(s, 0x11, f) && HasTrailer(c, key, s)
      && s[11..27] == f.eventId && s[27] == f.eventType % 256 && s[28] == f.priority % 256
      && s[29..35] == [f.hlcMs % 256, f.hlcMs / 0x100 % 256, f.hlcMs / 0x1_0000 % 256, f.hlcMs / 0x100_0000 % 256,
                       f.hlcMs / 0x1_0000_0000 % 256, f.hlcMs / 0x100_0000_0000 % 256]
      && s[35] == f.hlcCounter % 256 && s[36] == f.hlcCounter / 256 % 256
      && s[37] == |f.payload| && s[38..38 + |f.payload|] == f.payload
  {
    hide Hdr, Body, Le, Un, Crc16;
    var h, b, s := Hdr(f), Body(f), Encode(c, key, f).value;
    SealedParts(c, key, h + b);
    HdrParts(f);
    EventBodyParts(f);
    HeaderAt(f, s, h);
    Le6(f.hlcMs);
    Le2(f.hlcCounter);
    assert s[11..27] == b[0..16] && s[29..35] == b[18..24] && s[35..37] == b[24..26];
    assert s[35..37][0] == s[35] && s[35..37][1] == s[36];
    assert s[27] == b[16] && s[28] == b[17] && s[37] == b[26];
    assert s[38..38 + |f.payload|] == b[27..27 + |f.payload|];
  }

  /** The bytes of an ACK frame. */
  lemma AckLayout(c: Crypto, key: Bytes, f: Frame)
    requires f.Ack? && |f.fieldTag| == 4 && |f.eventIdPrefix| == 8
    ensures Encode(c, key, f).Some?
    ensures var s := Encode(c, key, f).value;
      && |s| == 32 && HasHeader(s, 0x12, f) && HasTrailer(c, key, s)
      && s[11] == f.ackSeq % 256 && s[12] == f.ackSeq / 256 % 256 && s[13..21] == f.eventIdPrefix && s[21] == f.status % 256
  {
    hide Hdr, Body, Le, Un, Crc16;
    var h, b, s := Hdr(f), Body(f), Encode(c, key, f).value;
    SealedParts(c, key, h + b);
    HdrParts(f);
    AckBodyParts(f);
    HeaderAt(f, s, h);
    Le2(f.ackSeq);
    assert s[11..13] == b[0..2] && s[13..21] == b[2..10] && s[21] == b[10];
    assert s[11..13][0] == s[11] && s[11..13][1] == s[12];
  }

  /** Everything else the encoders refuse. */
  lemma EncoderRaisesIff(c: Crypto, key: Bytes, f: Frame)
    ensures Encode(c, key, f) == None
       <==> |f.fieldTag| != 4 || (f.Event? && (|f.eventId| != 16 || |f.payload| > 64)) || (f.Ack? && |f.eventIdPrefix| != 8)
  {
    hide Hdr, Body, Seal;
  }

  lemma SealedParts(c: Crypto, key: Bytes, hb: Bytes)
    ensures var s := Seal(c, key, hb);
      |s| == |hb| + 10 && s[..|hb|] == hb && HasTrailer(c, key, s)
  {
    hide Le, Crc16;
    var sealed := hb + c.loraMac8(key, hb);
    var s := Seal(c, key, hb);
    Le2(Crc16(sealed));
    assert s[..|s| - 2] == sealed && s[..|s| - 10] == hb && s[|s| - 10..|s| - 2] == c.loraMac8(key, hb);
  }

  lemma HeaderAt(f: Frame, s: Bytes, h: Bytes)
    requires |f.fieldTag| == 4 && h == Hdr(f) && |s| >= 11 && s[..11] == h
    ensures HasHeader(s, if f.Event? then 0x11 else 0x12, f)
  {
    HdrParts(f);
    hide Hdr, Le;
    Le2(f.srcNode);
    Le2(f.packetSeq);
    assert s[2..6] == h[2..6] && s[6..8] == h[6..8] && s[8..10] == h[8..10];
    assert s[0] == h[0] && s[1] == h[1] && s[10] == h[10];
    assert s[6..8][0] == s[6] && s[6..8][1] == s[7] && s[8..10][0] == s[8] && s[8..10][1] == s[9];
  }

  // ---------------------------------------------------------------- what a receiver answers

  /** An EVENT of 48 bytes and its payload of at most 64, or an ACK of 32 bytes. */
  predicate RightSize(s: Bytes) {
    || (|s| >= 48 && s[0] == 0x11 && s[37] <= 64 && |s| == 48 + s[37])
    || (|s| == 32 && s[0] == 0x12)
  }

  /** The verdict of steps 1 to 7 on every byte string. */
  lemma VerdictTable(c: Crypto, key: Bytes, s: Bytes)
    ensures var v := Inspect(c, key, s);
      && (v == Rejected(UnknownVersion) <==> |s| >= 11 && s[0] / 16 != 1)
      && (v == Rejected(UnknownPtype) <==> |s| >= 11 && s[0] / 16 == 1 && s[0] % 16 != 1 && s[0] % 16 != 2)
      && (v == Rejected(PayloadTooLong) <==> |s| >= 48 && s[0] == 0x11 && s[37] > 64)
      && (v == Rejected(Truncated)
          <==> |s| < 11 || (s[0] == 0x12 && |s| < 32) || (s[0] == 0x11 && (|s| < 48 || (s[37] <= 64 && |s| < 48 + s[37]))))
      && (v == Rejected(LengthMismatch)
          <==> (|s| > 32 && s[0] == 0x12) || (|s| >= 48 && s[0] == 0x11 && s[37] <= 64 && |s| > 48 + s[37]))
  {
    hide Crc16, Un, Parse;
  }

  /** Numbers put together from their bytes, the lowest first. */
  function Word(b0: int, b1: int): int {
    b0 + 0x100 * b1
  }

  function SixWord(b0: int, b1: int, b2: int, b3: int, b4: int, b5: int): int {
    b0 + 0x100 * b1 + 0x1_0000 * b2 + 0x100_0000 * b3 + 0x1_0000_0000 * b4 + 0x100_0000_0000 * b5
  }

  predicate CrcRight(s: Bytes)
    requires |s| >= 2
  {
    Word(s[|s| - 2], s[|s| - 1]) == Crc16(s[..|s| - 2])
  }

  ghost predicate MacRight(c: Crypto, key: Bytes, s: Bytes)
    requires |s| >= 10
  {
    s[|s| - 10..|s| - 2] == c.loraMac8(key, s[..|s| - 10])
  }

  /** And of a byte string of the right size: CRC before MAC before time-to-live. */
  lemma RightSizeVerdict(c: Crypto, key: Bytes, s: Bytes)
    ensures var v := Inspect(c, key, s);
      && (v == Rejected(CrcMismatch) <==> RightSize(s) && !CrcRight(s))
      && (v == Rejected(MacMismatch) <==> RightSize(s) && CrcRight(s) && !MacRight(c, key, s))
      && (v == Rejected(TtlExpired) <==> RightSize(s) && CrcRight(s) && MacRight(c, key, s) && s[10] == 0)
      && (v.Accepted? <==> RightSize(s) && CrcRight(s) && MacRight(c, key, s) && s[10] != 0)
  {
    hide Crc16, Parse, Un;
    if |s| >= 2 {
      LastTwo(s);
    }
  }

  lemma LastTwo(s: Bytes)
    requires |s| >= 2
    ensures Un(s[|s| - 2..]) == Word(s[|s| - 2], s[|s| - 1])
  {
    TwoBytes(s[|s| - 2..]);
  }

  lemma TwoBytes(b: Bytes)
    requires |b| == 2
    ensures Un(b) == Word(b[0], b[1])
  {
    assert b[1..][0] == b[1] && b[1..][1..] == [];
    assert Un(b[1..]) == b[1];
  }

  lemma SixBytes(b: Bytes)
    requires |b| == 6
    ensures Un(b) == SixWord(b[0], b[1], b[2], b[3], b[4], b[5])
  {
    UnTail(b);
    UnTail(b[1..]);
    UnTail(b[2..]);
    UnTail(b[3..]);
    assert b[1..][1..] == b[2..] && b[2..][1..] == b[3..] && b[3..][1..] == b[4..];
    TwoBytes(b[4..]);
    hide Un;
  }

  lemma UnTail(b: Bytes)
    requires b != []
    ensures var low: int, high: int := b[0], Un(b[1..]);
      Un(b) == low + 256 * high
  {
  }

  /** The fields of an accepted EVENT, where they are read. */
  lemma EventRead(c: Crypto, key: Bytes, s: Bytes)
    requires Inspect(c, key, s).Accepted? && s[0] == 0x11
    ensures RightSize(s)
    ensures Inspect(c, key, s).frame == Event(s[1], s[2..6], Word(s[6], s[7]), Word(s[8], s[9]), s[10],
      s[11..27], s[27], s[28],
      SixWord(s[29], s[30], s[31], s[32], s[33], s[34]),
      Word(s[35], s[36]), s[38..38 + s[37]])
  {
    RightSizeVerdict(c, key, s);
    hide Crc16, Un;
    TwoBytes(s[6..8]);
    TwoBytes(s[8..10]);
    SixBytes(s[29..35]);
    TwoBytes(s[35..37]);
  }

  lemma AckRead(c: Crypto, key: Bytes, s: Bytes)
    requires Inspect(c, key, s).Accepted? && s[0] == 0x12
    ensures RightSize(s)
    ensures Inspect(c, key, s).frame == Ack(s[1], s[2..6], Word(s[6], s[7]), Word(s[8], s[9]), s[10],
      Word(s[11], s[12]), s[13..21], s[21])
  {
    RightSizeVerdict(c, key, s);
    hide Crc16, Un;
    TwoBytes(s[6..8]);
    TwoBytes(s[8..10]);
    TwoBytes(s[11..13]);
  }

  /** Steps 8 and 9, for the window the node uses: an EVENT with bit 0 of its flags set is held against
      the receiver's clock, if it has one, to 48 hours either way, and then against its ring. */
  lemma ReplayVerdict(c: Crypto, key: Bytes, s: Bytes, est: Option<int>, seen: Option<set<Bytes>>)
    requires Inspect(c, key, s).Accepted?
    ensures var v, f := Verify(c, key, s, est, seen, HLC_REPLAY_WINDOW_MS), Inspect(c, key, s).frame;
      && (v == Rejected(ReplayWindow)
          <==> f.Event? && f.flags % 2 == 1 && est.Some?
               && (f.hlcMs > est.value + 172800000 || f.hlcMs < est.value - 172800000))
      && (v == Rejected(ReplayDuplicate) <==> v != Rejected(ReplayWindow) && f.Event? && seen.Some? && f.eventId in seen.value)
      && (v == Accepted(f) <==> v != Rejected(ReplayWindow) && v != Rejected(ReplayDuplicate))
      && RingIds(v) == (if v == Accepted(f) && f.Event? then {f.eventId} else {})
  {
    hide Inspect;
  }

  /** The byte written at a corrupted position is the complement of the one there. */
  lemma FlipMeans(b: byte)
    ensures Flip(b) == 255 - b
  {
    FlipComplements(b, 8);
    assert Pow(2, 4) == 16 && Pow(2, 8) == 256;
  }
}
