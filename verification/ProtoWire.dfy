/** The proto3 wire format (Protocol Buffers Encoding guide, sections "Base 128 Varints"
    and "Signed Integers"): writer, reader, and what a run over a message's fields yields. */
module ProtoWire {
  import opened Bits

  const WIRE_VARINT := 0
  const WIRE_LEN := 2

  /** A decode that may raise ProtoDecodeError. */
  datatype Res<+T> = Ok(value: T) | Malformed {
    predicate IsFailure() {
      Malformed?
    }
    function PropagateFailure<U>(): Res<U>
      requires Malformed?
    {
      Malformed
    }
    function Extract(): T
      requires Ok?
    {
      value
    }
  }

  // ---------------------------------------------------------------- zigzag

  predicate Int64(v: int) {
    -0x8000_0000_0000_0000 <= v < 0x8000_0000_0000_0000
  }

  function ZigzagEncode(v: int): int {
    Xor(2 * v, v / 0x8000_0000_0000_0000) % U64
  }

  function ZigzagDecode(u: int): int {
    Xor(u / 2, -(u % 2))
  }

  lemma ZigzagForms(v: int, u: int)
    ensures Int64(v) ==> ZigzagEncode(v) == if v >= 0 then 2 * v else -2 * v - 1
    ensures ZigzagDecode(u) == if u % 2 == 0 then u / 2 else -(u / 2) - 1
  {
    hide Xor;
    XorZero(2 * v);
    XorOnes(2 * v);
    XorZero(u / 2);
    XorOnes(u / 2);
  }

  /** Zigzag is a bijection between the signed and the unsigned 64-bit integers. */
  lemma ZigzagBijection(v: int, u: int)
    ensures Int64(v) ==> 0 <= ZigzagEncode(v) < U64 && ZigzagDecode(ZigzagEncode(v)) == v
    ensures 0 <= u < U64 ==> Int64(ZigzagDecode(u)) && ZigzagEncode(ZigzagDecode(u)) == u
  {
    ZigzagForms(v, u);
    ZigzagForms(ZigzagDecode(u), ZigzagEncode(v));
  }

  // ---------------------------------------------------------------- varints

  function Varint(v: nat): (s: Bytes)
    ensures |s| >= 1
  {
    if v > 127 then [v % 128 + 128] + Varint(v / 128) else [v]
  }

  /** Reads a varint off the front of `s`, `k` of whose at most ten bytes are already read. */
  function ReadVarint(s: Bytes, k: nat := 0): (r: Res<(nat, Bytes)>)
    ensures r.Ok? ==> |r.value.1| < |s|
    decreases s
  {
    if s == [] then Malformed
    else if s[0] < 128 then Ok((s[0], s[1..]))
    else if k >= 9 then Malformed
    else
      var (high, rest) :- ReadVarint(s[1..], k + 1);
      Ok((s[0] % 128 + 128 * high, rest))
  }

  /** A reader that gets through has read at most ten bytes and a value below 2^70,
      which may be wider than 64 bits. */
  lemma {:induction false} ReadVarintBounds(s: Bytes, k: nat)
    requires k <= 9 && ReadVarint(s, k).Ok?
    ensures var (v, rest) := ReadVarint(s, k).value;
      && v < Pow(128, 10 - k)
      && 1 <= |s| - |rest| <= 10 - k && rest == s[|s| - |rest|..]
    decreases s
  {
    if s[0] < 128 {
      PowPositive(128, 9 - k);
    } else {
      ReadVarintBounds(s[1..], k + 1);
    }
  }

  /** Exactly when what is read fits 64 bits: unless ten bytes were read and the tenth is 2 or more. */
  lemma VarintFits64Iff(s: Bytes)
    requires ReadVarint(s).Ok?
    ensures var (v, rest) := ReadVarint(s).value;
      v < U64 <==> |s| - |rest| < 10 || s[9] < 2
  {
    Pow128Of64();
    assert 2 * Pow(128, 9) == U64 by {
      assert Pow(128, 10) == 128 * Pow(128, 9);
    }
    VarintFitsFrom(s, 0);
  }

  lemma {:induction false} VarintFitsFrom(s: Bytes, k: nat)
    requires k <= 9 && ReadVarint(s, k).Ok?
    ensures var (v, rest) := ReadVarint(s, k).value;
      && 1 <= |s| - |rest| <= 10 - k
      && (v < 2 * Pow(128, 9 - k) <==> |s| - |rest| < 10 - k || s[9 - k] < 2)
    decreases s
  {
    if s[0] < 128 {
      PowPositive(128, 9 - k);
      assert k < 9 ==> Pow(128, 9 - k) == 128 * Pow(128, 8 - k);
      if k < 9 {
        PowPositive(128, 8 - k);
      }
    } else {
      VarintFitsFrom(s[1..], k + 1);
      assert Pow(128, 9 - k) == 128 * Pow(128, 8 - k);
    }
  }

  /** The widest varint the reader lets through, and its value 2^70 - 1. */
  const WIDEST: Bytes := [255, 255, 255, 255, 255, 255, 255, 255, 255, 127]
  const WIDEST_VALUE: nat := 0x3F_FFFF_FFFF_FFFF_FFFF

  lemma WidestReads(rest: Bytes)
    ensures ReadVarint(WIDEST + rest) == Ok((WIDEST_VALUE, rest)) && WIDEST_VALUE >= U64
  {
    RunOfOnes(9, rest);
    assert WIDEST + rest == seq(9, _ => 255) + [127] + rest;
    Pow128Of64();
  }

  lemma {:induction false} RunOfOnes(n: nat, rest: Bytes)
    requires n <= 9
    ensures ReadVarint(seq(n, _ => 255) + [127] + rest, 9 - n) == Ok((Pow(128, n + 1) - 1, rest))
    decreases n
  {
    var s := seq(n, _ => 255) + [127] + rest;
    assert Pow(128, 1) == 128;
    if n > 0 {
      RunOfOnes(n - 1, rest);
      assert s[1..] == seq(n - 1, _ => 255) + [127] + rest;
    } else {
      assert s[1..] == rest;
    }
  }

  /** What was written is read back, and the reader stops right behind it. */
  lemma {:induction false} ReadWritten(v: nat, rest: Bytes, k: nat)
    requires k <= 9 && v < Pow(128, 10 - k)
    ensures ReadVarint(Varint(v) + rest, k) == Ok((v, rest))
    decreases v
  {
    var s := Varint(v) + rest;
    if v > 127 {
      assert s[1..] == Varint(v / 128) + rest;
      assert Pow(128, 1) == 128;
      if k < 9 {
        ReadWritten(v / 128, rest, k + 1);
      }
    } else {
      assert s[1..] == rest;
    }
  }

  lemma Pow128Of64()
    ensures Pow(128, 10) == 0x40_0000_0000_0000_0000
    ensures U64 <= Pow(128, 10)
  {
    assert Pow(128, 3) == 0x20_0000;
    assert Pow(128, 6) == 0x400_0000_0000;
    assert Pow(128, 8) == 0x100_0000_0000_0000;
  }

  lemma ReadWritten64(v: nat, rest: Bytes)
    requires v < U64
    ensures ReadVarint(Varint(v) + rest) == Ok((v, rest))
  {
    Pow128Of64();
    ReadWritten(v, rest, 0);
  }

  // ---------------------------------------------------------------- fields

  /** Which field numbers a message reads as varints and which as length-delimited bytes;
      a decoder goes by the number alone and looks at the wire type only to skip. */
  datatype Schema = Schema(varints: set<nat>, lens: set<nat>)

  datatype Field = Num(number: nat, value: nat) | Blob(number: nat, data: Bytes)

  function ReadLen(s: Bytes): (r: Res<(Bytes, Bytes)>)
    ensures r.Ok? ==> |r.value.1| < |s|
  {
    var (n, rest) :- ReadVarint(s);
    if n > |rest| then Malformed else Ok((rest[..n], rest[n..]))
  }

  /** Fixed-width values may run past the end; the reader is then simply at its end. */
  function Skip(s: Bytes, wire: nat): (r: Res<Bytes>)
    ensures r.Ok? ==> |r.value| <= |s|
  {
    if wire == WIRE_VARINT then
      var (_, rest) :- ReadVarint(s);
      Ok(rest)
    else if wire == WIRE_LEN then
      var (_, rest) :- ReadLen(s);
      Ok(rest)
    else if wire == 1 then Ok(if |s| < 8 then [] else s[8..])
    else if wire == 5 then Ok(if |s| < 4 then [] else s[4..])
    else Malformed
  }

  /** One turn of a decode loop: the field read, if its number is known, and the rest. */
  function NextField(m: Schema, s: Bytes): (r: Res<(seq<Field>, Bytes)>)
    ensures r.Ok? ==> |r.value.1| < |s| && |r.value.0| <= 1
  {
    var (tag, rest) :- ReadVarint(s);
    var number := tag / 8;
    if number in m.varints then
      var (v, rest') :- ReadVarint(rest);
      Ok(([Num(number, v)], rest'))
    else if number in m.lens then
      var (data, rest') :- ReadLen(rest);
      Ok(([Blob(number, data)], rest'))
    else
      var rest' :- Skip(rest, tag % 8);
      Ok(([], rest'))
  }

  /** All known fields of a message, in order; defined for every byte string. */
  function Fields(m: Schema, s: Bytes): Res<seq<Field>>
    decreases |s|
  {
    if s == [] then Ok([])
    else
      var (fs, rest) :- NextField(m, s);
      Prepend(fs, Fields(m, rest))
  }

  function Prepend(fs: seq<Field>, r: Res<seq<Field>>): Res<seq<Field>> {
    var more :- r;
    Ok(fs + more)
  }

  lemma PrependConcat(fs: seq<Field>, gs: seq<Field>, r: Res<seq<Field>>)
    ensures Prepend(fs, Prepend(gs, r)) == Prepend(fs + gs, r)
    ensures Prepend([], r) == r
  {
    if r.Ok? {
      assert fs + (gs + r.value) == (fs + gs) + r.value;
      assert [] + r.value == r.value;
    }
  }

  function WriteField(f: Field): Bytes {
    match f
    case Num(n, v) => Varint((n * 8 + WIRE_VARINT) % U64) + Varint(v % U64)
    case Blob(n, data) => Varint((n * 8 + WIRE_LEN) % U64) + Varint(|data| % U64) + data
  }

  function Write(fs: seq<Field>): Bytes {
    if fs == [] then [] else WriteField(fs[0]) + Write(fs[1..])
  }

  predicate Writable(m: Schema, f: Field) {
    && f.number * 8 + 8 <= U64
    && (f.Num? ==> f.value < U64 && f.number in m.varints)
    && (f.Blob? ==> |f.data| < U64 && f.number in m.lens && f.number !in m.varints)
  }

  lemma TagParts(number: nat, wire: nat)
    requires wire < 8
    ensures (number * 8 + wire) / 8 == number && (number * 8 + wire) % 8 == wire
  {
  }

  lemma NextWritten(m: Schema, f: Field, rest: Bytes)
    requires Writable(m, f)
    ensures NextField(m, WriteField(f) + rest) == Ok(([f], rest))
  {
    hide ReadVarint, Varint;
    match f
    case Num(n, v) =>
      TagParts(n, WIRE_VARINT);
      assert WriteField(f) + rest == Varint(n * 8 + WIRE_VARINT) + (Varint(v) + rest);
      ReadWritten64(n * 8 + WIRE_VARINT, Varint(v) + rest);
      ReadWritten64(v, rest);
    case Blob(n, data) =>
      TagParts(n, WIRE_LEN);
      assert WriteField(f) + rest == Varint(n * 8 + WIRE_LEN) + (Varint(|data|) + (data + rest));
      ReadWritten64(n * 8 + WIRE_LEN, Varint(|data|) + (data + rest));
      LenWritten(data, rest);
  }

  lemma LenWritten(data: Bytes, rest: Bytes)
    requires |data| < U64
    ensures ReadLen(Varint(|data|) + (data + rest)) == Ok((data, rest))
  {
    hide ReadVarint, Varint;
    ReadWritten64(|data|, data + rest);
    assert (data + rest)[..|data|] == data && (data + rest)[|data|..] == rest;
  }

  /** Reading a written message gives back its fields, whatever follows them. */
  lemma {:induction false} FieldsWritten(m: Schema, fs: seq<Field>, rest: Bytes)
    requires forall f | f in fs :: Writable(m, f)
    ensures Fields(m, Write(fs) + rest) == Prepend(fs, Fields(m, rest))
    decreases fs
  {
    if fs == [] {
      assert Write(fs) + rest == rest;
      PrependConcat([], [], Fields(m, rest));
    } else {
      var tail := Write(fs[1..]) + rest;
      assert Write(fs) + rest == WriteField(fs[0]) + tail;
      NextWritten(m, fs[0], tail);
      FieldsWritten(m, fs[1..], rest);
      FieldsTurn(m, WriteField(fs[0]) + tail, [fs[0]], tail);
      assert fs == [fs[0]] + fs[1..];
      PrependConcat([fs[0]], fs[1..], Fields(m, rest));
    }
  }

  lemma FieldsTurn(m: Schema, s: Bytes, fs: seq<Field>, rest: Bytes)
    requires NextField(m, s) == Ok((fs, rest))
    ensures Fields(m, s) == Prepend(fs, Fields(m, rest))
  {
    hide NextField;
  }

  /** A written message reads back as exactly its fields. */
  lemma ReadBack(m: Schema, fs: seq<Field>)
    requires forall f | f in fs :: Writable(m, f)
    ensures Fields(m, Write(fs)) == Ok(fs)
  {
    FieldsWritten(m, fs, []);
    assert Write(fs) + [] == Write(fs) && fs + [] == fs;
  }

  lemma {:induction false} WriteConcat(fs: seq<Field>, gs: seq<Field>)
    ensures Write(fs + gs) == Write(fs) + Write(gs)
    decreases fs
  {
    if fs == [] {
      assert fs + gs == gs;
    } else {
      assert (fs + gs)[1..] == fs[1..] + gs;
      WriteConcat(fs[1..], gs);
    }
  }

  // ---------------------------------------------------------------- unknown fields

  /** `s` is a run of complete fields: every one of them ends inside `s`. */
  predicate Complete(m: Schema, s: Bytes)
    decreases |s|
  {
    s == [] || (FieldInside(m, s) && NextField(m, s).Ok? && Complete(m, NextField(m, s).value.1))
  }

  /** The first field of `s` does not run past the end of `s`. */
  predicate FieldInside(m: Schema, s: Bytes) {
    ReadVarint(s).Ok? ==>
      var (tag, rest) := ReadVarint(s).value;
      tag / 8 !in m.varints && tag / 8 !in m.lens ==>
        (tag % 8 == 1 ==> |rest| >= 8) && (tag % 8 == 5 ==> |rest| >= 4)
  }

  lemma {:induction false} ReadVarintLocal(s: Bytes, t: Bytes, k: nat)
    requires ReadVarint(s, k).Ok?
    ensures ReadVarint(s + t, k) == Ok((ReadVarint(s, k).value.0, ReadVarint(s, k).value.1 + t))
    decreases s
  {
    assert (s + t)[1..] == s[1..] + t;
    if s[0] >= 128 {
      ReadVarintLocal(s[1..], t, k + 1);
    }
  }

  lemma ReadLenLocal(s: Bytes, t: Bytes)
    requires ReadLen(s).Ok?
    ensures ReadLen(s + t) == Ok((ReadLen(s).value.0, ReadLen(s).value.1 + t))
  {
    ReadVarintLocal(s, t, 0);
    var (n, rest) := ReadVarint(s).value;
    assert (rest + t)[..n] == rest[..n] && (rest + t)[n..] == rest[n..] + t;
  }

  /** A complete field reads the same with anything behind it. */
  lemma NextFieldLocal(m: Schema, s: Bytes, t: Bytes)
    requires s != [] && NextField(m, s).Ok? && FieldInside(m, s)
    ensures NextField(m, s + t) == Ok((NextField(m, s).value.0, NextField(m, s).value.1 + t))
  {
    hide ReadVarint, ReadLen;
    ReadVarintLocal(s, t, 0);
    var (tag, rest) := ReadVarint(s).value;
    if ReadVarint(rest).Ok? {
      ReadVarintLocal(rest, t, 0);
    }
    if ReadLen(rest).Ok? {
      ReadLenLocal(rest, t);
    }
    assert |rest| >= 8 ==> (rest + t)[8..] == rest[8..] + t;
    assert |rest| >= 4 ==> (rest + t)[4..] == rest[4..] + t;
  }

  /** A run of complete fields contributes its fields and hands over to what follows. */
  lemma {:induction false} CompleteThen(m: Schema, s: Bytes, t: Bytes)
    requires Complete(m, s)
    ensures Fields(m, s).Ok?
    ensures Fields(m, s + t) == Prepend(Fields(m, s).value, Fields(m, t))
    decreases |s|
  {
    if s == [] {
      assert s + t == t;
      PrependConcat([], [], Fields(m, t));
    } else {
      NextFieldLocal(m, s, t);
      var (fs, rest) := NextField(m, s).value;
      CompleteThen(m, rest, t);
      PrependConcat(fs, Fields(m, rest).value, Fields(m, t));
    }
  }

  /** Forward compatibility: complete fields with unknown numbers, put between the fields of a
      message, change nothing a decoder sees, whether the rest is well formed or not. */
  lemma UnknownFieldsIgnored(m: Schema, before: Bytes, unknown: Bytes, after: Bytes)
    requires Complete(m, before)
    requires Complete(m, unknown) && Fields(m, unknown) == Ok([])
    ensures Fields(m, before + unknown + after) == Fields(m, before + after)
  {
    hide Complete, Fields;
    CompleteThen(m, unknown, after);
    assert before + unknown + after == before + (unknown + after);
    CompleteThen(m, before, unknown + after);
    CompleteThen(m, before, after);
    PrependConcat([], [], Fields(m, after));
  }

  /** A field of a kind this decoder does not know, in each wire type that has a length. */
  datatype Alien =
    | AlienVarint(number: nat, value: nat)
    | AlienLen(number: nat, data: Bytes)
    | AlienFixed(number: nat, data: Bytes)

  function WriteAlien(a: Alien): Bytes {
    match a
    case AlienVarint(n, v) => Varint(n * 8 + WIRE_VARINT) + Varint(v)
    case AlienLen(n, data) => Varint(n * 8 + WIRE_LEN) + Varint(|data|) + data
    case AlienFixed(n, data) => Varint(n * 8 + if |data| == 8 then 1 else 5) + data
  }

  /** A number no decoder of this message knows, and content that fits its wire type. */
  predicate Foreign(m: Schema, a: Alien) {
    && a.number !in m.varints && a.number !in m.lens && a.number * 8 + 8 <= U64
    && (a.AlienVarint? ==> a.value < U64)
    && (a.AlienLen? ==> |a.data| < U64)
    && (a.AlienFixed? ==> |a.data| == 4 || |a.data| == 8)
  }

  /** A written field with an unknown number is complete and invisible. */
  lemma AlienComplete(m: Schema, a: Alien)
    requires Foreign(m, a)
    ensures Complete(m, WriteAlien(a)) && Fields(m, WriteAlien(a)) == Ok([])
  {
    hide ReadVarint, Varint;
    var s := WriteAlien(a);
    match a {
      case AlienVarint(n, v) =>
        TagParts(n, WIRE_VARINT);
        ReadWritten64(n * 8 + WIRE_VARINT, Varint(v));
        ReadWritten64(v, []);
        assert Varint(v) + [] == Varint(v);
      case AlienLen(n, data) =>
        TagParts(n, WIRE_LEN);
        assert s == Varint(n * 8 + WIRE_LEN) + (Varint(|data|) + (data + []));
        ReadWritten64(n * 8 + WIRE_LEN, Varint(|data|) + (data + []));
        LenWritten(data, []);
      case AlienFixed(n, data) =>
        var wire := if |data| == 8 then 1 else 5;
        TagParts(n, wire);
        ReadWritten64(n * 8 + wire, data);
    }
    assert NextField(m, s) == Ok(([], [])) && FieldInside(m, s);
    assert Complete(m, []);
    FieldsTurn(m, s, [], []);
    PrependConcat([], [], Fields(m, []));
  }

  /** What a run of written fields is to `Complete`: each ends where the next begins. */
  lemma {:induction false} WrittenComplete(m: Schema, fs: seq<Field>)
    requires forall f | f in fs :: Writable(m, f)
    ensures Complete(m, Write(fs))
    decreases fs
  {
    hide NextField, WriteField;
    if fs != [] {
      NextWritten(m, fs[0], Write(fs[1..]));
      WrittenInside(m, fs[0], Write(fs[1..]));
      WrittenComplete(m, fs[1..]);
    }
  }

  lemma WrittenInside(m: Schema, f: Field, rest: Bytes)
    requires Writable(m, f)
    ensures FieldInside(m, WriteField(f) + rest)
  {
    hide ReadVarint, Varint;
    match f
    case Num(n, v) =>
      TagParts(n, WIRE_VARINT);
      assert WriteField(f) + rest == Varint(n * 8 + WIRE_VARINT) + (Varint(v) + rest);
      ReadWritten64(n * 8 + WIRE_VARINT, Varint(v) + rest);
    case Blob(n, data) =>
      TagParts(n, WIRE_LEN);
      assert WriteField(f) + rest == Varint(n * 8 + WIRE_LEN) + (Varint(|data|) + (data + rest));
      ReadWritten64(n * 8 + WIRE_LEN, Varint(|data|) + (data + rest));
  }

  /** A message written by a newer writer: fields this decoder knows and fields it does not. */
  datatype Item = Known(field: Field) | Unknown(alien: Alien)

  function WriteItems(items: seq<Item>): Bytes {
    if items == [] then []
    else (match items[0] case Known(f) => WriteField(f) case Unknown(a) => WriteAlien(a)) + WriteItems(items[1..])
  }

  /** The fields this decoder knows. */
  function KnownFields(items: seq<Item>): seq<Field> {
    if items == [] then []
    else (match items[0] case Known(f) => [f] case Unknown(_) => []) + KnownFields(items[1..])
  }

  predicate ItemFits(m: Schema, i: Item) {
    match i
    case Known(f) => Writable(m, f)
    case Unknown(a) => Foreign(m, a)
  }

  /** However many unknown fields stand between, before and behind the known ones, the decoder sees
      the known ones, in order. */
  lemma {:induction false} ItemsRead(m: Schema, items: seq<Item>)
    requires forall i | i in items :: ItemFits(m, i)
    ensures Fields(m, WriteItems(items)) == Ok(KnownFields(items))
    decreases items
  {
    hide Fields, Complete, WriteField, WriteAlien, Writable, Foreign;
    if items == [] {
      FieldsOfNothing(m);
    } else {
      assert ItemFits(m, items[0]);
      var tail := WriteItems(items[1..]);
      ItemsRead(m, items[1..]);
      match items[0] {
        case Known(f) =>
          FieldsWritten(m, [f], tail);
          assert [f][1..] == [];
          assert WriteField(f) + [] == WriteField(f) == Write([f]);
        case Unknown(a) =>
          AlienComplete(m, a);
          CompleteThen(m, WriteAlien(a), tail);
          PrependConcat([], [], Fields(m, tail));
      }
    }
  }

  lemma FieldsOfNothing(m: Schema)
    ensures Fields(m, []) == Ok([])
  {
  }

  // ---------------------------------------------------------------- decoding a message

  function Fold<A>(step: (A, Field) -> Res<A>, fs: seq<Field>, acc: A): Res<A> {
    if fs == [] then Ok(acc)
    else
      var next :- step(acc, fs[0]);
      Fold(step, fs[1..], next)
  }

  /** What a decode loop holding `acc` makes of the rest `s` of a message. */
  function Decode<A>(m: Schema, step: (A, Field) -> Res<A>, s: Bytes, acc: A): Res<A> {
    var fs :- Fields(m, s);
    Fold(step, fs, acc)
  }

  lemma {:induction false} FoldConcat<A>(step: (A, Field) -> Res<A>, fs: seq<Field>, gs: seq<Field>, acc: A)
    ensures Fold(step, fs + gs, acc) == (match Fold(step, fs, acc) case Ok(mid) => Fold(step, gs, mid) case Malformed => Malformed)
    decreases fs
  {
    if fs == [] {
      assert fs + gs == gs;
    } else {
      assert (fs + gs)[1..] == fs[1..] + gs;
      if step(acc, fs[0]).Ok? {
        FoldConcat(step, fs[1..], gs, step(acc, fs[0]).value);
      }
    }
  }

  lemma Fold1<A>(step: (A, Field) -> Res<A>, f: Field, acc: A)
    ensures Fold(step, [f], acc) == step(acc, f)
  {
    assert [f][1..] == [];
  }

  /** One turn of a decode loop that read a known field. */
  lemma DecodeTurn<A>(m: Schema, step: (A, Field) -> Res<A>, s: Bytes, acc: A)
    requires s != []
    ensures NextField(m, s).Malformed? ==> Decode(m, step, s, acc) == Malformed
    ensures NextField(m, s).Ok? ==>
      var (fs, rest) := NextField(m, s).value;
      && (fs == [] ==> Decode(m, step, s, acc) == Decode(m, step, rest, acc))
      && (|fs| == 1 ==>
            && (step(acc, fs[0]).Ok? ==> Decode(m, step, s, acc) == Decode(m, step, rest, step(acc, fs[0]).value))
            && (step(acc, fs[0]).Malformed? ==> Decode(m, step, s, acc) == Malformed))
  {
    if NextField(m, s).Ok? {
      var (fs, rest) := NextField(m, s).value;
      if Fields(m, rest).Ok? {
        var more := Fields(m, rest).value;
        if fs == [] {
          assert fs + more == more;
        } else if |fs| == 1 {
          assert (fs + more)[0] == fs[0] && (fs + more)[1..] == more;
        }
      }
    }
  }

  /** The outcome of one turn of a decode loop: the new accumulator and the rest. */
  function Turn<A>(m: Schema, step: (A, Field) -> Res<A>, s: Bytes, acc: A): Res<(A, Bytes)> {
    var (fs, rest) :- NextField(m, s);
    if fs == [] then Ok((acc, rest))
    else
      var next :- step(acc, fs[0]);
      Ok((next, rest))
  }

  lemma DecodeByTurns<A>(m: Schema, step: (A, Field) -> Res<A>, s: Bytes, acc: A)
    requires s != []
    ensures Turn(m, step, s, acc).Malformed? ==> Decode(m, step, s, acc) == Malformed
    ensures Turn(m, step, s, acc).Ok? ==>
      var (next, rest) := Turn(m, step, s, acc).value;
      Decode(m, step, s, acc) == Decode(m, step, rest, next) && |rest| < |s|
  {
    hide NextField, Decode;
    DecodeTurn(m, step, s, acc);
  }

  /** Decoding what was written folds the fields. */
  lemma DecodeWritten<A>(m: Schema, step: (A, Field) -> Res<A>, fs: seq<Field>, acc: A)
    requires forall f | f in fs :: Writable(m, f)
    ensures Decode(m, step, Write(fs), acc) == Fold(step, fs, acc)
  {
    ReadBack(m, fs);
  }

  /** The fields written so far are writable and bring a decoder from `acc` to `mid`. */
  ghost predicate Brings<A>(m: Schema, step: (A, Field) -> Res<A>, fs: seq<Field>, acc: A, mid: A) {
    && (forall f | f in fs :: Writable(m, f))
    && Fold(step, fs, acc) == Ok(mid)
  }

  /** One more field, or none when the writer omits it. */
  lemma Stage<A>(m: Schema, step: (A, Field) -> Res<A>, fs: seq<Field>, f: seq<Field>, acc: A, mid: A, mid': A)
    requires Brings(m, step, fs, acc, mid)
    requires |f| <= 1
    requires f == [] ==> mid' == mid
    requires f != [] ==> Writable(m, f[0]) && step(mid, f[0]) == Ok(mid')
    ensures Brings(m, step, fs + f, acc, mid')
  {
    if f == [] {
      assert fs + f == fs;
    } else {
      assert f == [f[0]];
      FoldConcat(step, fs, f, acc);
      Fold1(step, f[0], mid);
    }
  }

  lemma StageFirst<A>(m: Schema, step: (A, Field) -> Res<A>, f: seq<Field>, acc: A, mid: A)
    requires |f| <= 1
    requires f == [] ==> mid == acc
    requires f != [] ==> Writable(m, f[0]) && step(acc, f[0]) == Ok(mid)
    ensures Brings(m, step, f, acc, mid)
  {
    Stage(m, step, [], f, acc, acc, mid);
    assert [] + f == f;
  }

  lemma StageDone<A>(m: Schema, step: (A, Field) -> Res<A>, fs: seq<Field>, acc: A, mid: A)
    requires Brings(m, step, fs, acc, mid)
    ensures Decode(m, step, Write(fs), acc) == Ok(mid)
  {
    DecodeWritten(m, step, fs, acc);
  }

  // ---------------------------------------------------------------- writer and reader objects

  /** proto3 omits a zero number. */
  function NumField(n: nat, v: nat): seq<Field> {
    if v == 0 then [] else [Num(n, v)]
  }

  /** proto3 omits empty bytes. */
  function BlobField(n: nat, data: Bytes): seq<Field> {
    if data == [] then [] else [Blob(n, data)]
  }

  /** A signed number is omitted when it is zero. */
  function SintField(n: nat, v: int): seq<Field> {
    if v == 0 then [] else [Num(n, ZigzagEncode(v))]
  }

  /** Length-delimited fields have wire type 2, numbers wire type 0. */
  lemma FieldBytes(n: nat, v: nat, data: Bytes)
    requires n * 8 + 8 <= U64
    ensures v < U64 ==> WriteField(Num(n, v)) == Varint(8 * n) + Varint(v)
    ensures |data| < U64 ==> WriteField(Blob(n, data)) == Varint(8 * n + 2) + Varint(|data|) + data
  {
    hide Varint;
  }

  /** Small ones in full. */
  lemma ShortFieldBytes(n: nat, v: nat, data: Bytes)
    requires 0 < n < 16
    ensures v < 128 ==> WriteField(Num(n, v)) == [8 * n, v]
    ensures |data| < 128 ==> WriteField(Blob(n, data)) == [8 * n + 2, |data|] + data
  {
    FieldBytes(n, v, data);
  }

  class ProtoWriter {
    var buf: Bytes
    ghost var fields: seq<Field>  // the fields written so far

    ghost predicate Valid()
      reads this
    {
      buf == Write(fields)
    }

    constructor ()
      ensures Valid() && fields == []
    {
      buf := [];
      fields := [];
    }

    method PutVarint(value: nat)
      modifies this`buf
      ensures buf == old(buf) + Varint(value % U64)
    {
      var v: nat := value % U64;
      while v > 0x7F
        invariant buf + Varint(v) == old(buf) + Varint(value % U64)
      {
        assert buf + Varint(v) == buf + [v % 128 + 128] + Varint(v / 128);
        buf := buf + [v % 128 + 128];
        v := v / 128;
      }
      buf := buf + [v];
    }

    method PutNum(n: nat, value: nat)
      requires Valid()
      modifies this
      ensures Valid() && fields == old(fields) + [Num(n, value)]
      ensures 0 < n < 16 && value < 128 ==> buf == old(buf) + [8 * n, value]
    {
      hide Varint, Write;
      PutVarint(n * 8 + WIRE_VARINT);
      PutVarint(value);
      assert buf == old(buf) + WriteField(Num(n, value));
      hide WriteField;
      if 0 < n < 16 {
        ShortFieldBytes(n, value, []);
      }
      WriteOne(fields, Num(n, value));
      fields := fields + [Num(n, value)];
    }

    method PutUint(n: nat, value: nat)
      requires Valid()
      modifies this
      ensures Valid() && fields == old(fields) + NumField(n, value)
      ensures value == 0 ==> buf == old(buf)
      ensures 0 < n < 16 && 0 < value < 128 ==> buf == old(buf) + [8 * n, value]
    {
      if value == 0 {
        assert fields + [] == fields;
        return;
      }
      PutNum(n, value);
    }

    method PutSint64(n: nat, value: int)
      requires Valid()
      modifies this
      ensures Valid() && fields == old(fields) + SintField(n, value)
      ensures value == 0 ==> buf == old(buf)
      ensures 0 < n < 16 && 0 < value < 64 ==> buf == old(buf) + [8 * n, 2 * value]
      ensures 0 < n < 16 && -64 <= value < 0 ==> buf == old(buf) + [8 * n, -2 * value - 1]
    {
      if value == 0 {
        assert fields + [] == fields;
        return;
      }
      ZigzagForms(value, 0);
      hide ZigzagEncode;
      PutNum(n, ZigzagEncode(value));
    }

    /** Tag and length even for empty bytes; also how nested messages are written. */
    method PutBytesAlways(n: nat, data: Bytes)
      requires Valid()
      modifies this
      ensures Valid() && fields == old(fields) + [Blob(n, data)]
      ensures 0 < n < 16 && |data| < 128 ==> buf == old(buf) + [8 * n + 2, |data|] + data
    {
      hide Varint, Write;
      PutVarint(n * 8 + WIRE_LEN);
      PutVarint(|data|);
      buf := buf + data;
      assert buf == old(buf) + WriteField(Blob(n, data));
      hide WriteField;
      if 0 < n < 16 {
        ShortFieldBytes(n, 0, data);
      }
      WriteOne(fields, Blob(n, data));
      fields := fields + [Blob(n, data)];
    }

    method PutBytes(n: nat, data: Bytes)
      requires Valid()
      modifies this
      ensures Valid() && fields == old(fields) + BlobField(n, data)
      ensures data == [] ==> buf == old(buf)
      ensures 0 < n < 16 && 0 < |data| < 128 ==> buf == old(buf) + [8 * n + 2, |data|] + data
    {
      if data == [] {
        assert fields + [] == fields;
        return;
      }
      PutBytesAlways(n, data);
    }
  }

  lemma WriteOne(fs: seq<Field>, f: Field)
    ensures Write(fs + [f]) == Write(fs) + WriteField(f)
  {
    WriteConcat(fs, [f]);
    assert [f][1..] == [];
    assert WriteField(f) + [] == WriteField(f);
  }

  class ProtoReader {
    const data: Bytes
    var pos: nat

    constructor (data: Bytes)
      ensures this.data == data && pos == 0
    {
      this.data := data;
      pos := 0;
    }

    /** What is still to be read; nothing once the position is at or past the end. */
    function Rest(): (r: Bytes)
      reads this
    {
      if pos >= |data| then [] else data[pos..]
    }

    predicate AtEnd()
      reads this
      ensures AtEnd() <==> Rest() == []
    {
      pos >= |data|
    }

    method GetVarint() returns (r: Res<nat>)
      modifies this
      ensures ReadVarint(old(Rest())).Ok? <==> r.Ok?
      ensures r.Ok? ==> ReadVarint(old(Rest())) == Ok((r.value, Rest())) && pos <= |data|
    {
      hide ReadVarint, Resumed, Pow;
      var result: nat, shift: nat := 0, 0;
      ghost var k: nat := 0;
      ResumedStart(Rest());
      while true
        invariant shift == 7 * k && k <= 9
        invariant ReadVarint(old(Rest())) == Resumed(result, Pow(2, shift), ReadVarint(Rest(), k))
        decreases 10 - k
      {
        ghost var s := Rest();
        ReadVarintTurn(result, Pow(2, shift), s, k);
        if pos >= |data| {
          return Malformed;
        }
        var b := data[pos];
        pos := pos + 1;
        assert Rest() == s[1..];
        result := result + b % 128 * Pow(2, shift);
        if b < 128 {
          return Ok(result);
        }
        ShiftSeven(shift);
        shift := shift + 7;
        if shift > 63 {
          return Malformed;
        }
        k := k + 1;
      }
    }

    method GetLen() returns (r: Res<Bytes>)
      modifies this
      ensures ReadLen(old(Rest())).Ok? <==> r.Ok?
      ensures r.Ok? ==> ReadLen(old(Rest())) == Ok((r.value, Rest()))
    {
      var n :- GetVarint();
      ghost var s := Rest();
      if pos + n > |data| {
        return Malformed;
      }
      r := Ok(data[pos..pos + n]);
      pos := pos + n;
      assert r.value == s[..n] && Rest() == s[n..];
    }

    method SkipValue(wire: nat) returns (r: Res<()>)
      modifies this
      ensures Skip(old(Rest()), wire).Ok? <==> r.Ok?
      ensures r.Ok? ==> Skip(old(Rest()), wire) == Ok(Rest())
    {
      if wire == WIRE_VARINT {
        var _ :- GetVarint();
      } else if wire == WIRE_LEN {
        var _ :- GetLen();
      } else if wire == 1 {
        pos := pos + 8;
      } else if wire == 5 {
        pos := pos + 4;
      } else {
        return Malformed;
      }
      return Ok(());
    }
  }

  /** The value of a varint whose low bits are `low`, the rest being read from bit `scale` on. */
  function Resumed(low: nat, scale: nat, r: Res<(nat, Bytes)>): Res<(nat, Bytes)> {
    var (high, rest) :- r;
    Ok((low + scale * high, rest))
  }

  lemma ResumedStart(s: Bytes)
    ensures ReadVarint(s) == Resumed(0, Pow(2, 0), ReadVarint(s, 0))
  {
  }

  lemma ReadVarintTurn(low: nat, scale: nat, s: Bytes, k: nat)
    ensures s == [] ==> Resumed(low, scale, ReadVarint(s, k)) == Malformed
    ensures s != [] && s[0] < 128 ==> Resumed(low, scale, ReadVarint(s, k)) == Ok((low + s[0] % 128 * scale, s[1..]))
    ensures s != [] && s[0] >= 128 ==> (
      Resumed(low, scale, ReadVarint(s, k))
      == if k >= 9 then Malformed else Resumed(low + s[0] % 128 * scale, 128 * scale, ReadVarint(s[1..], k + 1)))
  {
    if s != [] && s[0] >= 128 && k < 9 && ReadVarint(s[1..], k + 1).Ok? {
      HighBits(s[0] % 128, scale, ReadVarint(s[1..], k + 1).value.0);
    }
  }

  lemma HighBits(b: nat, scale: nat, high: nat)
    ensures scale * (b + 128 * high) == b * scale + 128 * scale * high
  {
    assert scale * (128 * high) == 128 * scale * high;
  }

  lemma ShiftSeven(n: nat)
    ensures Pow(2, n + 7) == 128 * Pow(2, n)
  {
    assert Pow(2, n + 2) == 4 * Pow(2, n);
    assert Pow(2, n + 4) == 4 * Pow(2, n + 2);
    assert Pow(2, n + 6) == 4 * Pow(2, n + 4);
  }
}
