/** The phone that signs envelopes, its agreement with the node, and what survives end to end. */
module Phone {
  import opened Bits
  import opened Keys
  import opened ProtoWire
  import E = EnvelopeV3
  import opened Compact
  import opened Model
  import opened Heapq
  import opened Channel
  import opened Node
  import opened Pipeline
  import opened Theorems
  import opened Genuine

  const DEFAULT_VALIDITY_MS := 24 * 60 * 60 * 1000
  const LAT_E7 := 250339805
  const LNG_E7 := 1215654177

  /** `idSeed` renders phone id, event type and counter into the bytes an envelope id is hashed from. */
  datatype PhoneCfg = PhoneCfg(field: FieldKeys, crypto: Crypto, seed: Bytes, anonUserId: Bytes16, idSeed: (nat, nat) -> Bytes)
  {
    function EnvelopeId(eventType: nat, counter: nat): (id: Bytes)
      ensures |id| == 16
    {
      crypto.sha256(idSeed(eventType, counter))[..16]
    }
  }

  /** An envelope with the phone's signature and MAC; None when packing the canonical input raises. */
  function Signed(p: PhoneCfg, e: E.Envelope): Option<E.Envelope> {
    match E.Canonical(E.ClaimOf(p.crypto, e))
    case None => None
    case Some(canonical) =>
      Some(e.(signature := p.crypto.sign(p.seed, canonical), fieldMac := p.crypto.fieldMac(p.field.fieldMacKey, canonical)))
  }

  function Unsigned(p: PhoneCfg, counter: nat, now: nat, eventType: nat, priority: nat, payload: Bytes, expires: nat): E.Envelope {
    E.Envelope(E.PROTOCOL_VERSION_V3, p.EnvelopeId(eventType, counter), eventType, priority, E.Hlc(now, counter),
      E.Hlc(expires, 0), 0, p.crypto.publicKey(p.seed), E.SIG_ALGO_ED25519, [], payload, [], false, p.field.fieldId, [])
  }

  function BuildEnvelope(p: PhoneCfg, counter: nat, now: int, eventType: nat, priority: nat, payload: Bytes, validity: int): Option<E.Envelope> {
    if now < 0 || now + validity < 0 then None
    else Signed(p, Unsigned(p, counter, now, eventType, priority, payload, now + validity))
  }

  /** What a holder of the phone's key may put into an envelope of the field before signing it. */
  predicate Draft(p: PhoneCfg, e: E.Envelope) {
    && e.protocolVersion == E.PROTOCOL_VERSION_V3 && e.sigAlgo == E.SIG_ALGO_ED25519
    && |e.envelopeId| == 16 && e.eventType != 0 && e.priority != 0
    && e.authorKey == p.crypto.publicKey(p.seed) && e.fieldId == p.field.fieldId
    && |e.payload| < U64 && |e.lastRelayId| < U64
  }

  /** A signed envelope meets the field rules and its numbers fit. */
  lemma SignedIsWritable(p: PhoneCfg, e: E.Envelope)
    requires Draft(p, e) && Signed(p, e).Some?
    ensures var v := Signed(p, e).value;
      && E.Required(v) && E.EnvelopeFits(v) && E.ClaimOf(p.crypto, v) == E.ClaimOf(p.crypto, e)
      && v == e.(signature := v.signature, fieldMac := v.fieldMac)
  {
    E.CanonicalPackable(E.ClaimOf(p.crypto, e));
    hide E.Canonical;
  }

  /** Signer and node agree, whoever filled in the fields: the node decodes the very envelope, rebuilds the
      same canonical input, and passes it unless it has expired. */
  lemma SignedAgrees(p: PhoneCfg, cfg: NodeCfg, e: E.Envelope, later: int)
    requires p.crypto.SignaturesVerify() && cfg.crypto == p.crypto && cfg.field == p.field
    requires Draft(p, e) && Signed(p, e).Some?
    ensures var v := Signed(p, e).value;
      && E.EnvelopeOf(E.EnvelopeBytes(v)) == Ok(v)
      && Screen(cfg, later, E.EnvelopeBytes(v)) == if v.expiresAt.ms < later then Refused(v.envelopeId) else Verified(v)
  {
    SignedIsWritable(p, e);
    var v := Signed(p, e).value;
    E.EnvelopeRoundTrip(v);
    hide E.EnvelopeOf, E.EnvelopeBytes, E.Canonical, E.Required, E.EnvelopeFits;
    var canonical := E.Canonical(E.ClaimOf(p.crypto, e)).value;
    assert p.crypto.verify(p.crypto.publicKey(p.seed), canonical, p.crypto.sign(p.seed, canonical));
  }

  /** Given room, a signed, unseen, unexpired envelope with a translatable payload is stored, evicting nothing. */
  lemma SignedStored(p: PhoneCfg, cfg: NodeCfg, s: NodeState, e: E.Envelope, later: int)
    requires p.crypto.SignaturesVerify() && cfg.crypto == p.crypto && cfg.field == p.field
    requires Draft(p, e) && Signed(p, e).Some? && WirePriority(e.priority)
    requires later <= e.expiresAt.ms && e.envelopeId !in s.seenBle && |s.queue| < cfg.maxQueueSize
    requires Translate(cfg, s.anonByAuthor, later, Signed(p, e).value).Ok?
    ensures var v := Signed(p, e).value;
      var (compact, anon) := Translate(cfg, s.anonByAuthor, later, v).value;
      Decide(cfg, s, later, E.EnvelopeBytes(v)) == Store(EventOf(v, compact), anon, [])
  {
    SignedAgrees(p, cfg, e, later);
    SignedIsWritable(p, e);
    hide Screen, Signed, Translate, E.EnvelopeBytes;
  }

  /** Phone and node agree: the node decodes the very envelope the phone built, rebuilds the same
      canonical input, and passes it unless it has expired. */
  lemma NodeAgrees(p: PhoneCfg, cfg: NodeCfg, counter: nat, now: int, eventType: nat, priority: nat, payload: Bytes, validity: int, later: int)
    requires p.crypto.SignaturesVerify() && cfg.crypto == p.crypto && cfg.field == p.field
    requires eventType != 0 && priority != 0 && |payload| < U64
    requires BuildEnvelope(p, counter, now, eventType, priority, payload, validity).Some?
    ensures var e := BuildEnvelope(p, counter, now, eventType, priority, payload, validity).value;
      && E.EnvelopeOf(E.EnvelopeBytes(e)) == Ok(e)
      && Screen(cfg, later, E.EnvelopeBytes(e)) == if now + validity < later then Refused(e.envelopeId) else Verified(e)
  {
    var e := Unsigned(p, counter, now, eventType, priority, payload, now + validity);
    SignedIsWritable(p, e);
    SignedAgrees(p, cfg, e, later);
    hide Signed, Screen, E.EnvelopeOf, E.EnvelopeBytes;
  }

  /** Given room, an unseen, unexpired envelope with a translatable payload is stored, evicting nothing. */
  lemma NodeStores(p: PhoneCfg, cfg: NodeCfg, s: NodeState, counter: nat, now: int, eventType: nat, priority: nat, payload: Bytes, validity: int, later: int)
    requires p.crypto.SignaturesVerify() && cfg.crypto == p.crypto && cfg.field == p.field
    requires eventType != 0 && WirePriority(priority) && |payload| < U64
    requires BuildEnvelope(p, counter, now, eventType, priority, payload, validity).Some?
    requires var e := BuildEnvelope(p, counter, now, eventType, priority, payload, validity).value;
      && later <= now + validity && e.envelopeId !in s.seenBle && |s.queue| < cfg.maxQueueSize
      && Translate(cfg, s.anonByAuthor, later, e).Ok?
    ensures var e := BuildEnvelope(p, counter, now, eventType, priority, payload, validity).value;
      var (compact, anon) := Translate(cfg, s.anonByAuthor, later, e).value;
      Decide(cfg, s, later, E.EnvelopeBytes(e)) == Store(EventOf(e, compact), anon, [])
  {
    var e := Unsigned(p, counter, now, eventType, priority, payload, now + validity);
    SignedIsWritable(p, e);
    hide Screen, Signed, Translate, E.EnvelopeBytes;
    SignedStored(p, cfg, s, e, later);
  }

  // ---------------------------------------------------------------- the phone's payloads

  function LocationAt(now: nat, src: nat, accM: nat): E.Location {
    E.Location(src, 0, LAT_E7, LNG_E7, accM, E.Hlc(now, 0), [], 0, None)
  }

  function PresenceAt(p: PhoneCfg, now: nat): E.Presence {
    E.Presence(p.anonUserId, LocationAt(now, 1, 18), 87)
  }

  function SosAt(now: nat, safety: nat): E.Status {
    E.Status(safety, [], Some(LocationAt(now, 1, 12)))
  }

  function CheckpointAt(p: PhoneCfg, now: nat): E.Checkpoint {
    E.Checkpoint(p.anonUserId, CHECKPOINT_ID, LocationAt(now, 2, 30))
  }

  const CHECKPOINT_ID: Bytes := [99, 112, 45, 108, 97, 98]

  /** Everything the phone's own builders produce translates at the node. */
  lemma BuildersTranslate(p: PhoneCfg, cfg: NodeCfg, anon: map<Bytes, Bytes>, now: nat, safety: nat, later: int, e: E.Envelope)
    requires now < U64 && safety < U64
    ensures e.eventType == 3 && e.payload == E.PresenceBytes(PresenceAt(p, now)) ==> Translate(cfg, anon, later, e).Ok?
    ensures e.eventType == 1 && e.payload == E.StatusBytes(SosAt(now, safety)) ==> Translate(cfg, anon, later, e).Ok?
    ensures e.eventType == 4 && e.payload == E.CheckpointBytes(CheckpointAt(p, now)) ==> Translate(cfg, anon, later, e).Ok?
  {
    hide E.PresenceOf, E.StatusOf, E.CheckpointOf, E.PresenceBytes, E.StatusBytes, E.CheckpointBytes, E.LocBytes;
    E.LocSize(LocationAt(now, 1, 18));
    E.LocSize(LocationAt(now, 1, 12));
    E.LocSize(LocationAt(now, 2, 30));
    E.PresenceRoundTrip(PresenceAt(p, now));
    E.StatusRoundTrip(SosAt(now, safety));
    E.CheckpointRoundTrip(CheckpointAt(p, now));
  }

  // ---------------------------------------------------------------- end to end

  /** The step accepted `e`, whose payload translated to `compact`. */
  ghost predicate AcceptedAt(cfg: Cfg, s: Sys, l: Label, e: E.Envelope, compact: Bytes) {
    && l.Ingest?
    && Decide(cfg.a, s.node, l.now, l.data).Store?
    && Screen(cfg.a, l.now, l.data) == Verified(e)
    && Decide(cfg.a, s.node, l.now, l.data).event == EventOf(e, compact)
  }

  /** An accepted ingest is one of a verified envelope whose payload translated. */
  lemma AcceptedMeans(cfg: Cfg, ss: seq<Sys>, ls: seq<Label>, i: nat, e: E.Envelope)
    requires Run(cfg, ss, ls) && i < |ls| && ls[i].Ingest?
    requires Screen(cfg.a, ls[i].now, ls[i].data) == Verified(e)
    requires IsAccepted(ls[i].out)
    ensures var t := Translate(cfg.a, ss[i].node.anonByAuthor, ls[i].now, e);
      t.Ok? && AcceptedAt(cfg, ss[i], ls[i], e, t.value.0)
  {
    assert Next(cfg, ss[i], ls[i], ss[i + 1]);
    StoreMeans(cfg.a, ss[i].node, ls[i].now, ls[i].data, e);
    hide Screen, Translate, Decide, IsHeap, EventOf;
  }

  lemma StoreMeans(cfg: NodeCfg, s: NodeState, now: int, data: Bytes, e: E.Envelope)
    requires Screen(cfg, now, data) == Verified(e) && Decide(cfg, s, now, data).Store?
    ensures var t := Translate(cfg, s.anonByAuthor, now, e);
      t.Ok? && Decide(cfg, s, now, data).event == EventOf(e, t.value.0)
  {
    hide Screen, Translate, WorstIndex;
  }

  /** If the gateway ever has a row for an accepted envelope, the row is that envelope's: its id, its
      type and priority, the sending node, and what the compact form of its payload decodes to. */
  lemma RowIsTheEnvelopes(cfg: Cfg, ss: seq<Sys>, ls: seq<Label>, i: nat, n: nat, e: E.Envelope, compact: Bytes)
    requires SameField(cfg) && Run(cfg, ss, ls) && i < n < |ss|
    requires AcceptedAt(cfg, ss[i], ls[i], e, compact)
    ensures e.envelopeId in ss[n].rows ==>
      ss[n].rows[e.envelopeId]
        == Row(e.envelopeId, e.eventType, e.priority, cfg.a.nodeNum % U16, DecodeCompact(e.eventType, compact))
  {
    var ev := EventOf(e, compact);
    assert Next(cfg, ss[i], ls[i], ss[i + 1]);
    assert ev in ss[i + 1].h.accepted;
    hide Next, Decide, Screen, EventRow, Inv;
    AcceptedStays(cfg, ss, ls, i + 1, n);
    assert ev in ss[n].h.accepted;
    if ev.envelopeId in ss[n].rows {
      AtMostOnce(cfg, ss, ls, n, n, ev.envelopeId);
      var e' :| e' in ss[n].h.sent && e' in ss[n].h.accepted && e'.envelopeId == ev.envelopeId
                && ss[n].rows[ev.envelopeId] == EventRow(cfg, e');
      RunInv(cfg, ss, ls, n);
      SameAccepted(cfg, ss[n], ev, e');
      RowOfEvent(cfg, ev);
    }
  }

  lemma SameAccepted(cfg: Cfg, s: Sys, e: QueuedEvent, e': QueuedEvent)
    requires Inv(cfg, s) && e in s.h.accepted && e' in s.h.accepted && e.envelopeId == e'.envelopeId
    ensures e == e'
  {
    SameId(s.h.accepted, e, e');
  }

  lemma RowOfEvent(cfg: Cfg, e: QueuedEvent)
    ensures EventRow(cfg, e)
         == Row(e.envelopeId, e.eventType, e.priority, cfg.a.nodeNum % U16, DecodeCompact(e.eventType, e.compactPayload))
  {
  }

  // ---------------------------------------------------------------- the anonymous id

  /** The anonymous id a presence or checkpoint of that author brings, if the step accepted one. */
  function IdFrom(l: Label, author: Bytes): Option<Bytes> {
    if l.Ingest? && IsAccepted(l.out) then
      match E.EnvelopeOf(l.data)
      case Ok(e) => if e.authorKey == author then IdIn(e) else None
      case Malformed => None
    else None
  }

  function IdIn(e: E.Envelope): Option<Bytes> {
    if e.eventType == 3 then
      match E.PresenceOf(e.payload)
      case Ok(p) => Some(p.anonUserId)
      case Malformed => None
    else if e.eventType == 4 then
      match E.CheckpointOf(e.payload)
      case Ok(k) => Some(k.anonUserId)
      case Malformed => None
    else None
  }

  /** The anonymous id in the author's last accepted presence or checkpoint among the first `n` steps, empty
      if there was none. */
  function LastId(ls: seq<Label>, n: nat, author: Bytes): Bytes
    requires n <= |ls|
  {
    if n == 0 then []
    else
      var a := IdFrom(ls[n - 1], author);
      if a.Some? then a.value else LastId(ls, n - 1, author)
  }

  const NO_ANON: Bytes := [0, 0, 0, 0, 0, 0, 0, 0]

  function Remembered(anon: map<Bytes, Bytes>, author: Bytes): Bytes {
    if author in anon then anon[author] else NO_ANON
  }

  /** What the node remembers of an author, whatever it has been through, reboots included. */
  lemma {:induction false} AnonRemembered(cfg: Cfg, ss: seq<Sys>, ls: seq<Label>, n: nat, author: Bytes)
    requires Run(cfg, ss, ls) && n <= |ls|
    ensures AnonShown(LastId(ls, n, author), Remembered(ss[n].node.anonByAuthor, author))
    decreases n
  {
    hide Next, IdFrom, Remembered, AnonShown;
    if n == 0 {
      NothingRemembered(author);
    } else {
      AnonRemembered(cfg, ss, ls, n - 1, author);
      assert Next(cfg, ss[n - 1], ls[n - 1], ss[n]);
      StepRemembers(cfg, ss[n - 1], ls[n - 1], ss[n], author);
    }
  }

  lemma NothingRemembered(author: Bytes)
    ensures AnonShown([], Remembered(NODE_ZERO.anonByAuthor, author))
  {
  }

  lemma StepRemembers(cfg: Cfg, s: Sys, l: Label, s': Sys, author: Bytes)
    requires Next(cfg, s, l, s')
    ensures var id := IdFrom(l, author);
      && (id.Some? ==> AnonShown(id.value, Remembered(s'.node.anonByAuthor, author)))
      && (id.None? ==> Remembered(s'.node.anonByAuthor, author) == Remembered(s.node.anonByAuthor, author))
  {
    if l.Ingest? {
      AcceptedIffNews(cfg.a, s.node, l.now, l.data, s'.node, l.out);
      DecisionRemembers(cfg.a, s.node, l.now, l.data);
      if IdFrom(l, author).Some? {
        AnonIsShown(IdFrom(l, author).value);
      }
      hide Decide, IdIn, IsAccepted, IsHeap, AnonShown, Anon8, E.EnvelopeOf;
    } else {
      hide ReceiveAll, ChannelStep, BuildFrame, IsHeap, OutcomeOf, RetryOf, Budget, Framable, AnonShown;
    }
  }

  lemma DecisionRemembers(cfg: NodeCfg, s: NodeState, now: int, data: Bytes)
    ensures var d := Decide(cfg, s, now, data);
      d.Store? ==>
        && E.EnvelopeOf(data).Ok?
        && var e := E.EnvelopeOf(data).value;
           d.anon == (if IdIn(e).Some? then s.anonByAuthor[e.authorKey := Anon8(IdIn(e).value)] else s.anonByAuthor)
  {
    hide WorstIndex, E.PresenceOf, E.StatusOf, E.CheckpointOf, E.EnvelopeOf, E.Canonical;
  }

  // ---------------------------------------------------------------- whole payloads

  /** Step `i` accepted the envelope `e`, whoever signed it. */
  ghost predicate AcceptedStep(ls: seq<Label>, i: nat, e: E.Envelope) {
    i < |ls| && ls[i].Ingest? && IsAccepted(ls[i].out) && E.EnvelopeOf(ls[i].data) == Ok(e)
  }

  /** Its row at the gateway, if there is one, is that of its translation. */
  lemma RowOfAccepted(cfg: Cfg, ss: seq<Sys>, ls: seq<Label>, i: nat, n: nat, e: E.Envelope)
    requires SameField(cfg) && Run(cfg, ss, ls) && i < n < |ss| && AcceptedStep(ls, i, e)
    ensures ls[i].Ingest?
    ensures var t := Translate(cfg.a, ss[i].node.anonByAuthor, ls[i].now, e);
      t.Ok? && var id := e.envelopeId;
        id in ss[n].rows ==>
          ss[n].rows[id] == Row(id, e.eventType, e.priority, cfg.a.nodeNum % U16, DecodeCompact(e.eventType, t.value.0))
  {
    hide Screen, Translate, IsAccepted, DecodeCompact, Next, E.EnvelopeOf;
    AcceptedNotRefused(cfg, ss, ls, i);
    VerifiedIff(cfg.a, ls[i].now, ls[i].data);
    hide IsGenuine;
    AcceptedMeans(cfg, ss, ls, i, e);
    RowIsTheEnvelopes(cfg, ss, ls, i, n, e, Translate(cfg.a, ss[i].node.anonByAuthor, ls[i].now, e).value.0);
  }

  /** The row of an event, apart from its payload. */
  predicate RowFor(cfg: Cfg, row: Row, id: Bytes, eventType: nat, priority: nat) {
    row.eventId == id && row.eventType == eventType && row.priority == priority && row.srcNode == cfg.a.nodeNum % U16
  }

  ghost predicate StatusShown(d: Decoded, id: Bytes, st: E.Status, now: int) {
    d.SosView? && AnonShown(id, d.anon8) && d.safety == st.safetyState % 256 && LocShown(st.location, now, d.loc)
  }

  ghost predicate PresenceShown(d: Decoded, pr: E.Presence) {
    d.PresenceView? && AnonShown(pr.anonUserId, d.anon8) && d.battery == pr.batteryHint % 256 && d.evidSrc == pr.location.source % 256
  }

  ghost predicate CheckpointShown(d: Decoded, k: E.Checkpoint, node: nat) {
    d.CheckpointView? && AnonShown(k.anonUserId, d.anon8) && d.checkpointNode == node % U16
  }

  /** End to end: whenever the node accepts a status, of whatever signer, priority and encoding, and its row
      reaches the gateway in whatever run, the row shows the safety state and the location of the
      status, and the anonymous id of the author's last accepted presence or checkpoint. */
  lemma SosEndToEnd(cfg: Cfg, ss: seq<Sys>, ls: seq<Label>, i: nat, n: nat, e: E.Envelope, st: E.Status)
    requires SameField(cfg) && Run(cfg, ss, ls) && i < n < |ss| && AcceptedStep(ls, i, e)
    requires e.eventType == 1 && E.StatusOf(e.payload) == Ok(st) && OnMap(st.location)
    ensures e.envelopeId in ss[n].rows ==>
      var row := ss[n].rows[e.envelopeId];
      RowFor(cfg, row, e.envelopeId, 1, e.priority) && StatusShown(row.payload, LastId(ls, i, e.authorKey), st, ls[i].now)
  {
    hide E.StatusOf, Next, Translate, SosFromTyped, DecodeCompact, Remembered, LastId, AcceptedStep, E.EnvelopeOf, IsAccepted, AnonShown;
    RowOfAccepted(cfg, ss, ls, i, n, e);
    SosCompact(cfg.a, ss[i].node.anonByAuthor, ls[i].now, e, st);
    AnonRemembered(cfg, ss, ls, i, e.authorKey);
    StatusIsShown(st, LastId(ls, i, e.authorKey), Remembered(ss[i].node.anonByAuthor, e.authorKey), ls[i].now);
  }

  lemma StatusIsShown(st: E.Status, id: Bytes, anon: Bytes, now: int)
    requires OnMap(st.location) && AnonShown(id, anon)
    ensures StatusShown(DecodeCompact(1, SosFromTyped(st, anon, now)), id, st, now)
  {
    hide DecodeCompact, SosFromTyped, AgeSeconds, AgeShown;
    SosSurvives(st, anon, now);
    if st.location.Some? {
      AgeIsShown(st.location.value.observedAt.ms, now);
    }
  }

  /** A presence row shows the first eight bytes of the anonymous id, the battery and the source. */
  lemma PresenceEndToEnd(cfg: Cfg, ss: seq<Sys>, ls: seq<Label>, i: nat, n: nat, e: E.Envelope, pr: E.Presence)
    requires SameField(cfg) && Run(cfg, ss, ls) && i < n < |ss| && AcceptedStep(ls, i, e)
    requires e.eventType == 3 && E.PresenceOf(e.payload) == Ok(pr)
    ensures e.envelopeId in ss[n].rows ==>
      var row := ss[n].rows[e.envelopeId];
      RowFor(cfg, row, e.envelopeId, 3, e.priority) && PresenceShown(row.payload, pr)
  {
    hide E.PresenceOf, Next, PresenceFromTyped, DecodeCompact, AnonShown, AcceptedStep;
    RowOfAccepted(cfg, ss, ls, i, n, e);
    AnonIsShown(pr.anonUserId);
    PresenceSurvives(pr);
  }

  /** A checkpoint row shows the first eight bytes of the anonymous id and the node that took it. */
  lemma CheckpointEndToEnd(cfg: Cfg, ss: seq<Sys>, ls: seq<Label>, i: nat, n: nat, e: E.Envelope, k: E.Checkpoint)
    requires SameField(cfg) && Run(cfg, ss, ls) && i < n < |ss| && AcceptedStep(ls, i, e)
    requires e.eventType == 4 && E.CheckpointOf(e.payload) == Ok(k)
    ensures e.envelopeId in ss[n].rows ==>
      var row := ss[n].rows[e.envelopeId];
      RowFor(cfg, row, e.envelopeId, 4, e.priority) && CheckpointShown(row.payload, k, cfg.a.nodeNum)
  {
    hide E.CheckpointOf, Next, CheckpointFromTyped, DecodeCompact, AnonShown, AcceptedStep;
    RowOfAccepted(cfg, ss, ls, i, n, e);
    AnonIsShown(k.anonUserId);
    CheckpointCompact(cfg.a, ss[i].node.anonByAuthor, ls[i].now, e, k);
  }

  /** The phone's envelope was accepted at step `i`. */
  ghost predicate AcceptedFromPhone(cfg: Cfg, ls: seq<Label>, i: nat, p: PhoneCfg, counter: nat, now: int, eventType: nat, priority: nat, payload: Bytes, validity: int) {
    && SameField(cfg) && p.crypto.SignaturesVerify() && cfg.a.crypto == p.crypto && cfg.a.field == p.field
    && eventType != 0 && priority != 0 && |payload| < U64
    && BuildEnvelope(p, counter, now, eventType, priority, payload, validity).Some?
    && i < |ls| && ls[i].Ingest? && IsAccepted(ls[i].out)
    && ls[i].data == E.EnvelopeBytes(BuildEnvelope(p, counter, now, eventType, priority, payload, validity).value)
  }

  /** Then it is the very envelope the phone built that the step accepted. */
  lemma PhoneAccepted(cfg: Cfg, ss: seq<Sys>, ls: seq<Label>, i: nat, p: PhoneCfg, counter: nat, now: int, eventType: nat, priority: nat, payload: Bytes, validity: int)
    returns (e: E.Envelope)
    requires Run(cfg, ss, ls) && AcceptedFromPhone(cfg, ls, i, p, counter, now, eventType, priority, payload, validity)
    ensures AcceptedStep(ls, i, e) && e.payload == payload && e.eventType == eventType && e.priority == priority
    ensures e.envelopeId == p.EnvelopeId(eventType, counter) && e.authorKey == p.crypto.publicKey(p.seed)
  {
    e := BuildEnvelope(p, counter, now, eventType, priority, payload, validity).value;
    BuiltFields(p, counter, now, eventType, priority, payload, validity);
    NodeAgrees(p, cfg.a, counter, now, eventType, priority, payload, validity, ls[i].now);
    hide E.EnvelopeBytes, BuildEnvelope, Screen, E.EnvelopeOf;
    AcceptedNotRefused(cfg, ss, ls, i);
  }

  /** The SOS of a phone, of any priority, with or without a location. */
  lemma SosFromPhone(cfg: Cfg, ss: seq<Sys>, ls: seq<Label>, i: nat, n: nat, p: PhoneCfg, counter: nat, now: int, priority: nat, st: E.Status, validity: int)
    requires Run(cfg, ss, ls) && i < n < |ss| && E.StatusFits(st) && OnMap(st.location)
    requires AcceptedFromPhone(cfg, ls, i, p, counter, now, 1, priority, E.StatusBytes(st), validity)
    ensures var id := p.EnvelopeId(1, counter);
      id in ss[n].rows ==>
        && RowFor(cfg, ss[n].rows[id], id, 1, priority)
        && StatusShown(ss[n].rows[id].payload, LastId(ls, i, p.crypto.publicKey(p.seed)), st, ls[i].now)
  {
    hide E.StatusOf, E.StatusBytes, E.StatusFits, Next, Screen, IsAccepted, LastId, StatusShown, BuildEnvelope;
    var e := PhoneAccepted(cfg, ss, ls, i, p, counter, now, 1, priority, E.StatusBytes(st), validity);
    E.StatusRoundTrip(st);
    SosEndToEnd(cfg, ss, ls, i, n, e, st);
  }

  lemma PresenceFromPhone(cfg: Cfg, ss: seq<Sys>, ls: seq<Label>, i: nat, n: nat, p: PhoneCfg, counter: nat, now: int, priority: nat, pr: E.Presence, validity: int)
    requires Run(cfg, ss, ls) && i < n < |ss| && E.PresenceFits(pr)
    requires AcceptedFromPhone(cfg, ls, i, p, counter, now, 3, priority, E.PresenceBytes(pr), validity)
    ensures var id := p.EnvelopeId(3, counter);
      id in ss[n].rows ==> RowFor(cfg, ss[n].rows[id], id, 3, priority) && PresenceShown(ss[n].rows[id].payload, pr)
  {
    hide PresenceShown, E.PresenceOf, E.PresenceBytes, E.PresenceFits, Next, Screen, IsAccepted, BuildEnvelope;
    var e := PhoneAccepted(cfg, ss, ls, i, p, counter, now, 3, priority, E.PresenceBytes(pr), validity);
    E.PresenceRoundTrip(pr);
    PresenceEndToEnd(cfg, ss, ls, i, n, e, pr);
  }

  lemma CheckpointFromPhone(cfg: Cfg, ss: seq<Sys>, ls: seq<Label>, i: nat, n: nat, p: PhoneCfg, counter: nat, now: int, priority: nat, k: E.Checkpoint, validity: int)
    requires Run(cfg, ss, ls) && i < n < |ss| && E.CheckpointFits(k)
    requires AcceptedFromPhone(cfg, ls, i, p, counter, now, 4, priority, E.CheckpointBytes(k), validity)
    ensures var id := p.EnvelopeId(4, counter);
      id in ss[n].rows ==> RowFor(cfg, ss[n].rows[id], id, 4, priority) && CheckpointShown(ss[n].rows[id].payload, k, cfg.a.nodeNum)
  {
    hide CheckpointShown, E.CheckpointOf, E.CheckpointBytes, E.CheckpointFits, Next, Screen, IsAccepted, BuildEnvelope;
    var e := PhoneAccepted(cfg, ss, ls, i, p, counter, now, 4, priority, E.CheckpointBytes(k), validity);
    E.CheckpointRoundTrip(k);
    CheckpointEndToEnd(cfg, ss, ls, i, n, e, k);
  }

  lemma CheckpointCompact(cfg: NodeCfg, anon: map<Bytes, Bytes>, now: int, e: E.Envelope, k: E.Checkpoint)
    requires e.eventType == 4 && E.CheckpointOf(e.payload) == Ok(k)
    ensures var t := Translate(cfg, anon, now, e);
      t.Ok? && DecodeCompact(4, t.value.0) == CheckpointView(Anon8(k.anonUserId), cfg.nodeNum % U16)
  {
    hide E.CheckpointOf, CheckpointFromTyped, DecodeCompact;
    CheckpointSurvives(k, cfg.nodeNum % U16);
  }

  lemma SosCompact(cfg: NodeCfg, anon: map<Bytes, Bytes>, now: int, e: E.Envelope, st: E.Status)
    requires e.eventType == 1 && E.StatusOf(e.payload) == Ok(st)
    ensures Translate(cfg, anon, now, e) == Ok((SosFromTyped(st, Remembered(anon, e.authorKey), now), anon))
  {
    hide E.StatusOf, SosFromTyped;
    assert seq(8, _ => 0) == NO_ANON;
  }

  lemma BuiltFields(p: PhoneCfg, counter: nat, now: int, eventType: nat, priority: nat, payload: Bytes, validity: int)
    requires BuildEnvelope(p, counter, now, eventType, priority, payload, validity).Some?
    ensures var e := BuildEnvelope(p, counter, now, eventType, priority, payload, validity).value;
      e.envelopeId == p.EnvelopeId(eventType, counter) && e.eventType == eventType && e.priority == priority
      && e.payload == payload && e.authorKey == p.crypto.publicKey(p.seed)
  {
    hide E.Canonical;
  }

  lemma AcceptedNotRefused(cfg: Cfg, ss: seq<Sys>, ls: seq<Label>, i: nat)
    requires Run(cfg, ss, ls) && i < |ls| && ls[i].Ingest?
    requires IsAccepted(ls[i].out)
    ensures Screen(cfg.a, ls[i].now, ls[i].data).Verified?
  {
    assert Next(cfg, ss[i], ls[i], ss[i + 1]);
    hide Screen, Admit;
  }

  // ---------------------------------------------------------------- the phone object

  datatype PhoneEvent = PhoneEvent(envelopeBytes: Bytes, envelopeId: Bytes, eventType: nat, priority: nat)

  function EventFor(e: E.Envelope): PhoneEvent {
    PhoneEvent(E.EnvelopeBytes(e), e.envelopeId, e.eventType, e.priority)
  }

  function EventIfBuilt(e: Option<E.Envelope>): Option<PhoneEvent> {
    if e.None? then None else Some(EventFor(e.value))
  }

  class FakePhone {
    const cfg: PhoneCfg
    var counter: nat

    constructor (cfg: PhoneCfg)
      ensures this.cfg == cfg && counter == 0
    {
      this.cfg := cfg;
      counter := 0;
    }

    /** Signs and encodes one envelope; None when packing raises (the counter has moved by then). */
    method Build(now: int, eventType: nat, priority: nat, payload: Bytes, validity: int) returns (res: Option<PhoneEvent>)
      modifies this
      ensures counter == old(counter) + 1
      ensures res == EventIfBuilt(BuildEnvelope(cfg, counter, now, eventType, priority, payload, validity))
    {
      hide E.Canonical, E.EnvelopeBytes;
      counter := counter + 1;
      var id := cfg.EnvelopeId(eventType, counter);
      if now < 0 || now + validity < 0 {
        return None;
      }
      var author := cfg.crypto.publicKey(cfg.seed);
      var unsigned := E.Envelope(E.PROTOCOL_VERSION_V3, id, eventType, priority, E.Hlc(now, counter),
        E.Hlc(now + validity, 0), 0, author, E.SIG_ALGO_ED25519, [], payload, [], false, cfg.field.fieldId, []);
      var canonical := E.CanonicalSigInput(E.ClaimOf(cfg.crypto, unsigned));
      if canonical.None? {
        return None;
      }
      var signature := cfg.crypto.sign(cfg.seed, canonical.value);
      var mac := cfg.crypto.fieldMac(cfg.field.fieldMacKey, canonical.value);
      var e := unsigned.(signature := signature, fieldMac := mac);
      var data := E.EncodeEnvelope(e);
      return Some(PhoneEvent(data, id, eventType, priority));
    }

    method Presence(now: nat) returns (res: Option<PhoneEvent>)
      modifies this
      ensures counter == old(counter) + 1
      ensures var payload := E.Presence(cfg.anonUserId, E.Location(1, 0, 250339805, 1215654177, 18, E.Hlc(now, 0), [], 0, None), 87);
        res == EventIfBuilt(BuildEnvelope(cfg, counter, now, 3, 3, E.PresenceBytes(payload), 86400000))
    {
      var payload := E.EncodePresence(PresenceAt(cfg, now));
      res := Build(now, 3, 3, payload, DEFAULT_VALIDITY_MS);
    }

    method Sos(now: nat, safety: nat) returns (res: Option<PhoneEvent>)
      modifies this
      ensures counter == old(counter) + 1
      ensures var payload := E.Status(safety, [], Some(E.Location(1, 0, 250339805, 1215654177, 12, E.Hlc(now, 0), [], 0, None)));
        res == EventIfBuilt(BuildEnvelope(cfg, counter, now, 1, 1, E.StatusBytes(payload), 86400000))
    {
      var payload := E.EncodeStatus(SosAt(now, safety));
      res := Build(now, 1, SOS_RED, payload, DEFAULT_VALIDITY_MS);
    }

    method Checkpoint(now: nat) returns (res: Option<PhoneEvent>)
      modifies this
      ensures counter == old(counter) + 1
      ensures var cpLab := [99, 112, 45, 108, 97, 98];
        var payload := E.Checkpoint(cfg.anonUserId, cpLab, E.Location(2, 0, 250339805, 1215654177, 30, E.Hlc(now, 0), [], 0, None));
        res == EventIfBuilt(BuildEnvelope(cfg, counter, now, 4, 4, E.CheckpointBytes(payload), 86400000))
    {
      var payload := E.EncodeCheckpoint(CheckpointAt(cfg, now));
      res := Build(now, 4, 4, payload, DEFAULT_VALIDITY_MS);
    }

    /** An SOS whose validity has already closed at `now`. */
    method ExpiredSos(now: nat) returns (res: Option<PhoneEvent>)
      modifies this
      ensures counter == old(counter) + 1
      ensures res == EventIfBuilt(BuildEnvelope(cfg, counter, now - 1, 1, 1, E.StatusBytes(SosAt(now, 4)), 0))
    {
      var payload := E.EncodeStatus(SosAt(now, 4));
      res := Build(now - 1, 1, SOS_RED, payload, 0);
    }
  }
}
