/** The 141 bytes a signature covers, each value at its place. */
module SigLayout {
  import opened Bits
  import opened Keys
  import opened EnvelopeV3

  lemma ScopeLayout(k: Claim)
    requires Packable(k)
    ensures var s := ScopePart(k);
      && |s| == 38
      && s[0..4] == Le(k.protocolVersion, 4) && s[4] == 16 && s[5..21] == k.envelopeId && s[21] == 16 && s[22..38] == k.fieldId
  {
    hide Le;
  }

  lemma NumberLayout(k: Claim)
    ensures var s := NumberPart(k);
      && |s| == 36
      && s[0..4] == Le(k.eventType, 4) && s[4..8] == Le(k.priority, 4)
      && s[8..16] == Le(k.createdAt.ms, 8) && s[16..20] == Le(k.createdAt.counter, 4)
      && s[20..28] == Le(k.expiresAt.ms, 8) && s[28..32] == Le(k.expiresAt.counter, 4) && s[32..36] == Le(k.maxHops, 4)
  {
    hide Le;
  }

  lemma AuthorLayout(k: Claim)
    requires Packable(k)
    ensures var s := AuthorPart(k);
      |s| == 67 && s[0] == 32 && s[1..33] == k.authorKey && s[33] == k.sigAlgo && s[34] == 32 && s[35..67] == k.payloadSha256
  {
  }

  /** Version, envelope id, field id, type, priority, creation, expiry, hops, key, algorithm, payload hash. */
  lemma CanonicalLayout(k: Claim)
    requires Canonical(k).Some?
    ensures var s := Canonical(k).value;
      && |s| == 141
      && s[0..4] == Le(k.protocolVersion, 4) && s[4] == 16 && s[5..21] == k.envelopeId && s[21] == 16 && s[22..38] == k.fieldId
      && s[38..42] == Le(k.eventType, 4) && s[42..46] == Le(k.priority, 4)
      && s[46..54] == Le(k.createdAt.ms, 8) && s[54..58] == Le(k.createdAt.counter, 4)
      && s[58..66] == Le(k.expiresAt.ms, 8) && s[66..70] == Le(k.expiresAt.counter, 4) && s[70..74] == Le(k.maxHops, 4)
      && s[74] == 32 && s[75..107] == k.authorKey && s[107] == k.sigAlgo && s[108] == 32 && s[109..141] == k.payloadSha256
  {
    CanonicalPackable(k);
    ScopeLayout(k);
    NumberLayout(k);
    AuthorLayout(k);
    hide ScopePart, NumberPart, AuthorPart, Le;
    var a, b, c, s := ScopePart(k), NumberPart(k), AuthorPart(k), Canonical(k).value;
    assert s[..38] == a && s[38..74] == b && s[74..] == c;
    assert s[0..4] == a[0..4] && s[5..21] == a[5..21] && s[22..38] == a[22..38];
    assert s[38..42] == b[0..4] && s[42..46] == b[4..8] && s[46..54] == b[8..16] && s[54..58] == b[16..20];
    assert s[58..66] == b[20..28] && s[66..70] == b[28..32] && s[70..74] == b[32..36];
    assert s[75..107] == c[1..33] && s[109..141] == c[35..67];
  }

  /** `s` is what a signature of `e` covers: its own values, and the SHA-256 of its own payload. */
  ghost predicate Covers(c: Crypto, e: Envelope, s: Bytes) {
    && |s| == 141
    && e.protocolVersion < 0x1_0000_0000 && e.eventType < 0x1_0000_0000 && e.priority < 0x1_0000_0000
    && e.createdAt.ms < 0x1_0000_0000_0000_0000 && e.createdAt.counter < 0x1_0000_0000
    && e.expiresAt.ms < 0x1_0000_0000_0000_0000 && e.expiresAt.counter < 0x1_0000_0000
    && e.maxHops < 0x1_0000_0000 && e.sigAlgo < 256
    && s[0..4] == Le(e.protocolVersion, 4) && s[4] == 16 && s[5..21] == e.envelopeId && s[21] == 16 && s[22..38] == e.fieldId
    && s[38..42] == Le(e.eventType, 4) && s[42..46] == Le(e.priority, 4)
    && s[46..54] == Le(e.createdAt.ms, 8) && s[54..58] == Le(e.createdAt.counter, 4)
    && s[58..66] == Le(e.expiresAt.ms, 8) && s[66..70] == Le(e.expiresAt.counter, 4) && s[70..74] == Le(e.maxHops, 4)
    && s[74] == 32 && s[75..107] == e.authorKey && s[107] == e.sigAlgo && s[108] == 32 && s[109..141] == c.sha256(e.payload)
  }

  /** The canonical input of an envelope is the one byte string that covers it. */
  lemma CanonicalCovers(c: Crypto, e: Envelope, s: Bytes)
    ensures Canonical(ClaimOf(c, e)) == Some(s) <==> Covers(c, e, s)
  {
    var k := ClaimOf(c, e);
    CanonicalPackable(k);
    if Canonical(k).Some? {
      CanonicalLayout(k);
    }
    if Covers(c, e, s) {
      assert Packable(k) by {
        assert |s[5..21]| == 16 && |s[22..38]| == 16 && |s[75..107]| == 32;
      }
      hide Canonical, Le, Packable;
      OneLayout(s, Canonical(k).value);
    }
  }

  lemma OneLayout(s: Bytes, t: Bytes)
    requires |s| == |t| == 141
    requires s[0..4] == t[0..4] && s[4] == t[4] && s[5..21] == t[5..21] && s[21] == t[21] && s[22..38] == t[22..38]
    requires s[38..42] == t[38..42] && s[42..46] == t[42..46] && s[46..54] == t[46..54] && s[54..58] == t[54..58]
    requires s[58..66] == t[58..66] && s[66..70] == t[66..70] && s[70..74] == t[70..74]
    requires s[74] == t[74] && s[75..107] == t[75..107] && s[107] == t[107] && s[108] == t[108] && s[109..141] == t[109..141]
    ensures s == t
  {
    FirstPart(s);
    FirstPart(t);
    assert s[38..74] == s[38..42] + s[42..46] + s[46..54] + s[54..58] + s[58..66] + s[66..70] + s[70..74];
    assert t[38..74] == t[38..42] + t[42..46] + t[46..54] + t[54..58] + t[58..66] + t[66..70] + t[70..74];
    assert s[74..] == [s[74]] + s[75..107] + [s[107], s[108]] + s[109..141];
    assert t[74..] == [t[74]] + t[75..107] + [t[107], t[108]] + t[109..141];
    assert s == s[..38] + s[38..74] + s[74..] && t == t[..38] + t[38..74] + t[74..];
  }

  lemma FirstPart(s: Bytes)
    requires |s| == 141
    ensures s[..38] == s[0..4] + [s[4]] + s[5..21] + [s[21]] + s[22..38]
  {
  }
}
