/** What it takes for a node to believe an envelope, told in terms of the envelope and the keys. */
module Genuine {
  import opened Bits
  import opened Keys
  import opened ProtoWire
  import E = EnvelopeV3
  import opened SigLayout
  import opened Node

  /** The bytes decode to a version 3 Ed25519 envelope that has not expired, whose signature verifies under
      its own author key and whose MAC is the field's, both over the 141 bytes that cover it. */
  ghost predicate IsGenuine(cfg: NodeCfg, now: int, data: Bytes) {
    && E.EnvelopeOf(data).Ok?
    && var e := E.EnvelopeOf(data).value;
       && e.protocolVersion == 3 && e.sigAlgo == 1 && e.expiresAt.ms >= now
       && exists k :: Attests(cfg, e, k)
  }

  /** `k` covers the envelope, and signature and MAC are right for it. */
  ghost predicate Attests(cfg: NodeCfg, e: E.Envelope, k: Bytes) {
    && Covers(cfg.crypto, e, k)
    && cfg.crypto.verify(e.authorKey, k, e.signature)
    && |e.fieldMac| == 16 && cfg.crypto.fieldMac(cfg.field.fieldMacKey, k) == e.fieldMac
  }

  /** The node's checks pass exactly the genuine. */
  lemma VerifiedIff(cfg: NodeCfg, now: int, data: Bytes)
    ensures Screen(cfg, now, data).Verified? <==> IsGenuine(cfg, now, data)
    ensures IsGenuine(cfg, now, data) ==> Screen(cfg, now, data) == Verified(E.EnvelopeOf(data).value)
  {
    hide E.EnvelopeOf, E.Canonical, Covers;
    if E.EnvelopeOf(data).Ok? {
      var e := E.EnvelopeOf(data).value;
      AttestedIff(cfg, e);
    }
  }

  lemma AttestedIff(cfg: NodeCfg, e: E.Envelope)
    ensures (exists k :: Attests(cfg, e, k))
       <==> E.Canonical(E.ClaimOf(cfg.crypto, e)).Some?
            && cfg.crypto.verify(e.authorKey, E.Canonical(E.ClaimOf(cfg.crypto, e)).value, e.signature)
            && cfg.crypto.VerifyFieldMac(cfg.field.fieldMacKey, E.Canonical(E.ClaimOf(cfg.crypto, e)).value, e.fieldMac)
  {
    hide E.Canonical, Covers;
    var o := E.Canonical(E.ClaimOf(cfg.crypto, e));
    if o.Some? {
      CanonicalCovers(cfg.crypto, e, o.value);
      if cfg.crypto.verify(e.authorKey, o.value, e.signature) && cfg.crypto.VerifyFieldMac(cfg.field.fieldMacKey, o.value, e.fieldMac) {
        assert Attests(cfg, e, o.value);
      }
    }
    if exists k :: Attests(cfg, e, k) {
      var k :| Attests(cfg, e, k);
      CanonicalCovers(cfg.crypto, e, k);
    }
  }

  /** A failing check that does not raise is a rejection naming the envelope, or no one if it did not decode. */
  lemma RefusedIff(cfg: NodeCfg, now: int, data: Bytes)
    ensures Screen(cfg, now, data).Refused? <==> Screen(cfg, now, data) != Trips && !IsGenuine(cfg, now, data)
    ensures Screen(cfg, now, data).Refused? ==>
      Screen(cfg, now, data).ref == (match E.EnvelopeOf(data) case Ok(e) => e.envelopeId case Malformed => [])
  {
    VerifiedIff(cfg, now, data);
    hide E.EnvelopeOf, E.Canonical, IsGenuine;
  }
}
