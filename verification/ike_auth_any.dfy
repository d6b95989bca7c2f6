/**
 `IKE_AUTH` between two ends that agree on `IKE_SA_INIT`, whatever each of them is configured with
 (src/ikev2/ike_auth.rs): pre-shared keys, certificates, or one of each, matching or not.
 */
module AuthHandshake {
  import opened Common
  import opened Primitives
  import opened Message
  import opened Sk
  import opened PayloadBodies
  import opened SaInit
  import opened CertPath
  import opened IkeAuth
  import opened IkeAuthAgreement
  import opened IkeAuthExact

  // ----- what each end presents, and what convinces the other -----

  /** The AUTH of a configuration over the octets to be signed, written out; none when the key cannot sign. */
  function Presents(c: Crypto, local: LocalAuth, hashes: seq<U16>, octets: Bytes): Option<Authentication> {
    match local
    case LocalPsk(psk) => Some(Authentication(2, c.hmacSha256(c.hmacSha256(psk, KEY_PAD), octets)))
    case LocalCert(key, _) =>
      if 2 in hashes then Signed(14, key.signAuthData(octets)) else Signed(9, key.signEcdsaRaw(octets))
  }

  function Signed(authMethod: Byte, data: Option<Bytes>): Option<Authentication> {
    match data
    case None => None
    case Some(d) => Some(Authentication(authMethod, d))
  }

  function ChainOf(local: LocalAuth): seq<Bytes> {
    if local.LocalCert? then local.chain else []
  }

  /** What an end asks of the other's AUTH and certificates over the signed octets, written out. */
  ghost predicate Convinces(c: Crypto, pki: Pki, peer: PeerAuth, a: Authentication, certs: seq<Bytes>, octets: Bytes) {
    match peer
    case PeerPsk(psk) => a == Authentication(2, c.hmacSha256(c.hmacSha256(psk, KEY_PAD), octets))
    case PeerCert(cas, dns, now) =>
      && a.authMethod == 14 && certs != [] && Trusted(pki, certs[0], certs[1..], cas, now)
      && (dns.Some? ==> pki.hasDns(certs[0], dns.value)) && pki.verifyAuth(certs[0], a.data, octets)
  }

  lemma PresentsExactly(c: Crypto, cfg: AuthConfig, sa: CompletedSaInit, octets: Bytes)
    ensures var r, a := BuildLocalAuth(c, cfg, sa, octets), Presents(c, cfg.local, sa.peerSignatureHashes, octets);
      && (r.Ok? <==> a.Some?)
      && (r.Ok? ==> r.value == (a.value, CertPayloads(ChainOf(cfg.local))))
  {
  }

  lemma ConvincesExactly(c: Crypto, pki: Pki, cfg: AuthConfig, got: AuthPayloads, octets: Bytes)
    ensures VerifyPeerAuth(c, pki, cfg, got, octets).Ok? <==>
      Convinces(c, pki, cfg.peer, got.auth, got.certs, octets)
  {
    hide VerifyCertAuth, Trusted;
    if cfg.peer.PeerCert? && got.certs != [] {
      CertAuthExactly(pki, got.certs[0], got.certs[1..], cfg.peer.cas, cfg.peer.expectedDns, cfg.peer.now,
                      got.auth.data, octets);
    }
  }

  /** The older ECDSA method is never accepted: a certificate convinces only where SHA2-256 was announced. */
  lemma LegacySignatureRefused(c: Crypto, pki: Pki, peer: PeerAuth, local: LocalAuth, hashes: seq<U16>, octets: Bytes)
    requires local.LocalCert? && 2 !in hashes && Presents(c, local, hashes, octets).Some?
    ensures !Convinces(c, pki, peer, Presents(c, local, hashes, octets).value, ChainOf(local), octets)
  {
    hide Trusted;
  }

  // ----- reading a chain with certificates -----

  lemma {:induction false} SeeAuthsConcat(seen: AuthSeen, a: seq<RawPayload>, b: seq<RawPayload>)
    ensures SeeAuths(seen, a + b)
         == if SeeAuths(seen, a).Err? then SeeAuths(seen, a) else SeeAuths(SeeAuths(seen, a).value, b)
    decreases |a|
  {
    hide SeeAuth;
    if a == [] {
      assert a + b == b;
    } else {
      assert (a + b)[1..] == a[1..] + b;
      var next := SeeAuth(seen, a[0]);
      if next.Ok? {
        SeeAuthsConcat(next.value, a[1..], b);
      }
    }
  }

  lemma {:induction false} SeeCerts(seen: AuthSeen, chain: seq<Bytes>)
    ensures SeeAuths(seen, Raw(CertPayloads(chain))) == Ok(seen.(certs := seen.certs + chain))
    decreases |chain|
  {
    hide CertBytes, ParseCert;
    var items := Raw(CertPayloads(chain));
    if chain == [] {
      assert seen.certs + chain == seen.certs;
    } else {
      var next := seen.(certs := seen.certs + [chain[0]]);
      assert SeeAuth(seen, items[0]) == Ok(next);
      assert items[1..] == Raw(CertPayloads(chain[1..]));
      SeeCerts(next, chain[1..]);
      assert seen.certs + [chain[0]] + chain[1..] == seen.certs + chain;
    }
  }

  /** The payloads of a request before the AUTH, and the rest. */
  function Asking(pki: Pki, cfg: AuthConfig): seq<Payload> {
    if cfg.peer.PeerCert? then [Payload(PtCertReq, [X509_SIGNATURE] + CaHashes(pki, cfg.peer.cas))] else []
  }

  function Offering(auth: Authentication, spi: U32): seq<Payload> {
    [Payload(PtAuth, AuthBytes(auth)), Payload(PtSa, SaBytes(EspOffer(spi))), Payload(PtTsi, FullTunnelTs()),
     Payload(PtTsr, FullTunnelTs())]
  }

  lemma SeeAsking(pki: Pki, cfg: AuthConfig, seen: AuthSeen)
    ensures SeeAuths(seen, Raw(Asking(pki, cfg))) == Ok(seen)
  {
    hide CaHashes;
    var items := Raw(Asking(pki, cfg));
    NothingMore(seen);
    if cfg.peer.PeerCert? {
      assert SeeAuth(seen, items[0]) == Ok(seen);
      assert items[1..] == [];
    }
  }

  lemma SeeOffering(auth: Authentication, spi: U32, seen: AuthSeen)
    ensures SeeAuths(seen, Raw(Offering(auth, spi))) == Ok(seen.(auth := Some(auth), childSpi := Some(spi)))
  {
    hide SeeAuth, SeeAuths, AuthBytes, SaBytes, FullTunnelTs, EspOffer;
    var items := Raw(Offering(auth, spi));
    var s1 := seen.(auth := Some(auth));
    var s2 := s1.(childSpi := Some(spi));
    SeeAuthentication(seen, items[0], auth);
    SeeOffer(s1, items[1], spi);
    SeeNothing(s2, items[2]);
    SeeNothing(s2, items[3]);
    SeeAuthStep(items, 0, seen, s1);
    SeeAuthStep(items, 1, s1, s2);
    SeeAuthStep(items, 2, s2, s2);
    SeeAuthStep(items, 3, s2, s2);
    assert items[0..] == items && items[4..] == [];
    NothingMore(s2);
  }

  lemma RawConcat(a: seq<Payload>, b: seq<Payload>)
    ensures Raw(a + b) == Raw(a) + Raw(b)
  {
  }

  lemma SeeOneId(p: Payload)
    requires p.ptype == PtIdi || p.ptype == PtIdr
    ensures SeeAuths(NO_AUTH_SEEN, Raw([p])) == Ok(NO_AUTH_SEEN.(idBody := Some(p.data)))
  {
    hide SeeAuth;
    var items := Raw([p]);
    SeeId(NO_AUTH_SEEN, items[0]);
    assert items[1..] == [];
    NothingMore(NO_AUTH_SEEN.(idBody := Some(p.data)));
  }

  /** The identity and then the certificates, as both messages begin. */
  lemma SeeHead(p: Payload, chain: seq<Bytes>)
    requires p.ptype == PtIdi || p.ptype == PtIdr
    ensures SeeAuths(NO_AUTH_SEEN, Raw([p] + CertPayloads(chain)))
      == Ok(NO_AUTH_SEEN.(idBody := Some(p.data), certs := chain))
  {
    hide SeeAuths, CertPayloads;
    var s := NO_AUTH_SEEN.(idBody := Some(p.data));
    RawConcat([p], CertPayloads(chain));
    SeeOneId(p);
    SeeCerts(s, chain);
    SeeAuthsConcat(NO_AUTH_SEEN, Raw([p]), Raw(CertPayloads(chain)));
    assert s.certs + chain == chain;
  }

  /** The responder reads of a request exactly what the initiator put into it. */
  lemma RequestReads(pki: Pki, cfg: AuthConfig, auth: Authentication, chain: seq<Bytes>, spi: U32)
    ensures ParseAuthInner(Walked(Raw(RequestChain(pki, cfg, auth, CertPayloads(chain), spi)), None))
      == Ok(AuthPayloads(IdBytes(cfg.id), auth, chain, Some(spi), None))
  {
    hide SeeAuths, CertPayloads, AuthBytes, IdBytes, SaBytes, FullTunnelTs, EspOffer, CaHashes;
    var id := Payload(PtIdi, IdBytes(cfg.id));
    var head := [id] + CertPayloads(chain);
    var s := NO_AUTH_SEEN.(idBody := Some(IdBytes(cfg.id)), certs := chain);
    var ps := RequestChain(pki, cfg, auth, CertPayloads(chain), spi);
    assert ps == head + Asking(pki, cfg) + Offering(auth, spi);
    RawConcat(head + Asking(pki, cfg), Offering(auth, spi));
    RawConcat(head, Asking(pki, cfg));
    SeeHead(id, chain);
    SeeAsking(pki, cfg, s);
    SeeAuthsConcat(NO_AUTH_SEEN, Raw(head), Raw(Asking(pki, cfg)));
    SeeOffering(auth, spi, s);
    SeeAuthsConcat(NO_AUTH_SEEN, Raw(head + Asking(pki, cfg)), Raw(Offering(auth, spi)));
  }

  /** The list of trust anchors in a CERTREQ: the hash of every one that parses, in order. */
  lemma {:induction false} AnchorHashes(pki: Pki, a: seq<Bytes>, b: seq<Bytes>)
    ensures CaHashes(pki, a + b) == CaHashes(pki, a) + CaHashes(pki, b)
    ensures |a| == 1 ==> CaHashes(pki, a) == if pki.caKeyHash(a[0]).Some? then pki.caKeyHash(a[0]).value else []
  {
    if a == [] {
      assert a + b == b;
    } else {
      assert (a + b)[1..] == a[1..] + b;
      AnchorHashes(pki, a[1..], b);
      assert |a| == 1 ==> a[1..] == [];
    }
  }

  /** A request asks for a certificate exactly when the peer is checked by one, and names the anchors then. */
  lemma RequestAsks(pki: Pki, cfg: AuthConfig, auth: Authentication, chain: seq<Bytes>, spi: U32)
    ensures Find(Raw(RequestChain(pki, cfg, auth, CertPayloads(chain), spi)), PtCertReq)
      == if cfg.peer.PeerCert? then Some([4] + CaHashes(pki, cfg.peer.cas)) else None
  {
    hide AuthBytes, IdBytes, SaBytes, FullTunnelTs, EspOffer, CaHashes, CertBytes;
    var items := Raw(RequestChain(pki, cfg, auth, CertPayloads(chain), spi));
    if cfg.peer.PeerCert? {
      FindAt(items, PtCertReq, 1 + |chain|);
    } else {
      FindNone(items, PtCertReq);
    }
  }

  lemma SeeOneAuth(seen: AuthSeen, auth: Authentication)
    ensures SeeAuths(seen, Raw([Payload(PtAuth, AuthBytes(auth))])) == Ok(seen.(auth := Some(auth)))
  {
    hide SeeAuth, AuthBytes;
    var items := Raw([Payload(PtAuth, AuthBytes(auth))]);
    SeeAuthentication(seen, items[0], auth);
    assert items[1..] == [];
    NothingMore(seen.(auth := Some(auth)));
  }

  /** And the initiator of a response. */
  lemma ResponseReads(cfg: AuthConfig, auth: Authentication, chain: seq<Bytes>, spi: U32,
                      assign: Option<AssignedConfig>)
    ensures ParseAuthInner(Walked(Raw(ResponseChain(cfg, auth, CertPayloads(chain), spi, assign)), None))
      == Ok(AuthPayloads(IdBytes(cfg.id), auth, chain, Some(spi), AssignedOf(assign)))
  {
    hide SeeAuths, CertPayloads, AuthBytes, IdBytes, AssignPayloads, SaBytes, FullTunnelTs, EspOffer, AssignedTs,
         NotifyBytes;
    var id, one := Payload(PtIdr, IdBytes(cfg.id)), [Payload(PtAuth, AuthBytes(auth))];
    var head, tail := [id] + CertPayloads(chain), AssignPayloads(assign) + LastFour(spi, assign);
    var s := NO_AUTH_SEEN.(idBody := Some(IdBytes(cfg.id)), certs := chain);
    assert ResponseChain(cfg, auth, CertPayloads(chain), spi, assign) == head + one + tail;
    RawConcat(head + one, tail);
    RawConcat(head, one);
    SeeHead(id, chain);
    SeeOneAuth(s, auth);
    SeeAuthsConcat(NO_AUTH_SEEN, Raw(head), Raw(one));
    TailRead(s.(auth := Some(auth)), spi, assign);
    SeeAuthsConcat(NO_AUTH_SEEN, Raw(head + one), Raw(tail));
  }

  // ----- the handshake -----

  function OctetsI(c: Crypto, sa: CompletedSaInit, cfg: AuthConfig): Bytes {
    sa.initMessage + sa.nr + c.hmacSha256(sa.keys.skPi, IdBytes(cfg.id))
  }

  function OctetsR(c: Crypto, sa: CompletedSaInit, cfg: AuthConfig): Bytes {
    sa.respMessage + sa.ni + c.hmacSha256(sa.keys.skPr, IdBytes(cfg.id))
  }

  function AuthOfI(c: Crypto, sa: CompletedSaInit, cfg: AuthConfig): Option<Authentication> {
    Presents(c, cfg.local, sa.peerSignatureHashes, OctetsI(c, sa, cfg))
  }

  function AuthOfR(c: Crypto, sa: CompletedSaInit, cfg: AuthConfig): Option<Authentication> {
    Presents(c, cfg.local, sa.peerSignatureHashes, OctetsR(c, sa, cfg))
  }

  function RequestOf(pki: Pki, cfg: AuthConfig, a: Authentication, spi: U32): seq<Payload> {
    RequestChain(pki, cfg, a, CertPayloads(ChainOf(cfg.local)), spi)
  }

  function ResponseOf(cfg: AuthConfig, a: Authentication, spi: U32, assign: Option<AssignedConfig>): seq<Payload> {
    ResponseChain(cfg, a, CertPayloads(ChainOf(cfg.local)), spi, assign)
  }

  /** Whatever the two ends are configured with: the request goes out exactly when the initiator can sign. */
  lemma RequestGoesOut(c: Crypto, pki: Pki, si: CompletedSaInit, ci: AuthConfig, spiI: U32, ivI: Iv)
    requires |si.keys.skEi| == 36
    requires AuthOfI(c, si, ci).Some? ==> Sealable(RequestOf(pki, ci, AuthOfI(c, si, ci).value, spiI))
    ensures var request := InitiatorAuthRequest(c, pki, si, ci, spiI, ivI);
      && (request.Ok? <==> AuthOfI(c, si, ci).Some?)
      && (request.Ok? ==> OpenWalk(c, request.value, si.keys.skEi)
                          == Ok(Walked(Raw(RequestOf(pki, ci, AuthOfI(c, si, ci).value, spiI)), None)))
  {
    hide SealChain, OpenWalk, RequestChain, Sealable, BuildLocalAuth, Presents, ParseHeader, EncodeChain, Raw;
    PresentsExactly(c, ci, si, InitiatorOctets(c, si, IdBytes(ci.id)));
    if AuthOfI(c, si, ci).Some? {
      SealOpen(c, AuthHeader(si, false), RequestOf(pki, ci, AuthOfI(c, si, ci).value, spiI), si.keys.skEi, ivI);
    }
  }

  /** The responder accepts it exactly when it convinces and the responder can sign. */
  lemma ResponderDecides(c: Crypto, pki: Pki, si: CompletedSaInit, sr: CompletedSaInit, ci: AuthConfig, cr: AuthConfig,
                         spiI: U32, spiR: U32, ivR: Iv, assign: Option<AssignedConfig>, request: Bytes)
    requires Agreed(si, sr) && AuthOfI(c, si, ci).Some?
    requires OpenWalk(c, request, si.keys.skEi)
      == Ok(Walked(Raw(RequestOf(pki, ci, AuthOfI(c, si, ci).value, spiI)), None))
    requires AuthOfR(c, sr, cr).Some? ==> Sealable(ResponseOf(cr, AuthOfR(c, sr, cr).value, spiR, assign))
    ensures var processed := ResponderProcessAuth(c, pki, sr, request, cr, spiR, ivR, assign);
      && (processed.Ok? <==>
            && Convinces(c, pki, cr.peer, AuthOfI(c, si, ci).value, ChainOf(ci.local), OctetsI(c, si, ci))
            && AuthOfR(c, sr, cr).Some?)
      && (processed.Ok? ==>
            && processed.value.1 == ci.id && processed.value.2 == spiI
            && OpenWalk(c, processed.value.0, sr.keys.skEr)
               == Ok(Walked(Raw(ResponseOf(cr, AuthOfR(c, sr, cr).value, spiR, assign)), None)))
  {
    hide SealChain, OpenWalk, RequestChain, ResponseChain, Sealable, BuildLocalAuth, Presents, ParseHeader, EncodeChain,
         Raw, ParseAuthInner, VerifyPeerAuth, Convinces, ParseId, IdBytes, CertPayloads;
    var a := AuthOfI(c, si, ci).value;
    RequestReads(pki, ci, a, ChainOf(ci.local), spiI);
    var got := AuthPayloads(IdBytes(ci.id), a, ChainOf(ci.local), Some(spiI), None);
    ConvincesExactly(c, pki, cr, got, InitiatorOctets(c, sr, IdBytes(ci.id)));
    PresentsExactly(c, cr, sr, ResponderOctets(c, sr, IdBytes(cr.id)));
    if AuthOfR(c, sr, cr).Some? {
      SealOpen(c, AuthHeader(sr, true), ResponseOf(cr, AuthOfR(c, sr, cr).value, spiR, assign), sr.keys.skEr, ivR);
    }
  }

  /** The initiator accepts the response exactly when it convinces. */
  lemma InitiatorDecides(c: Crypto, pki: Pki, si: CompletedSaInit, sr: CompletedSaInit, ci: AuthConfig, cr: AuthConfig,
                         spiR: U32, assign: Option<AssignedConfig>, response: Bytes)
    requires Agreed(si, sr) && AuthOfR(c, sr, cr).Some?
    requires OpenWalk(c, response, sr.keys.skEr)
      == Ok(Walked(Raw(ResponseOf(cr, AuthOfR(c, sr, cr).value, spiR, assign)), None))
    ensures var verified := InitiatorVerifyAuth(c, pki, si, response, ci);
      && (verified.Ok? <==>
            Convinces(c, pki, ci.peer, AuthOfR(c, sr, cr).value, ChainOf(cr.local), OctetsR(c, sr, cr)))
      && (verified.Ok? ==> verified == Ok((cr.id, spiR, AssignedOf(assign))))
  {
    hide OpenWalk, ResponseChain, Presents, Raw, ParseAuthInner, VerifyPeerAuth, Convinces, ParseId, IdBytes,
         CertPayloads;
    var a := AuthOfR(c, sr, cr).value;
    ResponseReads(cr, a, ChainOf(cr.local), spiR, assign);
    var got := AuthPayloads(IdBytes(cr.id), a, ChainOf(cr.local), Some(spiR), AssignedOf(assign));
    ConvincesExactly(c, pki, ci, got, ResponderOctets(c, si, IdBytes(cr.id)));
  }

  /**
   The handshake of any two configurations, matching or not. The request goes out exactly when the
   initiator can sign; the responder accepts exactly when that AUTH convinces it and it can sign; the
   initiator accepts exactly when the answer convinces it in turn; and each learns exactly the other's
   identity and SPI.
   */
  lemma AuthHandshake(c: Crypto, pki: Pki, si: CompletedSaInit, sr: CompletedSaInit, ci: AuthConfig, cr: AuthConfig,
                      spiI: U32, spiR: U32, ivI: Iv, ivR: Iv, assign: Option<AssignedConfig>)
    requires Agreed(si, sr)
    requires AuthOfI(c, si, ci).Some? ==> Sealable(RequestOf(pki, ci, AuthOfI(c, si, ci).value, spiI))
    requires AuthOfR(c, sr, cr).Some? ==> Sealable(ResponseOf(cr, AuthOfR(c, sr, cr).value, spiR, assign))
    ensures var request := InitiatorAuthRequest(c, pki, si, ci, spiI, ivI);
      && (request.Ok? <==> AuthOfI(c, si, ci).Some?)
      && (request.Ok? ==>
            var processed := ResponderProcessAuth(c, pki, sr, request.value, cr, spiR, ivR, assign);
            && (processed.Ok? <==>
                  && Convinces(c, pki, cr.peer, AuthOfI(c, si, ci).value, ChainOf(ci.local), OctetsI(c, si, ci))
                  && AuthOfR(c, sr, cr).Some?)
            && (processed.Ok? ==>
                  && processed.value.1 == ci.id && processed.value.2 == spiI
                  && var verified := InitiatorVerifyAuth(c, pki, si, processed.value.0, ci);
                  && (verified.Ok? <==>
                        Convinces(c, pki, ci.peer, AuthOfR(c, sr, cr).value, ChainOf(cr.local), OctetsR(c, sr, cr)))
                  && (verified.Ok? ==> verified == Ok((cr.id, spiR, AssignedOf(assign))))))
  {
    hide InitiatorAuthRequest, ResponderProcessAuth, InitiatorVerifyAuth, OpenWalk, Sealable, RequestOf, ResponseOf,
         Convinces, Presents, Raw, AuthOfI, AuthOfR;
    RequestGoesOut(c, pki, si, ci, spiI, ivI);
    var request := InitiatorAuthRequest(c, pki, si, ci, spiI, ivI);
    if request.Ok? {
      ResponderDecides(c, pki, si, sr, ci, cr, spiI, spiR, ivR, assign, request.value);
      var processed := ResponderProcessAuth(c, pki, sr, request.value, cr, spiR, ivR, assign);
      if processed.Ok? {
        InitiatorDecides(c, pki, si, sr, ci, cr, spiR, assign, processed.value.0);
      }
    }
  }
}
