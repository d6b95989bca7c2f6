/**
 What `IKE_AUTH` with pre-shared keys achieves between two ends that agree on
 `IKE_SA_INIT`: mutual authentication and one CHILD SA.
 */
module IkeAuthAgreement {
  import opened Common
  import opened Primitives
  import opened Message
  import opened Sk
  import opened PayloadBodies
  import opened Negotiate
  import opened SaInit
  import opened CertPath
  import opened IkeAuth
  import opened EspTunnel

  /** The two ends of one IKE SA whose suite is AES-GCM: equal but for the role, with 36-octet SK_e keys. */
  predicate Agreed(i: CompletedSaInit, r: CompletedSaInit) {
    && i.role == Initiator && r.role == Responder && i == r.(role := Initiator)
    && |i.keys.skEi| == 36 && |i.keys.skEr| == 36
  }

  /** Each side proves itself with the pre-shared key the other expects. */
  predicate PskConfigured(ci: AuthConfig, cr: AuthConfig) {
    && ci.local.LocalPsk? && cr.peer.PeerPsk? && ci.local.psk == cr.peer.psk
    && cr.local.LocalPsk? && ci.peer.PeerPsk? && cr.local.psk == ci.peer.psk
  }

  function OurAuth(c: Crypto, cfg: AuthConfig, octets: Bytes): Authentication
    requires cfg.local.LocalPsk?
  {
    Authentication(SHARED_KEY, PskAuth(c, cfg.local.psk, octets))
  }

  function PskRequest(c: Crypto, sa: CompletedSaInit, cfg: AuthConfig, spi: U32): seq<Payload>
    requires cfg.local.LocalPsk?
  {
    [Payload(PtIdi, IdBytes(cfg.id)),
     Payload(PtAuth, AuthBytes(OurAuth(c, cfg, InitiatorOctets(c, sa, IdBytes(cfg.id))))),
     Payload(PtSa, SaBytes(EspOffer(spi))), Payload(PtTsi, FullTunnelTs()), Payload(PtTsr, FullTunnelTs())]
  }

  function PskResponse(c: Crypto, sa: CompletedSaInit, cfg: AuthConfig, spi: U32,
                       assign: Option<AssignedConfig>): seq<Payload>
    requires cfg.local.LocalPsk?
  {
    ResponseChain(cfg, OurAuth(c, cfg, ResponderOctets(c, sa, IdBytes(cfg.id))), [], spi, assign)
  }

  // ----- reading one payload -----

  lemma SeeId(seen: AuthSeen, p: RawPayload)
    requires p.ptype == PtIdi || p.ptype == PtIdr
    ensures SeeAuth(seen, p) == Ok(seen.(idBody := Some(p.data)))
  {
  }

  lemma SeeAuthentication(seen: AuthSeen, p: RawPayload, a: Authentication)
    requires p.ptype == PtAuth && p.data == AuthBytes(a)
    ensures SeeAuth(seen, p) == Ok(seen.(auth := Some(a)))
  {
    hide ParseAuth, AuthBytes;
  }

  lemma SeeOffer(seen: AuthSeen, p: RawPayload, spi: U32)
    requires p.ptype == PtSa && p.data == SaBytes(EspOffer(spi))
    ensures SeeAuth(seen, p) == Ok(seen.(childSpi := Some(spi)))
  {
    hide SpiAtFixedOffset, SaBytes, EspOffer;
    EspOfferReads(spi);
  }

  lemma SeeNothing(seen: AuthSeen, p: RawPayload)
    requires p.ptype == PtTsi || p.ptype == PtTsr || p.ptype == PtNotify
    ensures SeeAuth(seen, p) == Ok(seen)
  {
  }

  lemma RequestRead(c: Crypto, sa: CompletedSaInit, cfg: AuthConfig, spi: U32)
    requires cfg.local.LocalPsk?
    ensures ParseAuthInner(Walked(Raw(PskRequest(c, sa, cfg, spi)), None))
         == Ok(AuthPayloads(IdBytes(cfg.id), OurAuth(c, cfg, InitiatorOctets(c, sa, IdBytes(cfg.id))), [], Some(spi),
                            None))
  {
    hide SeeAuth, IdBytes, AuthBytes, SaBytes, FullTunnelTs, OurAuth, InitiatorOctets, EspOffer;
    var items := Raw(PskRequest(c, sa, cfg, spi));
    var auth := OurAuth(c, cfg, InitiatorOctets(c, sa, IdBytes(cfg.id)));
    var s1 := NO_AUTH_SEEN.(idBody := Some(IdBytes(cfg.id)));
    var s2 := s1.(auth := Some(auth));
    var s3 := s2.(childSpi := Some(spi));
    SeeId(NO_AUTH_SEEN, items[0]);
    SeeAuthentication(s1, items[1], auth);
    SeeOffer(s2, items[2], spi);
    SeeNothing(s3, items[3]);
    SeeNothing(s3, items[4]);
    SeeAuthStep(items, 0, NO_AUTH_SEEN, s1);
    SeeAuthStep(items, 1, s1, s2);
    SeeAuthStep(items, 2, s2, s3);
    SeeAuthStep(items, 3, s3, s3);
    SeeAuthStep(items, 4, s3, s3);
    assert items[0..] == items && items[5..] == [];
  }

  function AssignedOf(assign: Option<AssignedConfig>): Option<Ipv4> {
    match assign
    case None => None
    case Some(a) => Some(a.ip)
  }

  /** What follows AUTH and any assignment in a response. */
  function LastFour(spi: U32, assign: Option<AssignedConfig>): seq<Payload> {
    [Payload(PtSa, SaBytes(EspOffer(spi))), Payload(PtTsi, AssignedTs(assign)), Payload(PtTsr, FullTunnelTs()),
     Payload(PtNotify, NotifyBytes(Status(MOBIKE_SUPPORTED, [])))]
  }

  lemma LastFourRead(seen: AuthSeen, spi: U32, assign: Option<AssignedConfig>)
    ensures SeeAuths(seen, Raw(LastFour(spi, assign))) == Ok(seen.(childSpi := Some(spi)))
  {
    hide SeeAuth, SaBytes, FullTunnelTs, AssignedTs, EspOffer, NotifyBytes, SeeAuths;
    var items := Raw(LastFour(spi, assign));
    var s := seen.(childSpi := Some(spi));
    SeeOffer(seen, items[0], spi);
    SeeNothing(s, items[1]);
    SeeNothing(s, items[2]);
    SeeNothing(s, items[3]);
    SeeAuthStep(items, 0, seen, s);
    SeeAuthStep(items, 1, s, s);
    SeeAuthStep(items, 2, s, s);
    SeeAuthStep(items, 3, s, s);
    assert items[0..] == items && items[4..] == [];
    NothingMore(s);
  }

  lemma NothingMore(s: AuthSeen)
    ensures SeeAuths(s, []) == Ok(s)
  {
  }

  /** Reading the assignment, then the SPI. */
  lemma TailRead(seen: AuthSeen, spi: U32, assign: Option<AssignedConfig>)
    requires seen.assignedIp == None
    ensures SeeAuths(seen, Raw(AssignPayloads(assign) + LastFour(spi, assign)))
      == Ok(seen.(assignedIp := AssignedOf(assign), childSpi := Some(spi)))
  {
    hide LastFour, CpBytes, ParseCp, AssignedIpv4, ReplyIpv4;
    var items := Raw(AssignPayloads(assign) + LastFour(spi, assign));
    var s1 := seen.(assignedIp := AssignedOf(assign));
    LastFourRead(s1, spi, assign);
    if assign.Some? {
      ReplyReads(assign.value.ip, None, if assign.value.dns == [] then None else Some(assign.value.dns[0]));
      SeeAuthStep(items, 0, seen, s1);
      assert items[0..] == items && items[1..] == Raw(LastFour(spi, assign));
    } else {
      assert items == Raw(LastFour(spi, assign));
    }
  }

  /**
   What a response grants, as the initiator finds it: the offer of our SPI, TSi narrowed to the assigned
   host when there is one and the full tunnel otherwise, TSr the full tunnel, and the assignment itself.
   */
  lemma GrantCarries(spi: U32, assign: Option<AssignedConfig>)
    ensures var items := Raw(AssignPayloads(assign) + LastFour(spi, assign));
      && FindLast(items, PtSa) == Some(SaBytes(EspOffer(spi)))
      && FindLast(items, PtTsi) == Some(if assign.Some? then HostTs(assign.value.ip) else FullTunnelTs())
      && FindLast(items, PtTsr) == Some(FullTunnelTs())
      && (assign.None? ==> forall i :: 0 <= i < |items| ==> items[i].ptype != PtCp)
      && (assign.Some? ==>
            && FindLast(items, PtCp).Some?
            && ParseCp(FindLast(items, PtCp).value)
               == Ok(ReplyIpv4(assign.value.ip, None,
                               if assign.value.dns == [] then None else Some(assign.value.dns[0]))))
  {
    hide FindLast, SaBytes, EspOffer, HostTs, FullTunnelTs, NotifyBytes, CpBytes, ParseCp, ReplyIpv4;
    var n := |AssignPayloads(assign)|;
    var items := Raw(AssignPayloads(assign) + LastFour(spi, assign));
    FindLastAt(items, PtSa, n);
    FindLastAt(items, PtTsi, n + 1);
    FindLastAt(items, PtTsr, n + 2);
    if assign.Some? {
      FindLastAt(items, PtCp, 0);
      ReplyReads(assign.value.ip, None, if assign.value.dns == [] then None else Some(assign.value.dns[0]));
    }
  }

  lemma ResponseSplits(c: Crypto, sa: CompletedSaInit, cfg: AuthConfig, spi: U32, assign: Option<AssignedConfig>)
    requires cfg.local.LocalPsk?
    ensures var ps := PskResponse(c, sa, cfg, spi, assign);
      && |ps| >= 2 && ps[0] == Payload(PtIdr, IdBytes(cfg.id))
      && ps[1] == Payload(PtAuth, AuthBytes(OurAuth(c, cfg, ResponderOctets(c, sa, IdBytes(cfg.id)))))
      && ps[2..] == AssignPayloads(assign) + LastFour(spi, assign)
  {
    hide IdBytes, AuthBytes, SaBytes, FullTunnelTs, AssignedTs, OurAuth, ResponderOctets, EspOffer, AssignPayloads,
         NotifyBytes;
  }

  lemma ResponseRead(c: Crypto, sa: CompletedSaInit, cfg: AuthConfig, spi: U32, assign: Option<AssignedConfig>)
    requires cfg.local.LocalPsk?
    ensures ParseAuthInner(Walked(Raw(PskResponse(c, sa, cfg, spi, assign)), None))
         == Ok(AuthPayloads(IdBytes(cfg.id), OurAuth(c, cfg, ResponderOctets(c, sa, IdBytes(cfg.id))), [], Some(spi),
                            AssignedOf(assign)))
  {
    hide SeeAuth, PskResponse, IdBytes, AuthBytes, OurAuth, ResponderOctets, AssignPayloads, LastFour;
    var ps := PskResponse(c, sa, cfg, spi, assign);
    var items := Raw(ps);
    var auth := OurAuth(c, cfg, ResponderOctets(c, sa, IdBytes(cfg.id)));
    var s1 := NO_AUTH_SEEN.(idBody := Some(IdBytes(cfg.id)));
    var s2 := s1.(auth := Some(auth));
    ResponseSplits(c, sa, cfg, spi, assign);
    SeeId(NO_AUTH_SEEN, items[0]);
    SeeAuthentication(s1, items[1], auth);
    SeeAuthStep(items, 0, NO_AUTH_SEEN, s1);
    SeeAuthStep(items, 1, s1, s2);
    TailRead(s2, spi, assign);
    assert items[0..] == items && items[2..] == Raw(ps[2..]);
  }

  lemma RequestBuilt(c: Crypto, pki: Pki, sa: CompletedSaInit, cfg: AuthConfig, spi: U32, iv: Iv)
    requires cfg.local.LocalPsk? && cfg.peer.PeerPsk?
    ensures InitiatorAuthRequest(c, pki, sa, cfg, spi, iv)
      == SealChain(c, AuthHeader(sa, false), PskRequest(c, sa, cfg, spi), sa.keys.skEi, iv)
  {
    hide SealChain, IdBytes, AuthBytes, SaBytes, FullTunnelTs, InitiatorOctets, EspOffer;
    var auth := OurAuth(c, cfg, InitiatorOctets(c, sa, IdBytes(cfg.id)));
    assert RequestChain(pki, cfg, auth, [], spi) == PskRequest(c, sa, cfg, spi);
  }

  /** The responder accepts the initiator's request and learns exactly its identity and SPI. */
  lemma ResponderAccepts(c: Crypto, pki: Pki, si: CompletedSaInit, sr: CompletedSaInit, ci: AuthConfig, cr: AuthConfig,
                         spiI: U32, spiR: U32, ivI: Iv, ivR: Iv, assign: Option<AssignedConfig>)
    requires Agreed(si, sr) && PskConfigured(ci, cr)
    requires Sealable(PskRequest(c, si, ci, spiI)) && Sealable(PskResponse(c, sr, cr, spiR, assign))
    ensures var request := InitiatorAuthRequest(c, pki, si, ci, spiI, ivI);
      && request.Ok?
      && var response := SealChain(c, AuthHeader(sr, true), PskResponse(c, sr, cr, spiR, assign), sr.keys.skEr, ivR);
      && response.Ok?
      && ResponderProcessAuth(c, pki, sr, request.value, cr, spiR, ivR, assign) == Ok((response.value, ci.id, spiI))
  {
    hide SealChain, OpenWalk, ParseHeader, ParseAuthInner, InitiatorAuthRequest, PskRequest, ResponseChain, IdBytes,
         Sealable, InitiatorOctets, ResponderOctets, PskAuth, ParseId;
    RequestBuilt(c, pki, si, ci, spiI, ivI);
    SealOpen(c, AuthHeader(si, false), PskRequest(c, si, ci, spiI), si.keys.skEi, ivI);
    RequestRead(c, si, ci, spiI);
    SealOpen(c, AuthHeader(sr, true), PskResponse(c, sr, cr, spiR, assign), sr.keys.skEr, ivR);
    assert InitiatorOctets(c, si, IdBytes(ci.id))
        == InitiatorOctets(c, sr, IdBytes(ci.id)) by { SameOctets(c, si, sr, IdBytes(ci.id)); }
  }

  lemma SameOctets(c: Crypto, si: CompletedSaInit, sr: CompletedSaInit, idBody: Bytes)
    requires Agreed(si, sr)
    ensures InitiatorOctets(c, si, idBody) == InitiatorOctets(c, sr, idBody)
    ensures ResponderOctets(c, si, idBody) == ResponderOctets(c, sr, idBody)
  {
  }

  /** The initiator accepts the response and learns the responder's identity, SPI and the assigned address. */
  lemma InitiatorAccepts(c: Crypto, pki: Pki, si: CompletedSaInit, sr: CompletedSaInit, ci: AuthConfig, cr: AuthConfig,
                         spiR: U32, ivR: Iv, assign: Option<AssignedConfig>)
    requires Agreed(si, sr) && PskConfigured(ci, cr) && Sealable(PskResponse(c, sr, cr, spiR, assign))
    ensures var response := SealChain(c, AuthHeader(sr, true), PskResponse(c, sr, cr, spiR, assign), sr.keys.skEr, ivR);
      && response.Ok?
      && InitiatorVerifyAuth(c, pki, si, response.value, ci) == Ok((cr.id, spiR, AssignedOf(assign)))
  {
    hide SealChain, OpenWalk, ParseHeader, ParseAuthInner, PskResponse, IdBytes, Sealable, ResponderOctets, PskAuth,
         ParseId;
    SealOpen(c, AuthHeader(sr, true), PskResponse(c, sr, cr, spiR, assign), sr.keys.skEr, ivR);
    ResponseRead(c, sr, cr, spiR, assign);
    SameOctets(c, si, sr, IdBytes(cr.id));
  }

  /** Both messages of the exchange carry Message ID 1 and the two SPIs; the flags say who sent which. */
  lemma AuthHeaders(c: Crypto, sa: CompletedSaInit, ps: seq<Payload>, skE: Bytes, iv: Iv, isResponse: bool)
    requires |skE| == 36 && Sealable(ps)
    ensures var m := SealChain(c, AuthHeader(sa, isResponse), ps, skE, iv);
      && m.Ok? && ParseHeader(m.value).Ok?
      && var h := ParseHeader(m.value).value;
      && h.messageId == 1 && h.initiatorSpi == sa.spiI && h.responderSpi == sa.spiR && h.exchange == ExAuth
      && h.flags == Flags(!isResponse, false, isResponse) && h.major == 2 && h.minor == 0
  {
    hide SealChain, ParseHeader, OpenWalk, Sealable, EncodeChain;
    SealOpen(c, AuthHeader(sa, isResponse), ps, skE, iv);
  }

  /**
   The PSK handshake: between ends that agree on `IKE_SA_INIT` under an AES-GCM suite
   and share keys, request, processing and verification all succeed; each side learns
   exactly the other's identity and CHILD SPI, the initiator the assigned address, and
   the CHILD SAs they derive are each other's mirror.
   */
  lemma PskHandshake(c: Crypto, pki: Pki, si: CompletedSaInit, sr: CompletedSaInit, ci: AuthConfig, cr: AuthConfig,
                     spiI: U32, spiR: U32, ivI: Iv, ivR: Iv, assign: Option<AssignedConfig>)
    requires Agreed(si, sr) && PskConfigured(ci, cr)
    requires Sealable(PskRequest(c, si, ci, spiI)) && Sealable(PskResponse(c, sr, cr, spiR, assign))
    ensures var request := InitiatorAuthRequest(c, pki, si, ci, spiI, ivI);
      && request.Ok?
      && var processed := ResponderProcessAuth(c, pki, sr, request.value, cr, spiR, ivR, assign);
      && processed.Ok? && processed.value.1 == ci.id && processed.value.2 == spiI
      && var verified := InitiatorVerifyAuth(c, pki, si, processed.value.0, ci);
      && verified == Ok((cr.id, spiR, AssignedOf(assign)))
      && Paired(DeriveChild(c, si.keys.skD, si.ni, si.nr, Initiator, spiI, verified.value.1),
                DeriveChild(c, sr.keys.skD, sr.ni, sr.nr, Responder, spiR, processed.value.2))
  {
    hide SealChain, InitiatorAuthRequest, ResponderProcessAuth, InitiatorVerifyAuth, PskRequest, PskResponse, Sealable,
         DeriveChild, Paired, ParseId;
    ResponderAccepts(c, pki, si, sr, ci, cr, spiI, spiR, ivI, ivR, assign);
    InitiatorAccepts(c, pki, si, sr, ci, cr, spiR, ivR, assign);
    ChildrenPair(c, si.keys.skD, si.ni, si.nr, spiI, spiR);
  }

  /** An agreed `IKE_SA_INIT` that chose AES-GCM has the 36-octet keys the Encrypted payload needs. */
  lemma GcmSuiteAgrees(c: Crypto, shared: Bytes, r: CompletedSaInit)
    requires r.role == Responder && r.suite.encrId == AES_GCM_16 && r.suite.encrKeyBits == 256
    requires r.keys == KeySchedule.DeriveSessionKeys(c, shared, r.ni, r.nr, r.spiI, r.spiR, KeyLengthsOf(r.suite))
    ensures Agreed(r.(role := Initiator), r)
  {
    hide KeySchedule.DeriveSessionKeys;
    KeySchedule.SessionKeysTileStream(c, shared, r.ni, r.nr, r.spiI, r.spiR, KeyLengthsOf(r.suite));
  }
}
