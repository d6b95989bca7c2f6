/**
 IKEv2 end to end: a client's `IKE_SA_INIT` and PSK `IKE_AUTH` against the server's
 session tables, up to ESP traffic in both directions.
 */
module Handshake {
  import opened Common
  import opened Primitives
  import opened Framing
  import opened Message
  import opened Sk
  import opened PayloadBodies
  import opened SaInit
  import opened SaInitAgreement
  import opened CertPath
  import opened IkeAuth
  import opened IkeAuthAgreement
  import opened EspTunnel
  import Server2
  import Negotiate
  import KeySchedule
  import Dh

  lemma HeaderLong(m: Bytes)
    ensures ParseHeader(m).Ok? ==> |m| >= HEADER_LEN
  {
  }

  lemma AnswerKeys(c: Crypto, request: Bytes, spiI: U64, ps: SaInitPayloads, r: LocalSecret) returns (shared: Bytes)
    ensures var a := Answer(c, request, spiI, ps, r, None, None);
      a.Ok? && a.value.Established? ==>
        var sa := a.value.sa;
        && sa.role == Responder
        && sa.keys == KeySchedule.DeriveSessionKeys(c, shared, sa.ni, sa.nr, sa.spiI, sa.spiR,
                                                    Negotiate.KeyLengthsOf(sa.suite))
  {
    hide Negotiate.Select, Dh.Shared, Dh.Public, DhPeer, KeySchedule.DeriveSessionKeys, BuildSaInit,
         Negotiate.ToProposal, Negotiate.KeyLengthsOf, NotifyResponse, Dh.GroupFromId;
    shared := [];
    if Answer(c, request, spiI, ps, r, None, None).Ok? {
      var g := Dh.GroupFromId(Negotiate.Select(ps.sa).value.dhId).value;
      shared := Dh.Shared(c, g, r.dhPrivate, DhPeer(ps.ke, g).value).value;
    }
  }

  /** The keys of an established SA are those of its suite. */
  lemma EstablishedKeys(c: Crypto, request: Bytes, r: LocalSecret, sa: CompletedSaInit) returns (shared: Bytes)
    requires var p := Server2.RespondPlain(c, request, r); p.Ok? && p.value.1 == sa
    ensures sa.keys == KeySchedule.DeriveSessionKeys(c, shared, sa.ni, sa.nr, sa.spiI, sa.spiR,
                                                     Negotiate.KeyLengthsOf(sa.suite))
    ensures sa.role == Responder
  {
    hide ParseHeader, ParseSaInit, Answer, KeySchedule.DeriveSessionKeys, Negotiate.KeyLengthsOf;
    HeaderLong(request);
    var h := ParseHeader(request).value;
    var ps := ParseSaInit(h, request[HEADER_LEN..]).value;
    shared := AnswerKeys(c, request, h.initiatorSpi, ps, r);
  }

  /** The group of the key exchange is the group of the suite that will be chosen, so no retry is needed. */
  predicate Matched(offer: SecurityAssociation) {
    var suite := Negotiate.Select(offer);
    suite.Some? && suite.value.dhId == Dh.GroupId(OfferDhGroup(offer))
  }

  lemma GroupKnown(offer: SecurityAssociation)
    requires Negotiate.Select(offer).Some?
    ensures Dh.GroupFromId(Negotiate.Select(offer).value.dhId).Some? && Negotiate.Select(offer).value.encrKeyBits == 256
  {
    hide Negotiate.SelectFrom;
    Negotiate.SelectedIsSupported(offer.proposals);
  }

  /**
   Exactly when the server establishes on a client's first request: the offer is acceptable, its
   group is the chosen one, and the share is valid.
   */
  lemma PlainEstablishesIff(c: Crypto, i: LocalSecret, offer: SecurityAssociation, r: LocalSecret)
    requires RequestFits(offer, i.nonce)
    ensures Server2.RespondPlain(c, InitiatorRequest(c, i, offer), r).Ok? <==>
      Matched(offer) && Dh.ValidShare(OfferDhGroup(offer), Dh.Public(c, OfferDhGroup(offer), i.dhPrivate))
  {
    hide InitiatorRequest, Request, Dh.ValidShare, Dh.Public, Respond, KeySchedule.DeriveSessionKeys, OfferDhGroup,
         BuildSaInit, Negotiate.Select, Dh.Shared, Negotiate.ToProposal, Negotiate.KeyLengthsOf, RequestFits,
         Dh.GroupFromId, Dh.GroupId, Dh.PublicLen;
    var g := OfferDhGroup(offer);
    InitiatorRequestIsRequest(c, i, offer);
    Server2.PlainAnswersFinally(c, InitiatorRequest(c, i, offer), r);
    RequestReads(c, i, offer, g, None, r, None, None);
    if Negotiate.Select(offer).Some? {
      GroupKnown(offer);
      SameGroup(Negotiate.Select(offer).value.dhId, g);
    }
  }

  lemma SameGroup(id: U16, g: Dh.DhGroup)
    ensures Dh.GroupFromId(id).Some? ==>
      (Dh.GroupId(Dh.GroupFromId(id).value) == Dh.GroupId(g) <==> id == Dh.GroupId(g))
    ensures Dh.GroupFromId(Dh.GroupId(g)) == Some(g)
  {
  }

  /** Both ends complete IKE_SA_INIT under AES-256-GCM: they agree, with keys the Encrypted payload can use. */
  lemma ClientCompletes(c: Crypto, i: LocalSecret, offer: SecurityAssociation, r: LocalSecret)
    requires RequestFits(offer, i.nonce) && FrameFits(r.nonce) && Ready(c, offer, i, r)
    ensures var p := Server2.RespondPlain(c, InitiatorRequest(c, i, offer), r);
      && p.Ok?
      && var si := InitiatorComplete(c, i, InitiatorRequest(c, i, offer), p.value.0);
      && si.Ok? && Agreed(si.value, p.value.1) && p.value.1.spiI == i.spi && p.value.1.spiR == r.spi
  {
    hide InitiatorRequest, Request, InitiatorComplete, Dh.ValidShare, Dh.Public, Respond,
         KeySchedule.DeriveSessionKeys, OfferDhGroup, Negotiate.Select, RequestFits;
    PlainEstablishesIff(c, i, offer, r);
    InitiatorRequestIsRequest(c, i, offer);
    Server2.PlainAnswersFinally(c, InitiatorRequest(c, i, offer), r);
    var (response, sr) := Server2.RespondPlain(c, InitiatorRequest(c, i, offer), r).value;
    SaInitAgreement.SaInitAgreement(c, i, offer, r, None, None, OfferDhGroup(offer), None, response, sr);
    var shared := EstablishedKeys(c, InitiatorRequest(c, i, offer), r, sr);
    GroupKnown(offer);
    GcmSuiteAgrees(c, shared, sr);
  }

  /** The offer leads to AES-GCM without a retry, and both Diffie-Hellman shares are ones its group accepts. */
  predicate Ready(c: Crypto, offer: SecurityAssociation, i: LocalSecret, r: LocalSecret) {
    var g := OfferDhGroup(offer);
    && Matched(offer) && Negotiate.Select(offer).value.encrId == AES_GCM_16
    && Dh.ValidShare(g, Dh.Public(c, g, i.dhPrivate)) && Dh.ValidShare(g, Dh.Public(c, g, r.dhPrivate))
  }

  predicate IdFits(id: Identification) {
    |id.data| + 169 < 0x1_0000
  }

  /** SAi2, TSi and TSr of a request. */
  function OfferTail(spi: U32): seq<Payload> {
    [Payload(PtSa, SaBytes(EspOffer(spi))), Payload(PtTsi, FullTunnelTs()), Payload(PtTsr, FullTunnelTs())]
  }

  lemma OfferTailSize(spi: U32)
    ensures ChainSize(OfferTail(spi)) == 84
  {
    hide ChainSize, SaBytes, EspOffer, FullTunnelTs;
    EspOfferReads(spi);
    TsLengths([0, 0, 0, 0]);
    var ps := OfferTail(spi);
    SizeNone();
    SizeCons(ps[2], []);
    SizeCons(ps[1], [ps[2]]);
    SizeCons(ps[0], [ps[1], ps[2]]);
    assert [ps[2]] + [] == [ps[2]] && [ps[1]] + [ps[2]] == [ps[1], ps[2]] && [ps[0]] + [ps[1], ps[2]] == ps;
  }

  lemma RequestSplits(c: Crypto, sa: CompletedSaInit, cfg: AuthConfig, spi: U32)
    requires cfg.local.LocalPsk?
    ensures var ps := PskRequest(c, sa, cfg, spi); |ps| == 5 && ps == [ps[0]] + ([ps[1]] + OfferTail(spi))
  {
    hide SaBytes, EspOffer, FullTunnelTs, IdBytes, InitiatorOctets, PskAuth, AuthBytes;
  }

  lemma RequestSealable(c: Crypto, sa: CompletedSaInit, cfg: AuthConfig, spi: U32)
    requires cfg.local.LocalPsk? && IdFits(cfg.id)
    ensures Sealable(PskRequest(c, sa, cfg, spi))
  {
    hide ChainSize, OfferTail, SaBytes, EspOffer, FullTunnelTs, IdBytes, InitiatorOctets, PskAuth, AuthBytes;
    var ps := PskRequest(c, sa, cfg, spi);
    OfferTailSize(spi);
    SizeCons(ps[1], OfferTail(spi));
    SizeCons(ps[0], [ps[1]] + OfferTail(spi));
    RequestSplits(c, sa, cfg, spi);
  }

  lemma ResponseSealable(c: Crypto, sa: CompletedSaInit, cfg: AuthConfig, spi: U32)
    requires cfg.local.LocalPsk? && IdFits(cfg.id)
    ensures Sealable(PskResponse(c, sa, cfg, spi, None))
  {
    hide ChainSize, LastFour, IdBytes, ResponderOctets, PskAuth, AuthBytes;
    var ps, last := PskResponse(c, sa, cfg, spi, None), LastFour(spi, None);
    LastFourSize(spi);
    SizeCons(ps[1], last);
    SizeCons(ps[0], [ps[1]] + last);
    SameTail(c, sa, cfg, spi);
  }

  lemma SameTail(c: Crypto, sa: CompletedSaInit, cfg: AuthConfig, spi: U32)
    requires cfg.local.LocalPsk?
    ensures var ps := PskResponse(c, sa, cfg, spi, None); |ps| == 6 && ps == [ps[0]] + ([ps[1]] + LastFour(spi, None))
  {
    hide SaBytes, EspOffer, FullTunnelTs, IdBytes, ResponderOctets, PskAuth, NotifyBytes, AuthBytes;
  }

  lemma LastFourSize(spi: U32)
    ensures ChainSize(LastFour(spi, None)) == 92
    ensures forall k :: 0 <= k < |LastFour(spi, None)| ==>
      LastFour(spi, None)[k].ptype != PtNone && CanonicalType(LastFour(spi, None)[k].ptype)
  {
    hide ChainSize, SaBytes, EspOffer, FullTunnelTs, NotifyBytes;
    EspOfferReads(spi);
    TsLengths([0, 0, 0, 0]);
    var ps := LastFour(spi, None);
    Size4(ps[0], ps[1], ps[2], ps[3]);
  }

  /** The exchange types the server dispatches on. */
  lemma FirstDispatch(c: Crypto, i: LocalSecret, offer: SecurityAssociation)
    requires RequestFits(offer, i.nonce)
    ensures var h := ParseHeader(InitiatorRequest(c, i, offer)); h.Ok? && h.value.exchange == ExSaInit
  {
    hide ParseHeader, BuildSaInit, ParseSaInit, Dh.Public, SaFits, SaBytes, SeeNotifies;
    var g := OfferDhGroup(offer);
    SaInitReads(BaseHeader(i.spi, 0, Flags(true, false, false)), offer, Dh.GroupId(g), Dh.Public(c, g, i.dhPrivate),
                i.nonce, []);
  }

  lemma SecondDispatch(c: Crypto, pki: Pki, si: CompletedSaInit, ci: AuthConfig, spiI: U32, ivI: Iv)
    requires ci.local.LocalPsk? && ci.peer.PeerPsk? && |si.keys.skEi| == 36 && Sealable(PskRequest(c, si, ci, spiI))
    ensures var m := InitiatorAuthRequest(c, pki, si, ci, spiI, ivI);
      && m.Ok?
      && var h := ParseHeader(m.value);
      && h.Ok? && h.value.exchange == ExAuth && h.value.initiatorSpi == si.spiI && h.value.responderSpi == si.spiR
  {
    hide ParseHeader, SealChain, OpenWalk, PskRequest, Sealable, InitiatorAuthRequest;
    RequestBuilt(c, pki, si, ci, spiI, ivI);
    SealOpen(c, AuthHeader(si, false), PskRequest(c, si, ci, spiI), si.keys.skEi, ivI);
  }

  /** The client's IKE_AUTH request, made from the server's answer to its first request. */
  ghost predicate Follows(c: Crypto, pki: Pki, i: LocalSecret, ci: AuthConfig, x: Server2.Input, y: Server2.Input,
                          spiI: U32, ivI: Iv) {
    var p := Server2.RespondPlain(c, x.data, x.local);
    p.Ok? ==>
      var si := InitiatorComplete(c, i, x.data, p.value.0);
      si.Ok? ==> Ok(y.data) == InitiatorAuthRequest(c, pki, si.value, ci, spiI, ivI)
  }

  /**
   What a client that sends `x` and then, after `others`, `y` to a server in state `s` can rely on:
   SaInit and Established with its identity; a verified answer with the server's identity and SPI;
   CHILD SAs that mirror each other, and packets that arrive both ways.
   */
  ghost predicate Meets(c: Crypto, pki: Pki, i: LocalSecret, ci: AuthConfig, cr: AuthConfig, s: Server2.ServerState,
                        x: Server2.Input, others: seq<Server2.Op>, y: Server2.Input, spiI: U32,
                        packets: seq<(Bytes, Byte)>) {
    var key, p := (i.spi, x.local.spi), Server2.RespondPlain(c, x.data, x.local);
    var one := Server2.Handle(c, pki, cr, s, x);
    var two := Server2.Handle(c, pki, cr, Server2.RunFrom(c, pki, cr, one.0, others), y);
    && one.1 == Server2.Event(Server2.SaInitEvent(i.spi, x.local.spi))
    && two.1 == Server2.Event(Server2.EstablishedEvent(i.spi, x.local.spi, ci.id))
    && p.Ok?
    && var si := InitiatorComplete(c, i, x.data, p.value.0);
    && si.Ok?
    && var processed := ResponderProcessAuth(c, pki, p.value.1, y.data, cr, y.childSpi, y.iv, None);
    && processed.Ok? && InitiatorVerifyAuth(c, pki, si.value, processed.value.0, ci) == Ok((cr.id, y.childSpi, None))
    && key in two.0.children
    && var mine := DeriveChild(c, si.value.keys.skD, si.value.ni, si.value.nr, Initiator, spiI, y.childSpi);
    && Paired(mine, two.0.children[key]) && Flows(c, mine, two.0.children[key], packets)
    && Flows(c, two.0.children[key], mine, packets)
  }

  /**
   The whole handshake. For every offer that leads to AES-256-GCM without a retry, every valid pair of
   shares, every pair of matching pre-shared keys and every draw: in whatever state the server is, the
   client's first datagram opens the SPI pair, and after any other calls that do not open that pair
   again its second datagram establishes it.
   */
  lemma ClientMeetsServer(c: Crypto, pki: Pki, i: LocalSecret, offer: SecurityAssociation, ci: AuthConfig,
                          cr: AuthConfig, s: Server2.ServerState, x: Server2.Input, others: seq<Server2.Op>,
                          y: Server2.Input, spiI: U32, ivI: Iv, packets: seq<(Bytes, Byte)>)
    requires RequestFits(offer, i.nonce) && FrameFits(x.local.nonce) && Ready(c, offer, i, x.local)
    requires x.data == InitiatorRequest(c, i, offer) && x.sends && y.sends && Follows(c, pki, i, ci, x, y, spiI, ivI)
    requires PskConfigured(ci, cr) && IdFits(ci.id) && IdFits(cr.id)
    requires Server2.Spares(c, pki, cr, Server2.Handle(c, pki, cr, s, x).0, others, (i.spi, x.local.spi))
    ensures Meets(c, pki, i, ci, cr, s, x, others, y, spiI, packets)
  {
    hide InitiatorRequest, InitiatorComplete, Server2.RespondPlain, InitiatorAuthRequest, ResponderProcessAuth,
         InitiatorVerifyAuth, DeriveChild, Flows, Ready, ParseHeader, RequestFits, Sealable, PskRequest, PskResponse,
         Server2.Spares, Server2.RunFrom;
    ClientCompletes(c, i, offer, x.local);
    var (response, sr) := Server2.RespondPlain(c, x.data, x.local).value;
    var si := InitiatorComplete(c, i, x.data, response).value;
    RequestSealable(c, si, ci, spiI);
    ResponseSealable(c, sr, cr, y.childSpi);
    PskHandshake(c, pki, si, sr, ci, cr, spiI, y.childSpi, ivI, y.iv, None);
    FirstDispatch(c, i, offer);
    SecondDispatch(c, pki, si, ci, spiI, ivI);
    Server2.SessionWaits(c, pki, cr, Server2.Handle(c, pki, cr, s, x).0, others, (i.spi, x.local.spi));
    var mine := DeriveChild(c, si.keys.skD, si.ni, si.nr, Initiator, spiI, y.childSpi);
    var theirs := DeriveChild(c, sr.keys.skD, sr.ni, sr.nr, Responder, y.childSpi, spiI);
    PairedTraffic(c, mine, theirs, packets);
    PairedTraffic(c, theirs, mine, packets);
  }

  // ----- the default offer -----

  /** AES-GCM-16-256, PRF-HMAC-SHA256, X25519. */
  function DefaultOffer(): SecurityAssociation {
    SecurityAssociation([Proposal(1, PROTO_IKE, [],
      [Transform(ENCR, AES_GCM_16, Some(256)), Transform(PRF, PRF_HMAC_SHA2_256, None), Transform(DH, X25519, None)])])
  }

  lemma DefaultSelected()
    ensures Matched(DefaultOffer()) && OfferDhGroup(DefaultOffer()) == Dh.GroupX25519
    ensures Negotiate.Select(DefaultOffer()).value.encrId == AES_GCM_16
  {
    var ps := DefaultOffer().proposals;
    var ts := ps[0].transforms;
    assert Negotiate.Matches(ts[0], ENCR, AES_GCM_16, Some(256));
    assert Negotiate.Matches(ts[1], PRF, PRF_HMAC_SHA2_256, None);
    assert Negotiate.Matches(ts[2], DH, X25519, None);
    assert ts[1..][0] == ts[1] && ts[1..][1..] == [ts[2]];
    assert FirstDh([ts[2]]) == Some(X25519);
    assert FirstDh(ts[1..]) == Some(X25519);
  }

  lemma DefaultFits(nonce: Bytes)
    requires FrameFits(nonce)
    ensures RequestFits(DefaultOffer(), nonce)
  {
    hide TransformBytes;
    var p := DefaultOffer().proposals[0];
    Negotiate.ListSize(p.transforms);
    assert |ProposalBytes(p, true)| == ProposalSize(p) <= 44;
    assert [p][1..] == [];
    assert ProposalListBytes([p][1..]) == [];
    assert SaBytes(DefaultOffer()) == ProposalBytes(p, true);
  }

  /**
   With the library's default offer nothing more is needed: for all secrets and nonces of both
   sides the offer is ready.
   */
  lemma DefaultReady(c: Crypto, i: LocalSecret, r: LocalSecret)
    requires FrameFits(i.nonce)
    ensures RequestFits(DefaultOffer(), i.nonce) && Ready(c, DefaultOffer(), i, r)
  {
    hide Negotiate.Select, OfferDhGroup, DefaultOffer, RequestFits, Dh.ModpValid, Dh.Prime;
    DefaultSelected();
    DefaultFits(i.nonce);
  }
}
