/**
 What the `IKE_SA_INIT` exchange achieves: both ends hold one state, and an
 initiator that follows the responder's retries converges.
 */
module SaInitAgreement {
  import opened Common
  import opened Primitives
  import opened Framing
  import opened Message
  import opened PayloadBodies
  import opened KeySchedule
  import opened Dh
  import opened Negotiate
  import opened SaInit

  /** An offer and a nonce whose encodings fit one request. */
  predicate RequestFits(offer: SecurityAssociation, nonce: Bytes) {
    SaFits(offer) && FrameFits(SaBytes(offer)) && FrameFits(nonce)
  }

  predicate CookieFits(cookie: Option<Bytes>) {
    cookie.Some? ==> |cookie.value| + 8 < 0x1_0000
  }

  /** A request as an initiator sends it: for some group, with an echoed cookie or without. */
  function Request(c: Crypto, local: LocalSecret, offer: SecurityAssociation, g: DhGroup,
                   cookie: Option<Bytes>): Bytes {
    BuildSaInit(BaseHeader(local.spi, 0, Flags(true, false, false)), offer, GroupId(g), Public(c, g, local.dhPrivate),
                local.nonce,
                if cookie.Some? then [Status(COOKIE, cookie.value)] else [])
  }

  function Understood(c: Crypto, local: LocalSecret, offer: SecurityAssociation, g: DhGroup,
                      cookie: Option<Bytes>): SaInitPayloads {
    SaInitPayloads(offer, KeyExchange(GroupId(g), Public(c, g, local.dhPrivate)), local.nonce, [SHA2_256], cookie)
  }

  lemma SeeCookie(seen: Seen, cookie: Option<Bytes>)
    requires seen.cookie == None
    ensures SeeNotifies(seen, if cookie.Some? then [Status(COOKIE, cookie.value)] else []) == seen.(cookie := cookie)
  {
    if cookie.Some? {
      var n := Status(COOKIE, cookie.value);
      NotifyRoundTrip(n);
      assert [n][1..] == [];
    }
  }

  /** The responder understands a request exactly as it was meant. */
  lemma RequestReads(c: Crypto, local: LocalSecret, offer: SecurityAssociation, g: DhGroup, cookie: Option<Bytes>,
                     r: LocalSecret, natt: Option<(Endpoint, Endpoint)>, policy: Option<CookiePolicy>)
    requires RequestFits(offer, local.nonce)
    requires CookieFits(cookie)
    ensures Respond(c, Request(c, local, offer, g, cookie), r, natt, policy)
         == Answer(c, Request(c, local, offer, g, cookie), local.spi, Understood(c, local, offer, g, cookie), r, natt,
                   policy)
  {
    hide Answer, ParseHeader, ParseSaInit, BuildSaInit, SeeNotifies, SaFits, SaBytes, Public, NotifyBytes;
    var h := BaseHeader(local.spi, 0, Flags(true, false, false));
    var public := Public(c, g, local.dhPrivate);
    var extra := if cookie.Some? then [Status(COOKIE, cookie.value)] else [];
    SaInitReads(h, offer, GroupId(g), public, local.nonce, extra);
    SeeCookie(SeenCore(offer, GroupId(g), public, local.nonce), cookie);
  }

  // ----- agreement -----

  lemma SeeNat(c: Crypto, seen: Seen, natt: Option<(Endpoint, Endpoint)>, spiI: U64, spiR: U64)
    ensures SeeNotifies(seen, NatNotifies(c, natt, spiI, spiR)) == seen
  {
    hide NatHash;
    if natt.Some? {
      var ns := NatNotifies(c, natt, spiI, spiR);
      NotifyRoundTrip(ns[0]);
      NotifyRoundTrip(ns[1]);
      assert ns[1..] == [ns[1]] && ns[1..][1..] == [];
      assert SeeNotify(seen, NotifyBytes(ns[0])) == seen && SeeNotify(seen, NotifyBytes(ns[1])) == seen;
      assert SeeNotifies(seen, ns) == SeeNotifies(seen, ns[1..]);
      assert SeeNotifies(seen, ns[1..]) == SeeNotifies(seen, ns[1..][1..]);
    }
  }

  /** What the initiator understands from an establishing response. */
  lemma ResponseReads(c: Crypto, request: Bytes, spiI: U64, ps: SaInitPayloads, suite: ChosenSuite, g: DhGroup,
                      i: LocalSecret, r: LocalSecret, natt: Option<(Endpoint, Endpoint)>, response: Bytes,
                      sa: CompletedSaInit)
    requires FrameFits(r.nonce)
    requires Establish(c, request, spiI, ps, suite, g, r, natt) == Ok(Established(response, sa))
    ensures InitiatorComplete(c, i, request, response)
         == FinishInitiator(c, i, request, response, r.spi,
              SaInitPayloads(SecurityAssociation([ToProposal(suite)]),
                             KeyExchange(suite.dhId, Public(c, g, r.dhPrivate)), r.nonce, [SHA2_256], None))
  {
    hide FinishInitiator, ParseHeader, ParseSaInit, BuildSaInit, SeeNotifies, SaFits, SaBytes, Public, NotifyBytes,
         ToProposal, DeriveSessionKeys, Shared, DhPeer, NatHash, KeyLengthsOf;
    var h := BaseHeader(spiI, r.spi, RESPONSE_FLAGS);
    var echo := SecurityAssociation([ToProposal(suite)]);
    var public := Public(c, g, r.dhPrivate);
    var extra := NatNotifies(c, natt, spiI, r.spi);
    EchoFits(suite);
    SaInitReads(h, echo, suite.dhId, public, r.nonce, extra);
    SeeNat(c, SeenCore(echo, suite.dhId, public, r.nonce), natt, spiI, r.spi);
  }

  /** The two derivations agree once the shares cross. */
  lemma FinishAgrees(c: Crypto, request: Bytes, sel: SecurityAssociation, suite: ChosenSuite, g: DhGroup,
                     i: LocalSecret, r: LocalSecret, natt: Option<(Endpoint, Endpoint)>, response: Bytes,
                     sa: CompletedSaInit)
    requires Select(sel) == Some(suite) && GroupFromId(suite.dhId) == Some(g)
    requires Establish(c, request, i.spi, Understood(c, i, sel, g, None), suite, g, r, natt)
      == Ok(Established(response, sa))
          || exists k :: Establish(c, request, i.spi, Understood(c, i, sel, g, Some(k)), suite, g, r, natt)
              == Ok(Established(response, sa))
    ensures var f := FinishInitiator(c, i, request, response, r.spi,
              SaInitPayloads(SecurityAssociation([ToProposal(suite)]),
                             KeyExchange(suite.dhId, Public(c, g, r.dhPrivate)), r.nonce, [SHA2_256], None));
      && (f.Ok? <==> ValidShare(g, Public(c, g, r.dhPrivate)))
      && (f.Ok? ==> f.value == sa.(role := Initiator))
  {
    hide DeriveSessionKeys, BuildSaInit, Shared, Public, ValidShare, Select, ToProposal, NatNotifies;
    SelectEcho(sel);
    assert GroupId(g) == suite.dhId;
    if ValidShare(g, Public(c, g, r.dhPrivate)) {
      SharedAgreement(c, g, i.dhPrivate, r.dhPrivate);
    }
  }

  function AllKeys(k: SessionKeys): Bytes {
    k.skD + k.skAi + k.skAr + k.skEi + k.skEr + k.skPi + k.skPr
  }

  /** The lengths a suite asks for: 36-octet cipher keys and no integrity keys for AES-GCM, 32 and 32 for AES-CBC. */
  lemma SuiteLengths(s: ChosenSuite)
    requires Supported(s)
    ensures KeyLengthsOf(s) == if s.encrId == AES_GCM_16 then KeyLengths(32, 0, 36) else KeyLengths(32, 32, 32)
  {
  }

  /** The keys of an establishing responder are cut from the stream of the Diffie-Hellman secret of the two shares. */
  lemma EstablishKeys(c: Crypto, request: Bytes, offer: SecurityAssociation, suite: ChosenSuite, g: DhGroup,
                      i: LocalSecret, cookie: Option<Bytes>, r: LocalSecret, natt: Option<(Endpoint, Endpoint)>,
                      response: Bytes, sa: CompletedSaInit)
    requires Establish(c, request, i.spi, Understood(c, i, offer, g, cookie), suite, g, r, natt)
      == Ok(Established(response, sa))
    ensures var secret := Shared(c, g, r.dhPrivate, Public(c, g, i.dhPrivate));
      && secret.Ok?
      && AllKeys(sa.keys) == PrfPlus(c, c.hmacSha256(i.nonce + r.nonce, secret.value),
                                     i.nonce + r.nonce + U64Bytes(i.spi) + U64Bytes(r.spi), |AllKeys(sa.keys)|)
      && |sa.keys.skD| == |sa.keys.skPi| == |sa.keys.skPr| == KeyLengthsOf(suite).prf
      && |sa.keys.skAi| == |sa.keys.skAr| == KeyLengthsOf(suite).integ
      && |sa.keys.skEi| == |sa.keys.skEr| == KeyLengthsOf(suite).encr
  {
    hide Shared, Public, PrfPlus, DeriveSessionKeys, KeyLengthsOf, BuildSaInit, NatNotifies, ToProposal;
    var secret := Shared(c, g, r.dhPrivate, Public(c, g, i.dhPrivate)).value;
    SessionKeysTileStream(c, secret, i.nonce, r.nonce, i.spi, r.spi, KeyLengthsOf(suite));
  }

  /**
   Agreement from raw octets: whenever the responder establishes on an initiator's
   request, the initiator's completion succeeds exactly when the responder's share
   is one the group accepts, and then both sides hold the same suite, SPIs, nonces,
   transcripts, advertised hashes and all seven keys. The keys are those of section
   2.14 of RFC 7296 for the secret of the two shares.
   */
  lemma SaInitAgreement(c: Crypto, i: LocalSecret, offer: SecurityAssociation, r: LocalSecret,
                        natt: Option<(Endpoint, Endpoint)>, policy: Option<CookiePolicy>,
                        g: DhGroup, cookie: Option<Bytes>, response: Bytes, sa: CompletedSaInit)
    requires RequestFits(offer, i.nonce) && FrameFits(r.nonce)
    requires CookieFits(cookie)
    requires Respond(c, Request(c, i, offer, g, cookie), r, natt, policy) == Ok(Established(response, sa))
    ensures var done := InitiatorComplete(c, i, Request(c, i, offer, g, cookie), response);
      && (done.Ok? <==> ValidShare(g, Public(c, g, r.dhPrivate)))
      && (done.Ok? ==> done.value == sa.(role := Initiator))
    ensures Select(offer) == Some(sa.suite) && sa.suite.dhId == GroupId(g)
    ensures sa.ni == i.nonce && sa.nr == r.nonce && sa.spiI == i.spi && sa.spiR == r.spi
    ensures sa.role == Responder && sa.peerSignatureHashes == [SHA2_256]
    ensures sa.initMessage == Request(c, i, offer, g, cookie) && sa.respMessage == response
    ensures var secret := Shared(c, g, r.dhPrivate, Public(c, g, i.dhPrivate));
      && secret.Ok?
      && AllKeys(sa.keys) == PrfPlus(c, c.hmacSha256(i.nonce + r.nonce, secret.value),
                                     i.nonce + r.nonce + U64Bytes(i.spi) + U64Bytes(r.spi), |AllKeys(sa.keys)|)
    ensures |sa.keys.skD| == |sa.keys.skPi| == |sa.keys.skPr| == 32
    ensures |sa.keys.skEi| == |sa.keys.skEr| == if sa.suite.encrId == AES_GCM_16 then 36 else 32
    ensures |sa.keys.skAi| == |sa.keys.skAr| == if sa.suite.encrId == AES_GCM_16 then 0 else 32
  {
    hide AllKeys, PrfPlus, Respond, InitiatorComplete, FinishInitiator, Request, Public, DeriveSessionKeys, Select,
         RequestFits, ValidShare, BuildSaInit, NotifyResponse, NatNotifies, Shared, ToProposal, CookieDemand;
    var request := Request(c, i, offer, g, cookie);
    var ps := Understood(c, i, offer, g, cookie);
    RequestReads(c, i, offer, g, cookie, r, natt, policy);
    var suite := Select(offer).value;
    var g' := GroupFromId(suite.dhId).value;
    assert GroupId(g') == GroupId(g);
    assert GroupFromId(GroupId(g')) == Some(g') && GroupFromId(GroupId(g)) == Some(g);
    assert g' == g;
    assert Establish(c, request, i.spi, ps, suite, g, r, natt) == Ok(Established(response, sa));
    ResponseReads(c, request, i.spi, ps, suite, g, i, r, natt, response, sa);
    FinishAgrees(c, request, offer, suite, g, i, r, natt, response, sa);
    EstablishKeys(c, request, offer, suite, g, i, cookie, r, natt, response, sa);
    SelectedSuite(offer);
    SuiteLengths(suite);
  }

  lemma SelectedSuite(offer: SecurityAssociation)
    requires Select(offer).Some?
    ensures Supported(Select(offer).value)
  {
    hide SelectFrom;
    SelectedIsSupported(offer.proposals);
  }

  /** The library's own first request is one of these requests. */
  lemma InitiatorRequestIsRequest(c: Crypto, i: LocalSecret, offer: SecurityAssociation)
    ensures InitiatorRequest(c, i, offer) == Request(c, i, offer, OfferDhGroup(offer), None)
  {
    hide BuildSaInit;
  }

  /**
   The octets of an establishing response: Message ID 0, both SPIs and the response flag; and with NAT
   detection the two hashes of section 2.23 of RFC 7296, ours as the source and the peer's as the destination.
   */
  lemma ResponseSays(c: Crypto, request: Bytes, spiI: U64, ps: SaInitPayloads, suite: ChosenSuite, g: DhGroup,
                     r: LocalSecret, natt: Option<(Endpoint, Endpoint)>, response: Bytes, sa: CompletedSaInit)
    requires FrameFits(r.nonce)
    requires Establish(c, request, spiI, ps, suite, g, r, natt) == Ok(Established(response, sa))
    ensures ParseHeader(response).Ok? && |response| >= HEADER_LEN
    ensures var h := ParseHeader(response).value;
      h.messageId == 0 && h.initiatorSpi == spiI && h.responderSpi == r.spi && h.flags == Flags(false, false, true)
    ensures natt.Some? ==>
      var (ours, peers) := natt.value;
      var w, spis := Walk(ParseHeader(response).value.nextPayload, response[HEADER_LEN..]), U64Bytes(spiI)
          + U64Bytes(r.spi);
      && |w.items| == 6
      && ParseNotify(w.items[4].data) == Ok(Notify(0, [], 16388, c.sha1(spis + ours.ip + U16Bytes(ours.port))))
      && ParseNotify(w.items[5].data) == Ok(Notify(0, [], 16389, c.sha1(spis + peers.ip + U16Bytes(peers.port))))
  {
    hide ParseHeader, BuildMessage, SaInitChain, Public, ToProposal, DeriveSessionKeys, Shared, DhPeer, KeyLengthsOf,
         Walk, ParseNotify, NatNotifies, ChainOk;
    var extra := NatNotifies(c, natt, spiI, r.spi);
    var chain := SaInitChain(SecurityAssociation([ToProposal(suite)]), suite.dhId, Public(c, g, r.dhPrivate), r.nonce,
                             extra);
    ChainFits(c, suite, g, r, natt, spiI);
    MessageRoundTrip(BaseHeader(spiI, r.spi, RESPONSE_FLAGS), chain);
    if natt.Some? {
      NatSays(c, SecurityAssociation([ToProposal(suite)]), suite.dhId, Public(c, g, r.dhPrivate), r.nonce, natt.value,
              spiI,
              r.spi);
    }
  }

  lemma ChainFits(c: Crypto, suite: ChosenSuite, g: DhGroup, r: LocalSecret, natt: Option<(Endpoint, Endpoint)>,
                  spiI: U64)
    requires FrameFits(r.nonce)
    ensures ChainOk(SaInitChain(SecurityAssociation([ToProposal(suite)]), suite.dhId, Public(c, g, r.dhPrivate),
                                r.nonce,
                                NatNotifies(c, natt, spiI, r.spi)))
    ensures FirstType(SaInitChain(SecurityAssociation([ToProposal(suite)]), suite.dhId, Public(c, g, r.dhPrivate),
                                  r.nonce,
                                  NatNotifies(c, natt, spiI, r.spi))) == PtSa
  {
    hide SaBytes, Public, NotifyBytes, ToProposal, KeBytes, SaFits, NatHash;
    EchoFits(suite);
    var extra := NatNotifies(c, natt, spiI, r.spi);
    var chain := SaInitChain(SecurityAssociation([ToProposal(suite)]), suite.dhId, Public(c, g, r.dhPrivate), r.nonce,
                             extra);
    forall i | 0 <= i < |chain| ensures PayloadOk(chain[i]) {
      if i >= 4 {
        assert chain[i] == Payload(PtNotify, NotifyBytes(extra[i - 4]));
      }
    }
  }

  lemma NatSays(c: Crypto, sa: SecurityAssociation, group: U16, public: Bytes, nonce: Bytes, natt: (Endpoint, Endpoint),
                spiI: U64, spiR: U64)
    ensures var items := Raw(SaInitChain(sa, group, public, nonce, NatNotifies(c, Some(natt), spiI, spiR)));
      var spis := U64Bytes(spiI) + U64Bytes(spiR);
      && |items| == 6
      && ParseNotify(items[4].data) == Ok(Notify(0, [], 16388, c.sha1(spis + natt.0.ip + U16Bytes(natt.0.port))))
      && ParseNotify(items[5].data) == Ok(Notify(0, [], 16389, c.sha1(spis + natt.1.ip + U16Bytes(natt.1.port))))
  {
    hide SaBytes, KeBytes, NotifyBytes, ParseNotify, U64Bytes, U16Bytes;
    var extra := NatNotifies(c, Some(natt), spiI, spiR);
    NotifyRoundTrip(extra[0]);
    NotifyRoundTrip(extra[1]);
  }

  // ----- retries -----

  /** What the initiator varies between requests; its offer, SPI and nonce stay fixed. */
  datatype Try = Try(g: DhGroup, cookie: Option<Bytes>)

  /** How an initiator follows a refusal, read from the octets of the response. */
  function Follow(t: Try, response: Bytes): Option<Try> {
    match ParseHeader(response)
    case Err(_) => None
    case Ok(h) =>
      var items := Walk(h.nextPayload, response[HEADER_LEN..]).items;
      if items == [] then None
      else match ParseNotify(items[0].data)
        case Err(_) => None
        case Ok(n) =>
          if n.notifyType == COOKIE then Some(t.(cookie := Some(n.data)))
          else if n.notifyType == INVALID_KE_PAYLOAD && |n.data| == 2 then
            (match GroupFromId(GetU16(n.data, 0))
             case Some(g) => Some(t.(g := g))
             case None => None)
          else None
  }

  predicate Final(res: Result<SaInitResult>) {
    res.Err? || res.value.Established?
  }

  /** The answers an initiator collects, one per fresh responder secret, until an answer is final. */
  function Dialogue(c: Crypto, i: LocalSecret, offer: SecurityAssociation, t: Try, rs: seq<LocalSecret>,
                    natt: Option<(Endpoint, Endpoint)>, policy: Option<CookiePolicy>): seq<Result<SaInitResult>>
    decreases |rs|
  {
    if rs == [] then []
    else
      var res := Respond(c, Request(c, i, offer, t.g, t.cookie), rs[0], natt, policy);
      if Final(res) then [res]
      else
        var next := Follow(t, res.value.response);
        if next.None? then [res] else [res] + Dialogue(c, i, offer, next.value, rs[1..], natt, policy)
  }

  function Expected(c: Crypto, i: LocalSecret, policy: CookiePolicy): Bytes {
    IkeCookie(c, policy.secret, i.spi, i.nonce, policy.peer)
  }

  predicate Demands(c: Crypto, i: LocalSecret, t: Try, policy: Option<CookiePolicy>) {
    policy.Some? && policy.value.required && t.cookie != Some(Expected(c, i, policy.value))
  }

  predicate WrongGroup(offer: SecurityAssociation, t: Try, natt: Option<(Endpoint, Endpoint)>) {
    natt.Some? && Select(offer).Some? && Select(offer).value.dhId != GroupId(t.g)
  }

  lemma NotifyResponseReads(spiI: U64, n: Notify)
    requires NotifyFits(n)
    ensures var m := NotifyResponse(spiI, n);
      && ParseHeader(m).Ok?
      && Walk(ParseHeader(m).value.nextPayload, m[HEADER_LEN..]).items == [RawPayload(PtNotify, false, NotifyBytes(n))]
  {
    hide ParseHeader, Walk, BuildMessage, NotifyBytes, ChainSize;
    var ps := [Payload(PtNotify, NotifyBytes(n))];
    MessageRoundTrip(BaseHeader(spiI, 0, RESPONSE_FLAGS), ps);
    assert Raw(ps) == [RawPayload(PtNotify, false, NotifyBytes(n))];
  }

  /** The stateless cookie of section 2.6 of RFC 7296, written out. */
  function CookieOf(c: Crypto, policy: CookiePolicy, spiI: U64, nonce: Bytes): Bytes {
    c.sha256(policy.secret + U64Bytes(spiI) + nonce + policy.peer)
  }

  /**
   The cookie gate, on every request that parses: it asks for a cookie exactly when the policy demands
   one and the request does not echo the code of the secret, its SPI, its nonce and the peer's address,
   and what it asks for is that code.
   */
  lemma CookieGate(c: Crypto, request: Bytes, r: LocalSecret, natt: Option<(Endpoint, Endpoint)>,
                   policy: Option<CookiePolicy>)
    requires ParseHeader(request).Ok? && |request| >= HEADER_LEN
    requires ParseSaInit(ParseHeader(request).value, request[HEADER_LEN..]).Ok?
    ensures var h, res := ParseHeader(request).value, Respond(c, request, r, natt, policy);
      var ps := ParseSaInit(h, request[HEADER_LEN..]).value;
      var demands := policy.Some? && policy.value.required
        && ps.cookie != Some(CookieOf(c, policy.value, h.initiatorSpi, ps.nonce));
      && (res.Ok? && res.value.CookieRequired? <==> demands)
      && (demands ==>
            && res.Ok? && ParseHeader(res.value.response).Ok? && |res.value.response| >= HEADER_LEN
            && var asked := Status(COOKIE, CookieOf(c, policy.value, h.initiatorSpi, ps.nonce));
            Walk(ParseHeader(res.value.response).value.nextPayload, res.value.response[HEADER_LEN..]).items
            == [RawPayload(PtNotify, false, NotifyBytes(asked))])
  {
    hide ParseHeader, ParseSaInit, Select, Establish, NotifyResponse, GroupFromId, GroupId, Walk, NotifyBytes;
    var h := ParseHeader(request).value;
    var ps := ParseSaInit(h, request[HEADER_LEN..]).value;
    if policy.Some? {
      var asked := Status(COOKIE, CookieOf(c, policy.value, h.initiatorSpi, ps.nonce));
      NotifyResponseReads(h.initiatorSpi, asked);
      NotifyLong(h.initiatorSpi, asked);
    }
    if Select(ps.sa).Some? && GroupFromId(Select(ps.sa).value.dhId).Some? {
      EstablishIsFinal(c, request, h.initiatorSpi, ps, Select(ps.sa).value, GroupFromId(Select(ps.sa).value.dhId).value,
                       r,
                       natt);
    }
  }

  lemma NotifyLong(spiI: U64, n: Notify)
    ensures |NotifyResponse(spiI, n)| >= HEADER_LEN
  {
    hide EncodeChain, NotifyBytes;
  }

  lemma FollowCookie(t: Try, spiI: U64, cookie: Bytes)
    requires |cookie| == 32
    ensures Follow(t, NotifyResponse(spiI, Status(COOKIE, cookie))) == Some(t.(cookie := Some(cookie)))
  {
    hide ParseHeader, Walk, NotifyResponse, ParseNotify, NotifyBytes;
    var n := Status(COOKIE, cookie);
    NotifyResponseReads(spiI, n);
    NotifyRoundTrip(n);
  }

  lemma FollowGroup(t: Try, spiI: U64, g: DhGroup)
    ensures Follow(t, NotifyResponse(spiI, Status(INVALID_KE_PAYLOAD, U16Bytes(GroupId(g))))) == Some(t.(g := g))
  {
    hide ParseHeader, Walk, NotifyResponse, ParseNotify, NotifyBytes, U16Bytes;
    var n := Status(INVALID_KE_PAYLOAD, U16Bytes(GroupId(g)));
    NotifyResponseReads(spiI, n);
    NotifyRoundTrip(n);
  }

  /** Each answer is decided by two facts about the request: whether its cookie is the expected one, and its group. */
  lemma AnswerCases(c: Crypto, i: LocalSecret, offer: SecurityAssociation, t: Try, r: LocalSecret,
                    natt: Option<(Endpoint, Endpoint)>, policy: Option<CookiePolicy>)
    requires RequestFits(offer, i.nonce) && CookieFits(t.cookie)
    ensures var res := Respond(c, Request(c, i, offer, t.g, t.cookie), r, natt, policy);
      if Demands(c, i, t, policy) then
        && res.Ok? && res.value.CookieRequired?
        && Follow(t, res.value.response) == Some(t.(cookie := Some(Expected(c, i, policy.value))))
      else if WrongGroup(offer, t, natt) then
        && res.Ok? && res.value.InvalidKe? && res.value.group == Select(offer).value.dhId
        && GroupFromId(res.value.group).Some?
        && Follow(t, res.value.response) == Some(t.(g := GroupFromId(res.value.group).value))
      else Final(res)
  {
    hide Respond, Request, Select, Follow, NotifyResponse, IkeCookie, Public, RequestFits, Establish, GroupFromId,
         GroupId;
    RequestReads(c, i, offer, t.g, t.cookie, r, natt, policy);
    if Demands(c, i, t, policy) {
      FollowCookie(t, i.spi, Expected(c, i, policy.value));
    } else if WrongGroup(offer, t, natt) {
      SelectedGroup(offer);
      FollowGroup(t, i.spi, GroupFromId(Select(offer).value.dhId).value);
    } else if Select(offer).Some? {
      SelectedGroup(offer);
      EstablishIsFinal(c, Request(c, i, offer, t.g, t.cookie), i.spi, Understood(c, i, offer, t.g, t.cookie),
                       Select(offer).value, GroupFromId(Select(offer).value.dhId).value, r, natt);
    }
  }

  lemma SelectedGroup(offer: SecurityAssociation)
    requires Select(offer).Some?
    ensures var id := Select(offer).value.dhId; GroupFromId(id).Some? && GroupId(GroupFromId(id).value) == id
  {
    SelectedIsSupported(offer.proposals);
  }

  lemma EstablishIsFinal(c: Crypto, request: Bytes, spiI: U64, ps: SaInitPayloads, suite: ChosenSuite, g: DhGroup,
                         r: LocalSecret, natt: Option<(Endpoint, Endpoint)>)
    ensures Final(Establish(c, request, spiI, ps, suite, g, r, natt))
  {
    hide Shared, Public, DeriveSessionKeys, BuildSaInit, NatNotifies, ToProposal;
  }

  predicate IsCookieDemand(res: Result<SaInitResult>) {
    res.Ok? && res.value.CookieRequired?
  }

  predicate IsGroupDemand(res: Result<SaInitResult>) {
    res.Ok? && res.value.InvalidKe?
  }

  /** At most one challenge of each kind, and the same group whenever one is named. */
  predicate Converges(offer: SecurityAssociation, trace: seq<Result<SaInitResult>>) {
    && 1 <= |trace| <= 3 && Final(trace[|trace| - 1])
    && (forall j, k :: 0 <= j < k < |trace| ==> !(IsCookieDemand(trace[j]) && IsCookieDemand(trace[k])))
    && (forall j, k :: 0 <= j < k < |trace| ==> !(IsGroupDemand(trace[j]) && IsGroupDemand(trace[k])))
    && (forall k :: 0 <= k < |trace| && IsGroupDemand(trace[k]) ==>
          Select(offer).Some? && trace[k].value.group == Select(offer).value.dhId)
  }

  /** A try whose cookie is right gets at most one group demand. */
  lemma ConvergesAfterCookie(c: Crypto, i: LocalSecret, offer: SecurityAssociation, t: Try, rs: seq<LocalSecret>,
                             natt: Option<(Endpoint, Endpoint)>, policy: Option<CookiePolicy>)
    requires RequestFits(offer, i.nonce) && CookieFits(t.cookie) && |rs| >= 2 && !Demands(c, i, t, policy)
    ensures var trace := Dialogue(c, i, offer, t, rs, natt, policy);
      && 1 <= |trace| <= 2 && Converges(offer, trace)
      && (forall k :: 0 <= k < |trace| ==> !IsCookieDemand(trace[k]))
  {
    hide Respond, Request, Select, Follow, RequestFits, Expected;
    AnswerCases(c, i, offer, t, rs[0], natt, policy);
    if WrongGroup(offer, t, natt) {
      var t' := t.(g := GroupFromId(Select(offer).value.dhId).value);
      AnswerCases(c, i, offer, t', rs[1], natt, policy);
      SelectedGroup(offer);
      assert !WrongGroup(offer, t', natt);
      assert Dialogue(c, i, offer, t', rs[1..], natt, policy)
          == [Respond(c, Request(c, i, offer, t'.g, t'.cookie), rs[1], natt, policy)];
    }
  }

  /**
   Retry convergence: whatever it sends first, an initiator that echoes the cookie
   and resends its key exchange for the named group sees at most one COOKIE and at
   most one INVALID_KE_PAYLOAD, in either combination, before a final outcome.
   */
  lemma RetryConverges(c: Crypto, i: LocalSecret, offer: SecurityAssociation, t: Try, rs: seq<LocalSecret>,
                       natt: Option<(Endpoint, Endpoint)>, policy: Option<CookiePolicy>)
    requires RequestFits(offer, i.nonce) && CookieFits(t.cookie) && |rs| >= 3
    ensures Converges(offer, Dialogue(c, i, offer, t, rs, natt, policy))
  {
    hide Respond, Request, Select, Follow, RequestFits, IkeCookie;
    if Demands(c, i, t, policy) {
      AnswerCases(c, i, offer, t, rs[0], natt, policy);
      var t' := t.(cookie := Some(Expected(c, i, policy.value)));
      ConvergesAfterCookie(c, i, offer, t', rs[1..], natt, policy);
      var res := Respond(c, Request(c, i, offer, t.g, t.cookie), rs[0], natt, policy);
      var tail := Dialogue(c, i, offer, t', rs[1..], natt, policy);
      var trace := Dialogue(c, i, offer, t, rs, natt, policy);
      assert trace == [res] + tail;
      assert forall k :: 0 < k < |trace| ==> trace[k] == tail[k - 1];
    } else {
      ConvergesAfterCookie(c, i, offer, t, rs, natt, policy);
    }
  }
}
