/**
 The `IKE_SA_INIT` exchange for both roles (src/ikev2/exchange.rs).
 */
module SaInit {
  import opened Common
  import opened Primitives
  import opened Framing
  import opened Message
  import opened PayloadBodies
  import opened KeySchedule
  import opened Dh
  import opened Negotiate

  datatype Role = Initiator | Responder

  type Scalar = b: Bytes | |b| == 32 witness seq(32, i => 0)

  datatype LocalSecret = LocalSecret(dhPrivate: Scalar, nonce: Bytes, spi: U64)

  datatype CompletedSaInit = CompletedSaInit(
    role: Role, spiI: U64, spiR: U64, suite: ChosenSuite, keys: SessionKeys,
    ni: Bytes, nr: Bytes, initMessage: Bytes, respMessage: Bytes, peerSignatureHashes: seq<U16>)

  // ----- reading a message -----

  datatype SaInitPayloads = SaInitPayloads(
    sa: SecurityAssociation, ke: KeyExchange, nonce: Bytes, signatureHashes: seq<U16>, cookie: Option<Bytes>)

  /** The locals of the parsing loop. */
  datatype Seen = Seen(
    sa: Option<SecurityAssociation>, ke: Option<KeyExchange>, nonce: Option<Bytes>,
    signatureHashes: seq<U16>, cookie: Option<Bytes>)

  /** A bare list of 16-bit identifiers; a trailing odd octet is ignored. */
  function SignatureHashes(data: Bytes): seq<U16> {
    if |data| < 2 then [] else [GetU16(data, 0)] + SignatureHashes(data[2..])
  }

  function SeeNotify(seen: Seen, data: Bytes): Seen {
    match ParseNotify(data)
    case Err(_) => seen
    case Ok(n) =>
      if n.notifyType == SIGNATURE_HASH_ALGORITHMS then seen.(signatureHashes := SignatureHashes(n.data))
      else if n.notifyType == COOKIE then seen.(cookie := Some(n.data))
      else seen
  }

  /** One turn of the loop. */
  function See(seen: Seen, p: RawPayload): Result<Seen> {
    match p.ptype
    case PtSa =>
      var sa :- ParseSa(p.data);
      Ok(seen.(sa := Some(sa)))
    case PtKe =>
      var ke :- ParseKe(p.data);
      Ok(seen.(ke := Some(ke)))
    case PtNonce => Ok(seen.(nonce := Some(p.data)))
    case PtNotify => Ok(SeeNotify(seen, p.data))
    case _ => Ok(seen)
  }

  function SeeAll(seen: Seen, items: seq<RawPayload>): Result<Seen>
    decreases |items|
  {
    if items == [] then Ok(seen)
    else
      var next :- See(seen, items[0]);
      SeeAll(next, items[1..])
  }

  function Complete(seen: Seen): Result<SaInitPayloads> {
    var sa :- OkOr(seen.sa, MissingPayload(MissSa));
    var ke :- OkOr(seen.ke, MissingPayload(MissKe));
    var nonce :- OkOr(seen.nonce, MissingPayload(MissNonce));
    Ok(SaInitPayloads(sa, ke, nonce, seen.signatureHashes, seen.cookie))
  }

  const NOTHING_SEEN: Seen := Seen(None, None, None, [], None)

  /** Scan what was walked: errors of a payload come before an error of the chain behind it. */
  function ParseWalked(w: Walked): Result<SaInitPayloads> {
    var seen :- SeeAll(NOTHING_SEEN, w.items);
    if w.error.Some? then Err(w.error.value) else Complete(seen)
  }

  function ParseSaInit(h: IkeHeader, body: Bytes): Result<SaInitPayloads> {
    ParseWalked(Walk(h.nextPayload, body))
  }

  /** The source's loop over the payload iterator. */
  method ParseSaInitLoop(h: IkeHeader, body: Bytes) returns (r: Result<SaInitPayloads>)
    ensures r == ParseSaInit(h, body)
  {
    hide See, Walk;
    var iter := new PayloadIter(h.nextPayload, body);
    var seen := NOTHING_SEEN;
    ghost var all := Walk(h.nextPayload, body);
    while true
      invariant SeeAll(NOTHING_SEEN, all.items) == SeeAll(seen, iter.Remaining().items)
      invariant all.error == iter.Remaining().error
      decreases |iter.rest|
    {
      ghost var left := iter.Remaining();
      var item := iter.Next();
      match item {
        case None =>
          return Complete(seen);
        case Some(Err(e)) =>
          return Err(e);
        case Some(Ok(p)) =>
          assert left.items[1..] == iter.Remaining().items;
          var step := See(seen, p);
          if step.Err? {
            return Err(step.error);
          }
          seen := step.value;
      }
    }
  }

  // ----- building a message -----

  function BaseHeader(spiI: U64, spiR: U64, flags: Flags): IkeHeader {
    IkeHeader(spiI, spiR, PtNone, 2, 0, ExSaInit, flags, 0, 0)
  }

  function SighashNotify(): Notify {
    Status(SIGNATURE_HASH_ALGORITHMS, U16Bytes(SHA2_256))
  }

  function NotifyPayloads(ns: seq<Notify>): (ps: seq<Payload>)
    ensures |ps| == |ns|
    ensures forall i :: 0 <= i < |ns| ==> ps[i] == Payload(PtNotify, NotifyBytes(ns[i]))
  {
    seq(|ns|, i requires 0 <= i < |ns| => Payload(PtNotify, NotifyBytes(ns[i])))
  }

  function SaInitChain(sa: SecurityAssociation, group: U16, public: Bytes, nonce: Bytes,
                       extra: seq<Notify>): seq<Payload> {
    [Payload(PtSa, SaBytes(sa)), Payload(PtKe, KeBytes(KeyExchange(group, public))), Payload(PtNonce, nonce),
     Payload(PtNotify, NotifyBytes(SighashNotify()))] + NotifyPayloads(extra)
  }

  function BuildSaInit(h: IkeHeader, sa: SecurityAssociation, group: U16, public: Bytes, nonce: Bytes,
                       extra: seq<Notify>): Bytes {
    BuildMessage(h, SaInitChain(sa, group, public, nonce, extra))
  }

  predicate NotifyFits(n: Notify) {
    |n.spi| < 0x100 && FrameFits(NotifyBytes(n))
  }

  /** Every part of the message fits its length field. */
  predicate SaInitFits(sa: SecurityAssociation, public: Bytes, nonce: Bytes, extra: seq<Notify>) {
    && SaFits(sa) && FrameFits(SaBytes(sa)) && |public| <= 256 && FrameFits(nonce)
    && forall i :: 0 <= i < |extra| ==> NotifyFits(extra[i])
  }

  function SeeNotifies(seen: Seen, ns: seq<Notify>): Seen
    decreases |ns|
  {
    if ns == [] then seen else SeeNotifies(SeeNotify(seen, NotifyBytes(ns[0])), ns[1..])
  }

  lemma {:induction false} SeeNotifyPayloads(seen: Seen, ns: seq<Notify>)
    ensures SeeAll(seen, Raw(NotifyPayloads(ns))) == Ok(SeeNotifies(seen, ns))
    decreases |ns|
  {
    hide SeeNotify;
    if ns != [] {
      var items := Raw(NotifyPayloads(ns));
      assert items[1..] == Raw(NotifyPayloads(ns[1..]));
      SeeNotifyPayloads(SeeNotify(seen, NotifyBytes(ns[0])), ns[1..]);
    }
  }

  lemma SeeSighash(seen: Seen)
    ensures SeeNotify(seen, NotifyBytes(SighashNotify())) == seen.(signatureHashes := [SHA2_256])
  {
    NotifyRoundTrip(SighashNotify());
    var d := U16Bytes(SHA2_256);
    assert |d[2..]| == 0;
    assert SignatureHashes(d) == [SHA2_256];
  }

  function SeenCore(sa: SecurityAssociation, group: U16, public: Bytes, nonce: Bytes): Seen {
    Seen(Some(sa), Some(KeyExchange(group, public)), Some(nonce), [SHA2_256], None)
  }

  lemma SeeChain(sa: SecurityAssociation, group: U16, public: Bytes, nonce: Bytes, extra: seq<Notify>)
    requires SaFits(sa)
    ensures SeeAll(NOTHING_SEEN, Raw(SaInitChain(sa, group, public, nonce, extra)))
         == Ok(SeeNotifies(SeenCore(sa, group, public, nonce), extra))
  {
    hide SeeNotify, ParseSa, ParseKe, SaBytes, KeBytes, SaFits, SeeNotifies;
    var items := Raw(SaInitChain(sa, group, public, nonce, extra));
    SaRoundTrip(sa);
    var s1 := NOTHING_SEEN.(sa := Some(sa));
    assert See(NOTHING_SEEN, items[0]) == Ok(s1);
    var s2 := s1.(ke := Some(KeyExchange(group, public)));
    assert See(s1, items[1]) == Ok(s2);
    var s3 := s2.(nonce := Some(nonce));
    assert See(s2, items[2]) == Ok(s3);
    SeeSighash(s3);
    var s4 := SeenCore(sa, group, public, nonce);
    assert See(s3, items[3]) == Ok(s4);
    SeeNotifyPayloads(s4, extra);
    SeeFour(items, NOTHING_SEEN, s1, s2, s3, s4);
    assert items[4..] == Raw(NotifyPayloads(extra));
  }

  lemma SeeFour(items: seq<RawPayload>, s0: Seen, s1: Seen, s2: Seen, s3: Seen, s4: Seen)
    requires |items| >= 4
    requires See(s0, items[0]) == Ok(s1) && See(s1, items[1]) == Ok(s2)
    requires See(s2, items[2]) == Ok(s3) && See(s3, items[3]) == Ok(s4)
    ensures SeeAll(s0, items) == SeeAll(s4, items[4..])
  {
    hide See;
    assert items[1..][0] == items[1] && items[1..][1..] == items[2..];
    assert items[2..][0] == items[2] && items[2..][1..] == items[3..];
    assert items[3..][0] == items[3] && items[3..][1..] == items[4..];
    assert SeeAll(s0, items) == SeeAll(s1, items[1..]);
    assert SeeAll(s1, items[1..]) == SeeAll(s2, items[2..]);
    assert SeeAll(s2, items[2..]) == SeeAll(s3, items[3..]);
  }

  /** What the peer reads from a built message: the header and every payload. */
  lemma SaInitReads(h: IkeHeader, sa: SecurityAssociation, group: U16, public: Bytes, nonce: Bytes, extra: seq<Notify>)
    requires CanonicalHeader(h) && SaInitFits(sa, public, nonce, extra)
    ensures var m := BuildSaInit(h, sa, group, public, nonce, extra);
      && |m| >= HEADER_LEN
      && ParseHeader(m) == Ok(h.(nextPayload := PtSa, length := AsU32(|m|)))
      && ParseSaInit(ParseHeader(m).value, m[HEADER_LEN..])
         == Complete(SeeNotifies(SeenCore(sa, group, public, nonce), extra))
  {
    hide Walk, ParseHeader, BuildMessage, SeeAll, SeeNotifies, SaBytes, KeBytes, ChainSize, Complete, CanonicalHeader,
         NotifyBytes, SaFits;
    var ps := SaInitChain(sa, group, public, nonce, extra);
    forall i | 0 <= i < |ps| ensures PayloadOk(ps[i]) {
      if i >= 4 {
        assert ps[i] == Payload(PtNotify, NotifyBytes(extra[i - 4]));
        assert NotifyFits(extra[i - 4]);
      }
    }
    MessageRoundTrip(h, ps);
    SeeChain(sa, group, public, nonce, extra);
  }

  // ----- the initiator's request -----

  function FirstDh(ts: seq<Transform>): Option<U16> {
    if ts == [] then None else if ts[0].ttype == DH then Some(ts[0].tid) else FirstDh(ts[1..])
  }

  /** The group our own offer advertises first, X25519 when it names none we know. */
  function OfferDhGroup(offer: SecurityAssociation): DhGroup {
    if offer.proposals == [] then GroupX25519
    else match FirstDh(offer.proposals[0].transforms)
      case None => GroupX25519
      case Some(id) => match GroupFromId(id)
        case Some(g) => g
        case None => GroupX25519
  }

  lemma {:induction false} FirstDhAt(ts: seq<Transform>, k: nat)
    requires k <= |ts| && forall j :: 0 <= j < k ==> ts[j].ttype != DH
    ensures k == |ts| ==> FirstDh(ts) == None
    ensures k < |ts| && ts[k].ttype == DH ==> FirstDh(ts) == Some(ts[k].tid)
  {
    if k > 0 {
      FirstDhAt(ts[1..], k - 1);
    }
  }

  /**
   The group of the first request: with the first `k` transforms of the first proposal of other types, it is
   the group that transform `k` names, and X25519 when there is none or it is not one of the library's.
   */
  lemma OfferDhGroupExactly(offer: SecurityAssociation, k: nat)
    requires offer.proposals != [] ==>
      var ts := offer.proposals[0].transforms;
      k <= |ts| && (k < |ts| ==> ts[k].ttype == 4) && forall j :: 0 <= j < k ==> ts[j].ttype != 4
    ensures var named := offer.proposals != [] && k < |offer.proposals[0].transforms|;
      OfferDhGroup(offer) ==
        if named && offer.proposals[0].transforms[k].tid == 14 then Modp2048
        else if named && offer.proposals[0].transforms[k].tid == 2 then Modp1024
        else GroupX25519
  {
    hide FirstDh;
    if offer.proposals != [] {
      FirstDhAt(offer.proposals[0].transforms, k);
    }
  }

  function InitiatorRequest(c: Crypto, local: LocalSecret, offer: SecurityAssociation): Bytes {
    var g := OfferDhGroup(offer);
    BuildSaInit(BaseHeader(local.spi, 0, Flags(true, false, false)), offer, GroupId(g), Public(c, g, local.dhPrivate),
                local.nonce, [])
  }

  // ----- the responder -----

  datatype Endpoint = Endpoint(ip: Bytes, port: U16)
  datatype CookiePolicy = CookiePolicy(secret: Bytes, peer: Bytes, required: bool)

  datatype SaInitResult =
    | Established(response: Bytes, sa: CompletedSaInit)
    | InvalidKe(response: Bytes, group: U16)
    | CookieRequired(response: Bytes)

  function IkeCookie(c: Crypto, secret: Bytes, spiI: U64, ni: Bytes, peer: Bytes): (cookie: Bytes)
    ensures |cookie| == 32
  {
    c.sha256(secret + U64Bytes(spiI) + ni + peer)
  }

  function NatHash(c: Crypto, spiI: U64, spiR: U64, e: Endpoint): (hash: Bytes)
    ensures |hash| == 20
  {
    c.sha1(U64Bytes(spiI) + U64Bytes(spiR) + e.ip + U16Bytes(e.port))
  }

  const RESPONSE_FLAGS: Flags := Flags(false, false, true)

  /** A bare response with one notify: a COOKIE challenge or INVALID_KE_PAYLOAD. */
  function NotifyResponse(spiI: U64, n: Notify): Bytes {
    BuildMessage(BaseHeader(spiI, 0, RESPONSE_FLAGS), [Payload(PtNotify, NotifyBytes(n))])
  }

  /** The cookie to demand, when the policy demands one and the request does not carry it. */
  function CookieDemand(c: Crypto, policy: Option<CookiePolicy>, spiI: U64, ps: SaInitPayloads): Option<Bytes> {
    match policy
    case None => None
    case Some(pol) =>
      if !pol.required then None
      else
        var expected := IkeCookie(c, pol.secret, spiI, ps.nonce, pol.peer);
        if ps.cookie == Some(expected) then None else Some(expected)
  }

  function NatNotifies(c: Crypto, natt: Option<(Endpoint, Endpoint)>, spiI: U64, spiR: U64): seq<Notify> {
    match natt
    case None => []
    case Some((ours, peers)) =>
      [Status(NAT_DETECTION_SOURCE_IP, NatHash(c, spiI, spiR, ours)),
       Status(NAT_DETECTION_DESTINATION_IP, NatHash(c, spiI, spiR, peers))]
  }

  /** The peer's public value, checked against the negotiated group. */
  function DhPeer(ke: KeyExchange, g: DhGroup): Result<Bytes> {
    if ke.dhGroup != GroupId(g) then Err(DhGroupMismatch(GroupId(g), ke.dhGroup))
    else if |ke.data| != PublicLen(g) then Err(BadKeyExchange(ke.dhGroup, |ke.data|))
    else Ok(ke.data)
  }

  /** The last part of the responder, once a suite is chosen and the key exchange is for its group. */
  function Establish(c: Crypto, request: Bytes, spiI: U64, ps: SaInitPayloads, suite: ChosenSuite, g: DhGroup,
                     local: LocalSecret, natt: Option<(Endpoint, Endpoint)>): Result<SaInitResult> {
    var peerPublic :- DhPeer(ps.ke, g);
    var shared :- Shared(c, g, local.dhPrivate, peerPublic);
    var keys := DeriveSessionKeys(c, shared, ps.nonce, local.nonce, spiI, local.spi, KeyLengthsOf(suite));
    var response := BuildSaInit(BaseHeader(spiI, local.spi, RESPONSE_FLAGS), SecurityAssociation([ToProposal(suite)]),
                                suite.dhId, Public(c, g, local.dhPrivate), local.nonce,
                                NatNotifies(c, natt, spiI, local.spi));
    Ok(Established(response,
      CompletedSaInit(Responder, spiI, local.spi, suite, keys, ps.nonce, local.nonce, request, response,
                      ps.signatureHashes)))
  }

  /** The responder after parsing: cookie gate, selection, group check, key derivation. */
  function Answer(c: Crypto, request: Bytes, spiI: U64, ps: SaInitPayloads, local: LocalSecret,
                  natt: Option<(Endpoint, Endpoint)>, policy: Option<CookiePolicy>): Result<SaInitResult> {
    var demand := CookieDemand(c, policy, spiI, ps);
    if demand.Some? then Ok(CookieRequired(NotifyResponse(spiI, Status(COOKIE, demand.value))))
    else
      var suite :- OkOr(Select(ps.sa), NoProposalChosen);
      var g :- OkOr(GroupFromId(suite.dhId), NoProposalChosen);
      if ps.ke.dhGroup != GroupId(g) then
        if natt.Some? then
          Ok(InvalidKe(NotifyResponse(spiI, Status(INVALID_KE_PAYLOAD, U16Bytes(GroupId(g)))), GroupId(g)))
        else Err(DhGroupMismatch(GroupId(g), ps.ke.dhGroup))
      else Establish(c, request, spiI, ps, suite, g, local, natt)
  }

  function Respond(c: Crypto, request: Bytes, local: LocalSecret,
                   natt: Option<(Endpoint, Endpoint)>, policy: Option<CookiePolicy>): Result<SaInitResult> {
    var h :- ParseHeader(request);
    var ps :- ParseSaInit(h, request[HEADER_LEN..]);
    Answer(c, request, h.initiatorSpi, ps, local, natt, policy)
  }

  // ----- the initiator's completion -----

  function FinishInitiator(c: Crypto, local: LocalSecret, request: Bytes, response: Bytes, spiR: U64,
                           ps: SaInitPayloads): Result<CompletedSaInit> {
    var suite :- OkOr(Select(ps.sa), NoProposalChosen);
    var g :- OkOr(GroupFromId(suite.dhId), NoProposalChosen);
    var peerPublic :- DhPeer(ps.ke, g);
    var shared :- Shared(c, g, local.dhPrivate, peerPublic);
    var keys := DeriveSessionKeys(c, shared, local.nonce, ps.nonce, local.spi, spiR, KeyLengthsOf(suite));
    Ok(CompletedSaInit(Initiator, local.spi, spiR, suite, keys, local.nonce, ps.nonce, request, response,
                       ps.signatureHashes))
  }

  function InitiatorComplete(c: Crypto, local: LocalSecret, request: Bytes, response: Bytes): Result<CompletedSaInit> {
    var h :- ParseHeader(response);
    var ps :- ParseSaInit(h, response[HEADER_LEN..]);
    FinishInitiator(c, local, request, response, h.responderSpi, ps)
  }
}
