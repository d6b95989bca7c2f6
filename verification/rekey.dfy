/**
 CHILD SA rekey by `CREATE_CHILD_SA` (src/ikev2/rekey.rs), started by either end
 of the IKE SA.
 */
module Rekey {
  import opened Common
  import opened Primitives
  import opened Message
  import opened Sk
  import opened PayloadBodies
  import opened SaInit
  import opened EspTunnel
  import opened IkeAuthAgreement
  import KeySchedule

  function OurSkE(sa: CompletedSaInit): Bytes {
    if sa.role.Initiator? then sa.keys.skEi else sa.keys.skEr
  }

  function PeerSkE(sa: CompletedSaInit): Bytes {
    if sa.role.Initiator? then sa.keys.skEr else sa.keys.skEi
  }

  function CreateChildHeader(sa: CompletedSaInit, messageId: U32, isResponse: bool): IkeHeader {
    IkeHeader(sa.spiI, sa.spiR, PtNone, 2, 0, ExCreateChild, Flags(sa.role.Initiator?, false, isResponse), messageId, 0)
  }

  function FindSaAndNonce(w: Walked): Result<(Bytes, Bytes)> {
    if w.error.Some? then Err(w.error.value)
    else
      var sa :- OkOr(FindLast(w.items, PtSa), MissingPayload(MissSa));
      var nonce :- OkOr(FindLast(w.items, PtNonce), MissingPayload(MissNonce));
      Ok((sa, nonce))
  }

  /** The source's loop, which keeps overwriting its two locals. */
  method FindSaAndNonceLoop(first: PayloadType, inner: Bytes) returns (r: Result<(Bytes, Bytes)>)
    ensures r == FindSaAndNonce(Walk(first, inner))
  {
    hide Walk;
    var iter := new PayloadIter(first, inner);
    var sa, nonce := None, None;
    ghost var all, seen := Walk(first, inner), [];
    while true
      invariant all.items == seen + iter.Remaining().items && all.error == iter.Remaining().error
      invariant sa == FindLast(seen, PtSa) && nonce == FindLast(seen, PtNonce)
      decreases |iter.rest|
    {
      var item := iter.Next();
      match item {
        case None =>
          assert seen + [] == seen;
          if sa.None? {
            return Err(MissingPayload(MissSa));
          }
          if nonce.None? {
            return Err(MissingPayload(MissNonce));
          }
          return Ok((sa.value, nonce.value));
        case Some(Err(e)) =>
          return Err(e);
        case Some(Ok(p)) =>
          match p.ptype {
            case PtSa => sa := Some(p.data);
            case PtNonce => nonce := Some(p.data);
            case _ =>
          }
          assert (seen + [p])[..|seen|] == seen;
          assert seen + ([p] + iter.Remaining().items) == seen + [p] + iter.Remaining().items;
          seen := seen + [p];
      }
    }
  }

  /** N(REKEY_SA), SA, Ni, TSi, TSr. */
  function RekeyRequestChain(rekeyedSpi: U32, newSpi: U32, ni: Bytes): seq<Payload> {
    [Payload(PtNotify, NotifyBytes(Notify(PROTO_ESP, U32Bytes(rekeyedSpi), REKEY_SA, [])))]
    + RekeyResponseChain(newSpi, ni, FullTunnelTs(), FullTunnelTs())
  }

  function BuildRekeyRequest(c: Crypto, sa: CompletedSaInit, messageId: U32, rekeyedSpi: U32, newSpi: U32, ni: Bytes,
                             iv: Iv): Result<Bytes> {
    SealChain(c, CreateChildHeader(sa, messageId, false), RekeyRequestChain(rekeyedSpi, newSpi, ni), OurSkE(sa), iv)
  }

  /** The selectors of the response: the assigned host and the full tunnel, or an echo of what was asked. */
  function ResponseTsi(items: seq<RawPayload>, assignedIp: Option<Ipv4>): Bytes {
    match assignedIp
    case Some(ip) => HostTs(ip)
    case None => match FindLast(items, PtTsi)
      case Some(ts) => ts
      case None => FullTunnelTs()
  }

  function ResponseTsr(items: seq<RawPayload>, assignedIp: Option<Ipv4>): Bytes {
    if assignedIp.Some? then FullTunnelTs()
    else match FindLast(items, PtTsr)
      case Some(ts) => ts
      case None => FullTunnelTs()
  }

  function RekeyResponseChain(newSpi: U32, nr: Bytes, tsi: Bytes, tsr: Bytes): seq<Payload> {
    [Payload(PtSa, SaBytes(EspOffer(newSpi))), Payload(PtNonce, nr), Payload(PtTsi, tsi), Payload(PtTsr, tsr)]
  }

  function ResponderProcessRekey(c: Crypto, sa: CompletedSaInit, request: Bytes, newSpi: U32, nr: Bytes, iv: Iv,
                                 assignedIp: Option<Ipv4>): Result<(Bytes, ChildSa)> {
    var h :- ParseHeader(request);
    var w :- OpenWalk(c, request, PeerSkE(sa));
    var (saBytes, ni) :- FindSaAndNonce(w);
    var peerSpi :- SpiByParsing(saBytes);
    var child := DeriveChild(c, sa.keys.skD, ni, nr, Responder, newSpi, peerSpi);
    var chain := RekeyResponseChain(newSpi, nr, ResponseTsi(w.items, assignedIp), ResponseTsr(w.items, assignedIp));
    var response :- SealChain(c, CreateChildHeader(sa, h.messageId, true), chain, OurSkE(sa), iv);
    Ok((response, child))
  }

  function InitiatorCompleteRekey(c: Crypto, sa: CompletedSaInit, ni: Bytes, newSpi: U32,
                                  response: Bytes): Result<ChildSa> {
    var w :- OpenWalk(c, response, PeerSkE(sa));
    var (saBytes, nr) :- FindSaAndNonce(w);
    var peerSpi :- SpiByParsing(saBytes);
    Ok(DeriveChild(c, sa.keys.skD, ni, nr, Initiator, newSpi, peerSpi))
  }

  // ----- agreement -----

  /** The two ends of one IKE SA, in either order. */
  predicate Ends(a: CompletedSaInit, b: CompletedSaInit) {
    Agreed(a, b) || Agreed(b, a)
  }

  /** A REKEY_SA notify that names the given ESP SPI. */
  predicate RekeysSpi(items: seq<RawPayload>, spi: U32) {
    var n := FindLast(items, PtNotify);
    n.Some? && ParseNotify(n.value) == Ok(Notify(PROTO_ESP, U32Bytes(spi), REKEY_SA, []))
  }

  lemma RequestFound(rekeyedSpi: U32, newSpi: U32, ni: Bytes)
    ensures var items := Raw(RekeyRequestChain(rekeyedSpi, newSpi, ni));
      && RekeysSpi(items, rekeyedSpi)
      && FindSaAndNonce(Walked(items, None)) == Ok((SaBytes(EspOffer(newSpi)), ni))
      && FindLast(items, PtTsi) == Some(FullTunnelTs()) && FindLast(items, PtTsr) == Some(FullTunnelTs())
  {
    hide FindLast, SaBytes, EspOffer, NotifyBytes, ParseNotify, FullTunnelTs;
    var items := Raw(RekeyRequestChain(rekeyedSpi, newSpi, ni));
    NotifyRoundTrip(Notify(PROTO_ESP, U32Bytes(rekeyedSpi), REKEY_SA, []));
    FindLastAt(items, PtNotify, 0);
    FindLastAt(items, PtSa, 1);
    FindLastAt(items, PtNonce, 2);
    FindLastAt(items, PtTsi, 3);
    FindLastAt(items, PtTsr, 4);
  }

  lemma ResponseFound(newSpi: U32, nr: Bytes, tsi: Bytes, tsr: Bytes)
    ensures var items := Raw(RekeyResponseChain(newSpi, nr, tsi, tsr));
      && FindSaAndNonce(Walked(items, None)) == Ok((SaBytes(EspOffer(newSpi)), nr))
      && FindLast(items, PtTsi) == Some(tsi) && FindLast(items, PtTsr) == Some(tsr)
  {
    hide FindLast, SaBytes, EspOffer;
    var items := Raw(RekeyResponseChain(newSpi, nr, tsi, tsr));
    FindLastAt(items, PtSa, 0);
    FindLastAt(items, PtNonce, 1);
    FindLastAt(items, PtTsi, 2);
    FindLastAt(items, PtTsr, 3);
  }

  /** Which selectors are answered: the assignment decides when there is one, and otherwise what was asked last. */
  lemma SelectorsAnswered(items: seq<RawPayload>, assignedIp: Option<Ipv4>)
    ensures assignedIp.Some? ==>
      ResponseTsi(items, assignedIp) == HostTs(assignedIp.value) && ResponseTsr(items, assignedIp) == FullTunnelTs()
    ensures assignedIp.None? && FindLast(items, PtTsi).Some? ==>
      FindLast(items, PtTsi) == Some(ResponseTsi(items, None))
    ensures assignedIp.None? && FindLast(items, PtTsr).Some? ==>
      FindLast(items, PtTsr) == Some(ResponseTsr(items, None))
  {
    hide HostTs, FullTunnelTs, FindLast;
  }

  /** The nonce leaves room for the other payloads of a request. */
  predicate NonceFits(ni: Bytes) {
    |ni| + 129 < 0x1_0000
  }

  predicate ResponseFits(nr: Bytes, tsi: Bytes, tsr: Bytes) {
    |nr| + |tsi| + |tsr| + 77 < 0x1_0000
  }

  lemma RequestSealable(rekeyedSpi: U32, newSpi: U32, ni: Bytes)
    requires NonceFits(ni)
    ensures Sealable(RekeyRequestChain(rekeyedSpi, newSpi, ni))
  {
    hide SaBytes, EspOffer, FullTunnelTs, NotifyBytes, ChainSize;
    var rest := RekeyResponseChain(newSpi, ni, FullTunnelTs(), FullTunnelTs());
    TsLengths([0, 0, 0, 0]);
    EspOfferReads(newSpi);
    Size4(rest[0], rest[1], rest[2], rest[3]);
    SizeCons(RekeyRequestChain(rekeyedSpi, newSpi, ni)[0], rest);
  }

  lemma ResponseSealable(newSpi: U32, nr: Bytes, tsi: Bytes, tsr: Bytes)
    requires ResponseFits(nr, tsi, tsr)
    ensures Sealable(RekeyResponseChain(newSpi, nr, tsi, tsr))
  {
    hide SaBytes, EspOffer, ChainSize;
    var ps := RekeyResponseChain(newSpi, nr, tsi, tsr);
    EspOfferReads(newSpi);
    Size4(ps[0], ps[1], ps[2], ps[3]);
  }

  /** The header of both messages: the two SPIs, the role of the sender, the Message ID and the direction. */
  lemma RekeyHeaders(c: Crypto, sa: CompletedSaInit, messageId: U32, isResponse: bool, ps: seq<Payload>, iv: Iv)
    requires |OurSkE(sa)| == 36 && Sealable(ps)
    ensures var m := SealChain(c, CreateChildHeader(sa, messageId, isResponse), ps, OurSkE(sa), iv);
      && m.Ok? && ParseHeader(m.value).Ok?
      && var h := ParseHeader(m.value).value;
      && h.initiatorSpi == sa.spiI && h.responderSpi == sa.spiR && h.exchange == ExCreateChild
      && h.messageId == messageId && h.flags == Flags(sa.role == Initiator, false, isResponse)
      && h.major == 2 && h.minor == 0
  {
    hide SealChain, ParseHeader, OpenWalk, Sealable, EncodeChain;
    SealOpen(c, CreateChildHeader(sa, messageId, isResponse), ps, OurSkE(sa), iv);
  }

  /**
   What the other end answers to any request it can process: the echoed Message ID, its offer, its
   nonce and the selectors.
   */
  lemma ResponseReads(c: Crypto, a: CompletedSaInit, b: CompletedSaInit, request: Bytes, newSpi: U32, nr: Bytes, iv: Iv,
                      assignedIp: Option<Ipv4>)
    requires Ends(a, b)
    requires ResponderProcessRekey(c, b, request, newSpi, nr, iv, assignedIp).Ok?
    requires var items := OpenWalk(c, request, PeerSkE(b)).value.items;
      ResponseFits(nr, ResponseTsi(items, assignedIp), ResponseTsr(items, assignedIp))
    ensures var items := OpenWalk(c, request, PeerSkE(b)).value.items;
      var response := ResponderProcessRekey(c, b, request, newSpi, nr, iv, assignedIp).value.0;
      && ParseHeader(response).Ok? && ParseHeader(response).value.messageId == ParseHeader(request).value.messageId
      && OpenWalk(c, response, PeerSkE(a))
         == Ok(Walked(Raw(RekeyResponseChain(newSpi, nr, ResponseTsi(items, assignedIp),
                                             ResponseTsr(items, assignedIp))), None))
  {
    hide SealChain, OpenWalk, ParseHeader, FindSaAndNonce, SpiByParsing, DeriveChild, RekeyResponseChain, ResponseTsi,
         ResponseTsr, Sealable;
    var items := OpenWalk(c, request, PeerSkE(b)).value.items;
    var tsi, tsr := ResponseTsi(items, assignedIp), ResponseTsr(items, assignedIp);
    ResponseSealable(newSpi, nr, tsi, tsr);
    SealOpen(c, CreateChildHeader(b, ParseHeader(request).value.messageId, true),
             RekeyResponseChain(newSpi, nr, tsi, tsr), OurSkE(b), iv);
  }

  lemma RequestProcessed(c: Crypto, a: CompletedSaInit, b: CompletedSaInit, messageId: U32, rekeyedSpi: U32, spiA: U32,
                         spiB: U32, ni: Bytes, nr: Bytes, ivA: Iv, ivB: Iv, assignedIp: Option<Ipv4>)
    requires Ends(a, b) && NonceFits(ni) && ResponseFits(nr, FullTunnelTs(), FullTunnelTs())
    ensures var request := BuildRekeyRequest(c, a, messageId, rekeyedSpi, spiA, ni, ivA);
      && request.Ok?
      && ParseHeader(request.value).Ok? && ParseHeader(request.value).value.messageId == messageId
      && OpenWalk(c, request.value, PeerSkE(b)) == Ok(Walked(Raw(RekeyRequestChain(rekeyedSpi, spiA, ni)), None))
      && var processed := ResponderProcessRekey(c, b, request.value, spiB, nr, ivB, assignedIp);
      && processed.Ok? && processed.value.1 == DeriveChild(c, b.keys.skD, ni, nr, Responder, spiB, spiA)
  {
    hide SealChain, OpenWalk, ParseHeader, FindSaAndNonce, SpiByParsing, DeriveChild, RekeyResponseChain,
         RekeyRequestChain, Sealable, FindLast, FullTunnelTs, HostTs;
    RequestSealable(rekeyedSpi, spiA, ni);
    SealOpen(c, CreateChildHeader(a, messageId, false), RekeyRequestChain(rekeyedSpi, spiA, ni), OurSkE(a), ivA);
    RequestFound(rekeyedSpi, spiA, ni);
    EspOfferReads(spiA);
    var items := Raw(RekeyRequestChain(rekeyedSpi, spiA, ni));
    var tsi, tsr := ResponseTsi(items, assignedIp), ResponseTsr(items, assignedIp);
    TsLengths(if assignedIp.Some? then assignedIp.value else [0, 0, 0, 0]);
    ResponseSealable(spiB, nr, tsi, tsr);
    SealOpen(c, CreateChildHeader(b, messageId, true), RekeyResponseChain(spiB, nr, tsi, tsr), OurSkE(b), ivB);
  }

  /**
   Rekey agreement, whichever end of the IKE SA starts it: the request is processed,
   the response completes, both ends derive mirrored ESP SAs on the new SPIs, the
   Message ID is echoed, the end that started sends under the first half of the new
   stream, the request names the SPI it replaces, and the TSi of the response is the assigned host when there
   is one and the initiator's own octets otherwise.
   */
  lemma RekeyAgreement(c: Crypto, a: CompletedSaInit, b: CompletedSaInit, messageId: U32, rekeyedSpi: U32, spiA: U32,
                       spiB: U32, ni: Bytes, nr: Bytes, ivA: Iv, ivB: Iv, assignedIp: Option<Ipv4>)
    requires Ends(a, b) && NonceFits(ni) && ResponseFits(nr, FullTunnelTs(), FullTunnelTs())
    ensures var request := BuildRekeyRequest(c, a, messageId, rekeyedSpi, spiA, ni, ivA);
      && request.Ok?
      && var asked := OpenWalk(c, request.value, PeerSkE(b));
      && asked.Ok? && RekeysSpi(asked.value.items, rekeyedSpi)
      && var processed := ResponderProcessRekey(c, b, request.value, spiB, nr, ivB, assignedIp);
      && processed.Ok?
      && var completed := InitiatorCompleteRekey(c, a, ni, spiA, processed.value.0);
      && completed.Ok? && Paired(completed.value, processed.value.1)
      && completed.value.outbound.spi == spiB && completed.value.inbound.spi == spiA
      && var km := KeySchedule.PrfPlus(c, a.keys.skD, ni + nr, 72);
      && Material(completed.value.outbound) == km[..36] && Material(completed.value.inbound) == km[36..]
      && ParseHeader(processed.value.0).Ok? && ParseHeader(processed.value.0).value.messageId == messageId
      && var answer := OpenWalk(c, processed.value.0, PeerSkE(a));
      && answer.Ok?
      && FindLast(answer.value.items, PtTsi)
          == Some(if assignedIp.Some? then HostTs(assignedIp.value) else FullTunnelTs())
      && FindLast(answer.value.items, PtTsr) == Some(FullTunnelTs())
  {
    hide SealChain, OpenWalk, ParseHeader, FindSaAndNonce, SpiByParsing, DeriveChild, RekeyResponseChain,
         RekeyRequestChain, Sealable, FindLast, FullTunnelTs, HostTs, BuildRekeyRequest, ResponderProcessRekey, Paired,
         RekeysSpi, KeySchedule.PrfPlus, Material;
    RequestProcessed(c, a, b, messageId, rekeyedSpi, spiA, spiB, ni, nr, ivA, ivB, assignedIp);
    var request := BuildRekeyRequest(c, a, messageId, rekeyedSpi, spiA, ni, ivA).value;
    var items := Raw(RekeyRequestChain(rekeyedSpi, spiA, ni));
    RequestFound(rekeyedSpi, spiA, ni);
    var tsi, tsr := ResponseTsi(items, assignedIp), ResponseTsr(items, assignedIp);
    TsLengths(if assignedIp.Some? then assignedIp.value else [0, 0, 0, 0]);
    ResponseReads(c, a, b, request, spiB, nr, ivB, assignedIp);
    ResponseFound(spiB, nr, tsi, tsr);
    EspOfferReads(spiB);
    ChildrenPair(c, a.keys.skD, ni, nr, spiA, spiB);
  }
}
