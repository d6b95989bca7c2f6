/**
 IKEv1 Quick Mode (src/ikev1/quick.rs), both roles, and its agreement over a shared
 Phase 1 state.
 */
module Quick {
  import opened Common
  import opened Primitives
  import opened Framing
  import opened Isakmp
  import opened Payloads1
  import opened Crypto1
  import opened Phase1
  import opened Phase2
  import opened EspTunnel
  import Dh

  const ESP_KEYMAT_LEN: nat := 36
  const ESP_AES_GCM_16: Byte := 20
  const ESP_LIFE_TYPE: U16 := 1
  const ESP_LIFE_DURATION: U16 := 2
  const ESP_ENCAP_MODE: U16 := 4
  const ESP_KEY_LENGTH: U16 := 6

  type Address = b: Bytes | |b| == 4 witness [0, 0, 0, 0]

  function QuickHeader(ckyI: Cookie, ckyR: Cookie, msgId: U32): IsakmpHeader {
    IsakmpHeader(ckyI, ckyR, P_NONE, VERSION_1_0, EX_QUICK, 0, msgId, 0)
  }

  function EspTransform(): Transform {
    Transform(1, ESP_AES_GCM_16,
      [Attribute(ESP_ENCAP_MODE, Short(1)), Attribute(ESP_LIFE_TYPE, Short(1)), LongU32(ESP_LIFE_DURATION, 3600),
       Attribute(ESP_KEY_LENGTH, Short(256))])
  }

  /** The ESP proposal that carries our inbound SPI. */
  function OfferSa(spi: U32): SaPayload {
    SaPayload(IPSEC_DOI, SIT_IDENTITY_ONLY, [Proposal(1, PROTO_ESP, U32Bytes(spi), [EspTransform()])])
  }

  function TsId(addr: Address, mask: Address): (b: Bytes)
    ensures |b| == 12 && ParseId(b) == Ok(Id(4, 0, 0, addr + mask))
  {
    IdBytes(Id(ID_IPV4_ADDR_SUBNET, 0, 0, addr + mask))
  }

  function PeerEspSpi(ps: seq<Payload>): Result<U32> {
    var saB :- OkOr(Find(ps, P_SA), MissingPayload(MissSa));
    var sa :- ParseSa(saB);
    if sa.proposals == [] || |sa.proposals[0].spi| != 4 then Err(NoProposalChosen)
    else Ok(GetU32(sa.proposals[0].spi, 0))
  }

  function Hash3(c: Crypto, prf: Prf, skeyidA: Bytes, msgId: U32, ni: Bytes, nr: Bytes): (h: Bytes)
    ensures |h| == prf.OutputLen()
  {
    prf.Mac(c, skeyidA, [0] + U32Bytes(msgId) + ni + nr)
  }

  /**
   One key per SPI: the receiving side's SPI enters the derivation. The length check of `NewEsp`
   cannot fail on 36 octets.
   */
  function DeriveChild(c: Crypto, prf: Prf, skeyidD: Bytes, ni: Bytes, nr: Bytes, localSpi: U32,
                       peerSpi: U32): ChildSa {
    var mine := Keymat(c, prf, skeyidD, PROTO_ESP, U32Bytes(localSpi), ni, nr, ESP_KEYMAT_LEN);
    var theirs := Keymat(c, prf, skeyidD, PROTO_ESP, U32Bytes(peerSpi), ni, nr, ESP_KEYMAT_LEN);
    ChildSa(NewEsp(peerSpi, theirs).value, NewEsp(localSpi, mine).value)
  }

  // ----- the initiator -----

  /** What one side draws; the responder ignores the Message ID. */
  datatype Draw = Draw(spi: U32, msgId: U32, nonce: Bytes)

  datatype Selectors = Selectors(localAddr: Address, localMask: Address, remoteAddr: Address, remoteMask: Address)

  datatype QuickInitiator = QuickInitiator(
    prf: Prf, skeyidA: Bytes, skeyidD: Bytes, encKey: Bytes, ckyI: Cookie, ckyR: Cookie,
    msgId: U32, localSpi: U32, ni: Bytes, iv1: Bytes)

  /** `| 1`: never zero. */
  function OddId(m: U32): (id: U32)
    ensures id != 0
  {
    if m % 2 == 1 then m else m + 1
  }

  function QuickOne(spi: U32, ni: Bytes, ts: Selectors): seq<Payload> {
    [Payload(P_SA, SaBytes(OfferSa(spi))), Payload(P_NONCE, ni),
     Payload(P_ID, TsId(ts.localAddr, ts.localMask)), Payload(P_ID, TsId(ts.remoteAddr, ts.remoteMask))]
  }

  function InitiateQuick(c: Crypto, st: Phase1State, d: Draw, ts: Selectors): Result<(Bytes, QuickInitiator)> {
    var msgId := OddId(d.msgId);
    var iv0 := Phase2Iv(c, st.prf, st.phase1Iv, msgId);
    var (m, iv1) :- BuildEncrypted(c, QuickHeader(st.ckyI, st.ckyR, msgId), st.prf, st.skeyidA, st.encKey, iv0,
                                   QuickOne(d.spi, d.nonce, ts));
    Ok((m, QuickInitiator(st.prf, st.skeyidA, st.skeyidD, st.encKey, st.ckyI, st.ckyR, msgId, d.spi, d.nonce, iv1)))
  }

  function InitiatorComplete(c: Crypto, q: QuickInitiator, msg2: Bytes): Result<(Bytes, ChildSa)> {
    var o :- DecryptPayloads(c, msg2, q.encKey, q.iv1);
    var nr :- OkOr(Find(o.payloads, P_NONCE), MissingPayload(MissNonce));
    var peerSpi :- PeerEspSpi(o.payloads);
    var got :- OkOr(Find(o.payloads, P_HASH), MissingPayload(MissHash));
    if got != MessageHash(c, q.prf, q.skeyidA, q.msgId, q.ni, Without(o.payloads, P_HASH)) then Err(AuthFailed)
    else
      var h3 := Hash3(c, q.prf, q.skeyidA, q.msgId, q.ni, nr);
      var (m, _) :- EncryptPayloads(c, QuickHeader(q.ckyI, q.ckyR, q.msgId), q.encKey, o.nextIv, [Payload(P_HASH, h3)]);
      Ok((m, DeriveChild(c, q.prf, q.skeyidD, q.ni, nr, q.localSpi, peerSpi)))
  }

  // ----- the responder -----

  datatype QuickResponder = QuickResponder(
    prf: Prf, skeyidA: Bytes, skeyidD: Bytes, encKey: Bytes,
    msgId: U32, localSpi: U32, peerSpi: U32, ni: Bytes, nr: Bytes, iv2: Bytes)

  /** SA, Nr and an echo of the initiator's traffic selectors. */
  function QuickTwo(spi: U32, nr: Bytes, ids: seq<Payload>): seq<Payload> {
    [Payload(P_SA, SaBytes(OfferSa(spi))), Payload(P_NONCE, nr)] + ids
  }

  function RespondQuick(c: Crypto, st: Phase1State, msg1: Bytes, d: Draw): Result<(Bytes, QuickResponder)> {
    var hdr :- ParseHeader(msg1);
    if hdr.exchange != EX_QUICK then Err(CryptoError(NotQuick))
    else
      var iv0 := Phase2Iv(c, st.prf, st.phase1Iv, hdr.messageId);
      var o :- ParseEncrypted(c, msg1, st.prf, st.skeyidA, st.encKey, iv0);
      var ni :- OkOr(Find(o.payloads, P_NONCE), MissingPayload(MissNonce));
      var peerSpi :- PeerEspSpi(o.payloads);
      var (m, iv2) :- BuildEncryptedPrefixed(c, QuickHeader(st.ckyI, st.ckyR, hdr.messageId), st.prf, st.skeyidA,
                                             st.encKey, o.nextIv, ni,
                                             QuickTwo(d.spi, d.nonce, Only(o.payloads, P_ID)));
      Ok((m, QuickResponder(st.prf, st.skeyidA, st.skeyidD, st.encKey, hdr.messageId, d.spi, peerSpi, ni, d.nonce,
                            iv2)))
  }

  function ResponderComplete(c: Crypto, q: QuickResponder, msg3: Bytes): Result<ChildSa> {
    var o :- DecryptPayloads(c, msg3, q.encKey, q.iv2);
    var got :- OkOr(Find(o.payloads, P_HASH), MissingPayload(MissHash));
    if got != Hash3(c, q.prf, q.skeyidA, q.msgId, q.ni, q.nr) then Err(AuthFailed)
    else Ok(DeriveChild(c, q.prf, q.skeyidD, q.ni, q.nr, q.localSpi, q.peerSpi))
  }

  // ----- what acceptance rests on -----

  /**
   The message opens under the Phase 1 key and the IV of its Message ID, and its HASH is HASH(1) of
   section 5.5 of RFC 2409: the code of the Message ID and its other payloads under SKEYID_a.
   */
  predicate ProvesHash1(c: Crypto, st: Phase1State, msg1: Bytes) {
    var h := ParseHeader(msg1);
    && h.Ok?
    && var id := U32Bytes(h.value.messageId);
    var o := DecryptPayloads(c, msg1, st.encKey, st.prf.Hash(c, st.phase1Iv + id)[..16]);
    && o.Ok?
    && Find(o.value.payloads, P_HASH) == Some(st.prf.Mac(c, st.skeyidA, id + Encode(Without(o.value.payloads, P_HASH))))
  }

  /** The message opens under the chained IV, and its HASH is HASH(2), which covers our nonce as well. */
  predicate ProvesHash2(c: Crypto, q: QuickInitiator, msg2: Bytes) {
    var o := DecryptPayloads(c, msg2, q.encKey, q.iv1);
    && o.Ok?
    && Find(o.value.payloads, P_HASH)
       == Some(q.prf.Mac(c, q.skeyidA, U32Bytes(q.msgId) + q.ni + Encode(Without(o.value.payloads, P_HASH))))
  }

  /** The message opens under the chained IV, and its HASH is HASH(3) of the Message ID and both nonces. */
  predicate ProvesHash3(c: Crypto, q: QuickResponder, msg3: Bytes) {
    var o := DecryptPayloads(c, msg3, q.encKey, q.iv2);
    && o.Ok?
    && Find(o.value.payloads, P_HASH) == Some(q.prf.Mac(c, q.skeyidA, [0] + U32Bytes(q.msgId) + q.ni + q.nr))
  }

  /** The codes of the messages, written out. */
  lemma HashesAre(c: Crypto, prf: Prf, skeyidA: Bytes, id: U32, ni: Bytes, nr: Bytes, after: seq<Payload>)
    ensures MessageHash(c, prf, skeyidA, id, [], after) == prf.Mac(c, skeyidA, U32Bytes(id) + Encode(after))
    ensures MessageHash(c, prf, skeyidA, id, ni, after) == prf.Mac(c, skeyidA, U32Bytes(id) + ni + Encode(after))
    ensures Hash3(c, prf, skeyidA, id, ni, nr) == prf.Mac(c, skeyidA, [0] + U32Bytes(id) + ni + nr)
  {
    hide Encode, U32Bytes;
    assert U32Bytes(id) + [] == U32Bytes(id);
  }

  /**
   The responder answers a Quick Mode message exactly when it is one, proves HASH(1), carries a nonce and
   an ESP SPI, and the answer can be encrypted; the state it keeps has the keys of the Phase 1 state, the
   nonce and the SPI of the message, and its own.
   */
  lemma RespondQuickExactly(c: Crypto, st: Phase1State, msg1: Bytes, d: Draw)
    requires |st.encKey| == 32
    ensures var r := RespondQuick(c, st, msg1, d);
      && (r.Ok? <==>
            && ParseHeader(msg1).Ok? && ParseHeader(msg1).value.exchange == 32 && ProvesHash1(c, st, msg1)
            && var ps := Payloads1Of(c, st, msg1);
            && Find(ps, P_NONCE).Some? && PeerEspSpi(ps).Ok?)
      && (r.Ok? ==>
            var ps, q := Payloads1Of(c, st, msg1), r.value.1;
            && q.prf == st.prf && q.skeyidA == st.skeyidA && q.skeyidD == st.skeyidD && q.encKey == st.encKey
            && Some(q.ni) == Find(ps, P_NONCE) && Ok(q.peerSpi) == PeerEspSpi(ps)
            && q.localSpi == d.spi && q.nr == d.nonce && q.msgId == ParseHeader(msg1).value.messageId)
  {
    hide ParseHeader, DecryptPayloads, Find, Without, MessageHash, PeerEspSpi, EncryptPayloads, QuickTwo, Only, Encode,
         U32Bytes;
    if ParseHeader(msg1).Ok? {
      var id := ParseHeader(msg1).value.messageId;
      var iv := Phase2Iv(c, st.prf, st.phase1Iv, id);
      OpenedHeader(c, msg1, st.encKey, iv);
      OpenedIv(c, msg1, st.encKey, iv);
      var o := DecryptPayloads(c, msg1, st.encKey, iv);
      if o.Ok? {
        HashesAre(c, st.prf, st.skeyidA, id, [], [], Without(o.value.payloads, P_HASH));
        forall h, ps ensures EncryptPayloads(c, h, st.encKey, o.value.nextIv, ps).Ok? {
          Encrypts(c, h, st.encKey, o.value.nextIv, ps);
        }
      }
    }
  }

  /** The payloads of an opened message 1. */
  function Payloads1Of(c: Crypto, st: Phase1State, msg1: Bytes): seq<Payload> {
    match ParseHeader(msg1)
    case Err(_) => []
    case Ok(h) =>
      match DecryptPayloads(c, msg1, st.encKey, st.prf.Hash(c, st.phase1Iv + U32Bytes(h.messageId))[..16])
      case Err(_) => []
      case Ok(o) => o.payloads
  }

  lemma Encrypts(c: Crypto, h: IsakmpHeader, encKey: Bytes, iv: Bytes, ps: seq<Payload>)
    requires |encKey| == 32 && |iv| == 16
    ensures EncryptPayloads(c, h, encKey, iv, ps).Ok?
  {
    hide Encode, PadToBlock, HeaderBytes;
  }

  lemma OpenedIv(c: Crypto, m: Bytes, encKey: Bytes, iv: Bytes)
    ensures var o := DecryptPayloads(c, m, encKey, iv); o.Ok? ==> |o.value.nextIv| == 16 && |m| >= 44
    ensures var o := DecryptPayloads(c, m, encKey, iv); o.Ok? ==> o.value.nextIv == m[|m| - 16..]
  {
    hide ParsePayloads;
  }

  lemma RespondQuickRests(c: Crypto, st: Phase1State, msg1: Bytes, d: Draw)
    requires RespondQuick(c, st, msg1, d).Ok?
    ensures var q := RespondQuick(c, st, msg1, d).value.1;
      && ProvesHash1(c, st, msg1)
      && q.skeyidA == st.skeyidA && q.skeyidD == st.skeyidD && q.encKey == st.encKey && q.prf == st.prf
      && q.localSpi == d.spi && q.nr == d.nonce
  {
    hide ParseHeader, DecryptPayloads, Find, Without, MessageHash, PeerEspSpi, BuildEncryptedPrefixed,
         QuickTwo, Only, Encode, U32Bytes;
    var id := ParseHeader(msg1).value.messageId;
    var iv := Phase2Iv(c, st.prf, st.phase1Iv, id);
    OpenedHeader(c, msg1, st.encKey, iv);
    HashesAre(c, st.prf, st.skeyidA, id, [], [],
              Without(DecryptPayloads(c, msg1, st.encKey, iv).value.payloads, P_HASH));
  }

  /**
   The initiator completes exactly when message 2 proves HASH(2) and carries a nonce and an ESP SPI. The
   child is keyed by the two nonces and the SPIs, and message 3 carries HASH(3) under the next IV.
   */
  lemma InitiatorCompletesExactly(c: Crypto, q: QuickInitiator, msg2: Bytes)
    requires |q.encKey| == 32
    ensures var r := InitiatorComplete(c, q, msg2);
      var o := DecryptPayloads(c, msg2, q.encKey, q.iv1);
      && (r.Ok? <==>
            ProvesHash2(c, q, msg2) && Find(o.value.payloads, P_NONCE).Some? && PeerEspSpi(o.value.payloads).Ok?)
      && (r.Ok? ==>
            var nr, spi := Find(o.value.payloads, P_NONCE).value, PeerEspSpi(o.value.payloads).value;
            && r.value.1 == DeriveChild(c, q.prf, q.skeyidD, q.ni, nr, q.localSpi, spi)
            && var last := DecryptPayloads(c, r.value.0, q.encKey, o.value.nextIv);
            && last.Ok?
            && last.value.payloads
               == [Payload(P_HASH, q.prf.Mac(c, q.skeyidA, [0] + U32Bytes(q.msgId) + q.ni + nr))])
  {
    hide DecryptPayloads, Find, Without, MessageHash, PeerEspSpi, EncryptPayloads, Hash3, DeriveChild, Encode, U32Bytes,
         PadToBlock;
    var o := DecryptPayloads(c, msg2, q.encKey, q.iv1);
    if o.Ok? {
      OpenedIv(c, msg2, q.encKey, q.iv1);
      forall nr ensures var hash := Hash3(c, q.prf, q.skeyidA, q.msgId, q.ni, nr);
        && hash == q.prf.Mac(c, q.skeyidA, [0] + U32Bytes(q.msgId) + q.ni + nr)
        && EncryptPayloads(c, QuickHeader(q.ckyI, q.ckyR, q.msgId), q.encKey, o.value.nextIv,
                           [Payload(P_HASH, hash)]).Ok?
        && var m := EncryptPayloads(c, QuickHeader(q.ckyI, q.ckyR, q.msgId), q.encKey, o.value.nextIv,
                                    [Payload(P_HASH, hash)]).value.0;
        && DecryptPayloads(c, m, q.encKey, o.value.nextIv).Ok?
        && DecryptPayloads(c, m, q.encKey, o.value.nextIv).value.payloads == [Payload(P_HASH, hash)]
      {
        HashesAre(c, q.prf, q.skeyidA, q.msgId, q.ni, nr, Without(o.value.payloads, P_HASH));
        EncryptedRoundTrip(c, QuickHeader(q.ckyI, q.ckyR, q.msgId), q.encKey, o.value.nextIv,
                           [Payload(P_HASH, Hash3(c, q.prf, q.skeyidA, q.msgId, q.ni, nr))]);
      }
      HashesAre(c, q.prf, q.skeyidA, q.msgId, q.ni, [], Without(o.value.payloads, P_HASH));
    }
  }

  /** Which key goes with which SPI: each direction is keyed by the SPI of its receiver (section 5.5 of RFC 2409). */
  lemma ChildDirections(c: Crypto, prf: Prf, skeyidD: Bytes, ni: Bytes, nr: Bytes, localSpi: U32, peerSpi: U32)
    ensures var child := DeriveChild(c, prf, skeyidD, ni, nr, localSpi, peerSpi);
      var seedOut, seedIn := [3] + U32Bytes(peerSpi) + ni + nr, [3] + U32Bytes(localSpi) + ni + nr;
      && Material(child.outbound) == Expand(c, prf, skeyidD, seedOut, seedOut, 36)
      && Material(child.inbound) == Expand(c, prf, skeyidD, seedIn, seedIn, 36)
      && child.outbound.spi == peerSpi && child.inbound.spi == localSpi
  {
    hide Expand, U32Bytes;
  }

  lemma OpenedHeader(c: Crypto, m: Bytes, encKey: Bytes, iv: Bytes)
    ensures DecryptPayloads(c, m, encKey, iv).Ok? ==>
      ParseHeader(m) == Ok(DecryptPayloads(c, m, encKey, iv).value.header)
  {
    hide ParseHeader, CbcDecrypt, ParsePayloads;
  }

  /** Message 3 completes exactly when it proves HASH(3), and the child is then the derived one. */
  lemma CompleteExactly(c: Crypto, q: QuickResponder, msg3: Bytes)
    ensures ResponderComplete(c, q, msg3).Ok? <==> ProvesHash3(c, q, msg3)
    ensures ResponderComplete(c, q, msg3).Ok? ==>
      ResponderComplete(c, q, msg3).value == DeriveChild(c, q.prf, q.skeyidD, q.ni, q.nr, q.localSpi, q.peerSpi)
  {
    hide DecryptPayloads, Find, DeriveChild;
  }

  // ----- agreement -----

  lemma OfferReads(spi: U32)
    ensures |SaBytes(OfferSa(spi))| <= 100 && ParseSa(SaBytes(OfferSa(spi))) == Ok(OfferSa(spi))
    ensures OfferSa(spi) == SaPayload(1, 1, [Proposal(1, 3, U32Bytes(spi), [Transform(1, 20,
      [Attribute(4, Short(1)), Attribute(1, Short(1)), Attribute(2, Long(U32Bytes(3600))),
       Attribute(6, Short(256))])])])
  {
    hide SaBytes, ParseSa;
    SmallSa(IPSEC_DOI, SIT_IDENTITY_ONLY, PROTO_ESP, U32Bytes(spi), EspTransform());
  }

  /** In any list that starts with HASH, SA and a nonce, the three are found. */
  lemma LeadFound(hash: Bytes, spi: U32, nonce: Bytes, ids: seq<Payload>)
    ensures var ps := [Payload(P_HASH, hash)] + QuickTwo(spi, nonce, ids);
      Find(ps, P_HASH) == Some(hash) && Find(ps, P_NONCE) == Some(nonce) && PeerEspSpi(ps) == Ok(spi)
  {
    hide Find, SaBytes, ParseSa, OfferSa;
    var ps := [Payload(P_HASH, hash)] + QuickTwo(spi, nonce, ids);
    FindAt(ps, P_HASH, 0);
    FindAt(ps, P_SA, 1);
    FindAt(ps, P_NONCE, 2);
    OfferReads(spi);
    OfferSpi(spi);
  }

  lemma OfferSpi(spi: U32)
    ensures OfferSa(spi).proposals != [] && OfferSa(spi).proposals[0].spi == U32Bytes(spi)
  {
  }

  function IdsOf(ts: Selectors): seq<Payload> {
    [Payload(P_ID, TsId(ts.localAddr, ts.localMask)), Payload(P_ID, TsId(ts.remoteAddr, ts.remoteMask))]
  }

  /** The ID payloads of message 1 are exactly the selectors. */
  lemma IdsEchoed(hash: Bytes, spi: U32, nonce: Bytes, ts: Selectors)
    ensures Only([Payload(P_HASH, hash)] + QuickTwo(spi, nonce, IdsOf(ts)), P_ID) == IdsOf(ts)
  {
    hide SaBytes, TsId;
    var ps := [Payload(P_HASH, hash)] + QuickTwo(spi, nonce, IdsOf(ts));
    assert ps[1..][1..][1..] == IdsOf(ts);
    assert Only(ps, P_ID) == Only(ps[1..], P_ID) == Only(ps[1..][1..], P_ID) == Only(IdsOf(ts), P_ID);
    var i2 := IdsOf(ts)[1..];
    assert i2[1..] == [] && Only(i2[1..], P_ID) == [] && Only(i2, P_ID) == i2;
  }

  lemma QuickTwoOk(spi: U32, nonce: Bytes, ids: seq<Payload>)
    requires FrameFits(nonce) && ChainOk(ids) && NoHash(ids)
    ensures ChainOk(QuickTwo(spi, nonce, ids)) && NoHash(QuickTwo(spi, nonce, ids))
  {
    hide SaBytes, OfferSa;
    OfferReads(spi);
  }

  /** The two ESP SAs mirror each other: each side's outbound is the other's inbound. */
  lemma ChildrenMirror(c: Crypto, prf: Prf, skeyidD: Bytes, ni: Bytes, nr: Bytes, spiI: U32, spiR: U32)
    ensures Paired(DeriveChild(c, prf, skeyidD, ni, nr, spiI, spiR), DeriveChild(c, prf, skeyidD, ni, nr, spiR, spiI))
  {
    hide Keymat;
  }

  /** A Phase 1 state with usable keys. */
  predicate Keyed(st: Phase1State) {
    |st.encKey| == 32
  }

  /** Message 1: HASH(1) verifies, the IV chains agree, and the responder answers with the selectors echoed. */
  lemma FirstMessage(c: Crypto, st: Phase1State, di: Draw, dr: Draw, ts: Selectors)
    returns (m1: Bytes, qi: QuickInitiator, m2: Bytes, qr: QuickResponder)
    requires Keyed(st) && FrameFits(di.nonce) && FrameFits(dr.nonce)
    ensures InitiateQuick(c, st, di, ts) == Ok((m1, qi)) && |qi.iv1| == 16
    ensures qi == QuickInitiator(st.prf, st.skeyidA, st.skeyidD, st.encKey, st.ckyI, st.ckyR, OddId(di.msgId), di.spi,
                                 di.nonce, qi.iv1)
    ensures RespondQuick(c, st, m1, dr) == Ok((m2, qr)) && |qr.iv2| == 16
    ensures qr == QuickResponder(st.prf, st.skeyidA, st.skeyidD, st.encKey, qi.msgId, dr.spi, di.spi, di.nonce,
                                 dr.nonce, qr.iv2)
    ensures BuildEncryptedPrefixed(c, QuickHeader(st.ckyI, st.ckyR, qi.msgId), st.prf, st.skeyidA, st.encKey, qi.iv1,
                                   di.nonce,
                                   QuickTwo(dr.spi, dr.nonce, IdsOf(ts))) == Ok((m2, qr.iv2))
  {
    hide ParseHeader, BuildEncrypted, EncryptPayloads, ParseEncrypted, Find, Only, PeerEspSpi, QuickTwo, MessageHash,
         Phase2Iv, OddId, IdsOf;
    var id := OddId(di.msgId);
    var iv0 := Phase2Iv(c, st.prf, st.phase1Iv, id);
    var after := QuickTwo(di.spi, di.nonce, IdsOf(ts));
    SameOne(di.spi, di.nonce, ts);
    IdsOk(ts);
    QuickTwoOk(di.spi, di.nonce, IdsOf(ts));
    var h := QuickHeader(st.ckyI, st.ckyR, id);
    VerifiedRoundTrip(c, h, st.prf, st.skeyidA, st.encKey, iv0, after);
    var built := BuildEncrypted(c, h, st.prf, st.skeyidA, st.encKey, iv0, after).value;
    m1 := built.0;
    qi := InitiateQuick(c, st, di, ts).value.1;
    var hash := MessageHash(c, st.prf, st.skeyidA, id, [], after);
    LeadFound(hash, di.spi, di.nonce, IdsOf(ts));
    IdsEchoed(hash, di.spi, di.nonce, ts);
    QuickTwoOk(dr.spi, dr.nonce, IdsOf(ts));
    var reply := Hashed(c, st.prf, st.skeyidA, id, di.nonce, QuickTwo(dr.spi, dr.nonce, IdsOf(ts)));
    HashedOk(c, st.prf, st.skeyidA, id, di.nonce, QuickTwo(dr.spi, dr.nonce, IdsOf(ts)));
    EncryptedRoundTrip(c, h, st.encKey, built.1, reply);
    HeaderOfEncrypted(c, m1, st, iv0);
    m2, qr := RespondQuick(c, st, m1, dr).value.0, RespondQuick(c, st, m1, dr).value.1;
  }

  /** The header a verified message was opened with is the one it parses to. */
  lemma HeaderOfEncrypted(c: Crypto, m: Bytes, st: Phase1State, iv: Bytes)
    requires ParseEncrypted(c, m, st.prf, st.skeyidA, st.encKey, iv).Ok?
    ensures ParseHeader(m) == Ok(ParseEncrypted(c, m, st.prf, st.skeyidA, st.encKey, iv).value.header)
  {
    hide ParseHeader, CbcDecrypt, ParsePayloads, Find, MessageHash, Without;
  }

  lemma SameOne(spi: U32, ni: Bytes, ts: Selectors)
    ensures QuickOne(spi, ni, ts) == QuickTwo(spi, ni, IdsOf(ts))
  {
  }

  lemma IdsOk(ts: Selectors)
    ensures ChainOk(IdsOf(ts)) && NoHash(IdsOf(ts))
  {
    hide TsId;
  }

  /** Messages 2 and 3: HASH(2) and HASH(3) verify under the chained IVs, and the CHILD SAs mirror each other. */
  lemma LastMessages(c: Crypto, st: Phase1State, qi: QuickInitiator, qr: QuickResponder, m2: Bytes, ids: seq<Payload>)
    returns (m3: Bytes)
    requires Keyed(st) && |qi.iv1| == 16 && ChainOk(ids) && NoHash(ids) && FrameFits(qr.nr)
    requires qi == QuickInitiator(st.prf, st.skeyidA, st.skeyidD, st.encKey, st.ckyI, st.ckyR, qi.msgId, qi.localSpi,
                                  qi.ni, qi.iv1)
    requires qr == QuickResponder(st.prf, st.skeyidA, st.skeyidD, st.encKey, qi.msgId, qr.localSpi, qi.localSpi, qi.ni,
                                  qr.nr, qr.iv2)
    requires BuildEncryptedPrefixed(c, QuickHeader(st.ckyI, st.ckyR, qi.msgId), st.prf, st.skeyidA, st.encKey, qi.iv1,
                                    qi.ni,
                                    QuickTwo(qr.localSpi, qr.nr, ids)) == Ok((m2, qr.iv2))
    ensures DecryptPayloads(c, m2, qi.encKey, qi.iv1).Ok?
    ensures DecryptPayloads(c, m2, qi.encKey, qi.iv1).value.nextIv == qr.iv2
    ensures InitiatorComplete(c, qi, m2).Ok? && InitiatorComplete(c, qi, m2).value.0 == m3
    ensures ResponderComplete(c, qr, m3).Ok?
    ensures Paired(InitiatorComplete(c, qi, m2).value.1, ResponderComplete(c, qr, m3).value)
  {
    hide ParseHeader, EncryptPayloads, DecryptPayloads, Find, Without, PeerEspSpi, QuickTwo, MessageHash, Hash3,
         DeriveChild, Paired, Encode, PadToBlock;
    var h, after := QuickHeader(st.ckyI, st.ckyR, qi.msgId), QuickTwo(qr.localSpi, qr.nr, ids);
    QuickTwoOk(qr.localSpi, qr.nr, ids);
    HashedOk(c, st.prf, st.skeyidA, qi.msgId, qi.ni, after);
    HashedFound(c, st.prf, st.skeyidA, qi.msgId, qi.ni, after);
    var all := Hashed(c, st.prf, st.skeyidA, qi.msgId, qi.ni, after);
    EncryptedRoundTrip(c, h, st.encKey, qi.iv1, all);
    LeadFound(MessageHash(c, st.prf, st.skeyidA, qi.msgId, qi.ni, after), qr.localSpi, qr.nr, ids);
    var last := [Payload(P_HASH, Hash3(c, st.prf, st.skeyidA, qi.msgId, qi.ni, qr.nr))];
    EncryptedRoundTrip(c, h, st.encKey, qr.iv2, last);
    FindAt(last, P_HASH, 0);
    ChildrenMirror(c, st.prf, st.skeyidD, qi.ni, qr.nr, qi.localSpi, qr.localSpi);
    m3 := InitiatorComplete(c, qi, m2).value.0;
  }

  /**
   Quick Mode lockstep over one shared Phase 1 state: every message is accepted (HASH(1), HASH(2) and
   HASH(3) all verify), each side's IV after a message is the other's, and each side's outbound ESP SA
   is the other's inbound.
   */
  lemma QuickLockstep(c: Crypto, st: Phase1State, di: Draw, dr: Draw, ts: Selectors)
    requires Keyed(st) && FrameFits(di.nonce) && FrameFits(dr.nonce)
    ensures var started := InitiateQuick(c, st, di, ts);
      && started.Ok?
      && var (m1, qi) := started.value;
      && var o1 := ParseEncrypted(c, m1, st.prf, st.skeyidA, st.encKey, Phase2Iv(c, st.prf, st.phase1Iv, qi.msgId));
      && o1.Ok? && o1.value.nextIv == qi.iv1
      && var responded := RespondQuick(c, st, m1, dr);
      && responded.Ok?
      && var (m2, qr) := responded.value;
      && var o2 := DecryptPayloads(c, m2, qi.encKey, qi.iv1);
      && o2.Ok? && o2.value.nextIv == qr.iv2
      && var completed := InitiatorComplete(c, qi, m2);
      && completed.Ok?
      && var finished := ResponderComplete(c, qr, completed.value.0);
      && finished.Ok? && Paired(completed.value.1, finished.value)
  {
    hide InitiateQuick, RespondQuick, InitiatorComplete, ResponderComplete, DecryptPayloads, ParseEncrypted,
         BuildEncryptedPrefixed, Paired, Phase2Iv, ChainOk, NoHash;
    var m1, qi, m2, qr := FirstMessage(c, st, di, dr, ts);
    FirstIv(c, st, di, ts);
    IdsOk(ts);
    var _ := LastMessages(c, st, qi, qr, m2, IdsOf(ts));
  }

  lemma FirstIv(c: Crypto, st: Phase1State, di: Draw, ts: Selectors)
    requires Keyed(st) && FrameFits(di.nonce)
    ensures InitiateQuick(c, st, di, ts).Ok?
    ensures var (m1, qi) := InitiateQuick(c, st, di, ts).value;
      var o := ParseEncrypted(c, m1, st.prf, st.skeyidA, st.encKey, Phase2Iv(c, st.prf, st.phase1Iv, qi.msgId));
      o.Ok? && o.value.nextIv == qi.iv1
  {
    hide BuildEncrypted, ParseEncrypted, QuickTwo, Phase2Iv, OddId, IdsOf;
    var id := OddId(di.msgId);
    SameOne(di.spi, di.nonce, ts);
    IdsOk(ts);
    QuickTwoOk(di.spi, di.nonce, IdsOf(ts));
    VerifiedRoundTrip(c, QuickHeader(st.ckyI, st.ckyR, id), st.prf, st.skeyidA, st.encKey,
                      Phase2Iv(c, st.prf, st.phase1Iv, id), QuickTwo(di.spi, di.nonce, IdsOf(ts)));
  }

  /**
   IKEv1 from the first message to the data plane: whenever both Diffie-Hellman shares are valid and the
   offered group is MODP, Aggressive Mode gives both sides one Phase 1 state and Quick Mode over it
   gives them mirrored ESP SAs.
   */
  lemma Ikev1Lockstep(c: Crypto, ci: InitiatorConfig, cr: ResponderConfig, pi: Phase1.Draw, pr: Phase1.Draw, di: Draw,
                      dr: Draw, ts: Selectors)
    requires DrawOk(pi) && DrawOk(pr) && IdsFit(ci, cr) && ci.psk == cr.psk && FrameFits(di.nonce)
    requires FrameFits(dr.nonce)
    requires !ci.group.GroupX25519?
    requires Dh.ValidShare(ci.group, Dh.Public(c, ci.group, pi.private))
    requires Dh.ValidShare(ci.group, Dh.Public(c, ci.group, pr.private))
    ensures var (a1, ai) := InitiateAggressive(c, ci, pi);
      var responded := RespondAggressive(c, cr, a1, pr);
      && responded.Ok?
      && var completed := CompleteAggressive(c, ai, responded.value.0);
      && completed.Ok? && completed.value.1 == responded.value.1
      && VerifyHashI(c, responded.value.1, completed.value.0) == Ok(())
      && var started := InitiateQuick(c, completed.value.1, di, ts);
      && started.Ok?
      && var answered := RespondQuick(c, responded.value.1, started.value.0, dr);
      && answered.Ok?
      && var up := InitiatorComplete(c, started.value.1, answered.value.0);
      && up.Ok?
      && var done := ResponderComplete(c, answered.value.1, up.value.0);
      && done.Ok? && Paired(up.value.1, done.value)
  {
    hide InitiateAggressive, RespondAggressive, CompleteAggressive, VerifyHashI, InitiateQuick, RespondQuick,
         InitiatorComplete, ResponderComplete, Paired, Dh.ValidShare, Dh.Public, DecryptPayloads, ParseEncrypted,
         Phase2Iv, IdsFit;
    AggressiveLockstep(c, ci, cr, pi, pr);
    var st := RespondAggressive(c, cr, InitiateAggressive(c, ci, pi).0, pr).value.1;
    QuickLockstep(c, st, di, dr, ts);
  }
}
