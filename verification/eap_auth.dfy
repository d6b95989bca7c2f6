/**
 The EAP-MSCHAPv2 exchange inside `IKE_AUTH` (src/ikev2/eap_auth.rs): the two
 stateful handlers, as step functions and as the objects that keep the state.
 */
module EapAuth {
  import opened Common
  import opened Primitives
  import opened Message
  import opened Sk
  import opened PayloadBodies
  import opened SaInit
  import opened CertPath
  import opened IkeAuth
  import opened Eap
  import Rekey

  datatype ServerAuth = ServerPsk(psk: Bytes) | ServerCert(key: SigningKey, chain: seq<Bytes>)
  datatype ServerVerify = Insecure | TrustedCas(cas: seq<Bytes>, expectedDns: string, now: nat)
  datatype EapEvent = Reply(message: Bytes) | Done(final: Option<Bytes>) | Failed

  /** What one step draws from the entropy source. */
  datatype Draw = Draw(iv: Iv, challenge: Challenge)

  function EapHeader(sa: CompletedSaInit, msgId: U32, isResponse: bool): IkeHeader {
    IkeHeader(sa.spiI, sa.spiR, PtNone, 2, 0, ExAuth, Flags(sa.role.Initiator?, false, isResponse), msgId, 0)
  }

  function BuildSk(c: Crypto, sa: CompletedSaInit, msgId: U32, isResponse: bool, inner: seq<Payload>,
                   iv: Iv): Result<Bytes> {
    SealChain(c, EapHeader(sa, msgId, isResponse), inner, Rekey.OurSkE(sa), iv)
  }

  /** The Message ID and the payloads of a message; any error of the walk is an error of the whole. */
  function Decrypt(c: Crypto, sa: CompletedSaInit, message: Bytes): Result<(U32, seq<RawPayload>)> {
    var h :- ParseHeader(message);
    var w :- OpenWalk(c, message, Rekey.PeerSkE(sa));
    if w.error.Some? then Err(w.error.value) else Ok((h.messageId, w.items))
  }

  function EapPayload(p: EapPacket): seq<Payload> {
    [Payload(PtEap, EapBytes(p))]
  }

  function Replying(m: Result<Bytes>): Result<EapEvent> {
    match m
    case Ok(b) => Ok(Reply(b))
    case Err(e) => Err(e)
  }

  // ----- the initiator -----

  datatype InitiatorState = InitiatorState(
    sa: CompletedSaInit, id: Identification, user: Bytes, password: Password, childSpi: U32,
    ntResponse: NtResponse, verify: ServerVerify, serverVerified: bool, sendCertreq: bool)

  function NewInitiator(sa: CompletedSaInit, id: Identification, user: Bytes, password: Password, childSpi: U32,
                        verify: ServerVerify): InitiatorState {
    InitiatorState(sa, id, user, password, childSpi, Zeros(24), verify, false, false)
  }

  /** Every CERT payload that parses, in order. */
  function CertsOf(items: seq<RawPayload>): seq<Bytes> {
    if items == [] then []
    else if items[0].ptype == PtCert && ParseCert(items[0].data).Ok? then
      [ParseCert(items[0].data).value.data] + CertsOf(items[1..])
    else CertsOf(items[1..])
  }

  function VerifyServer(c: Crypto, pki: Pki, st: InitiatorState, items: seq<RawPayload>): bool {
    match st.verify
    case Insecure => true
    case TrustedCas(cas, dns, now) =>
      var idr, auth, certs := Find(items, PtIdr), Find(items, PtAuth), CertsOf(items);
      if idr.None? || auth.None? || certs == [] then false
      else match ParseAuth(auth.value)
        case Err(_) => false
        case Ok(a) =>
          && a.authMethod == DIGITAL_SIGNATURE
          && VerifyCertAuth(pki, certs[0], certs[1..], cas, Some(dns), now, a.data,
                            ResponderOctets(c, st.sa, idr.value)).Ok?
  }

  /** IDi, SAi2, TSi, TSr, and a CERTREQ when asked for: no AUTH, which requests EAP. */
  function StartChain(st: InitiatorState): seq<Payload> {
    [Payload(PtIdi, IdBytes(st.id)), Payload(PtSa, SaBytes(EspOffer(st.childSpi))), Payload(PtTsi, FullTunnelTs()),
     Payload(PtTsr, FullTunnelTs())]
    + if st.sendCertreq then [Payload(PtCertReq, [X509_SIGNATURE] + Zeros(20))] else []
  }

  function Start(c: Crypto, st: InitiatorState, iv: Iv): Result<Bytes> {
    SealChain(c, AuthHeader(st.sa, false), StartChain(st), st.sa.keys.skEi, iv)
  }

  function Msk(c: Crypto, password: Password, nt: NtResponse): Bytes {
    c.mschapMsk(password, nt)
  }

  /** The responder's last message: its MSK-keyed AUTH must be the expected one. */
  function InitiatorFinal(c: Crypto, st: InitiatorState, items: seq<RawPayload>): Result<EapEvent> {
    var auth := Find(items, PtAuth);
    if auth.None? || Find(items, PtSa).None? then Ok(Failed)
    else
      var idr := match Find(items, PtIdr) case Some(b) => b case None => [];
      var wanted := PskAuth(c, Msk(c, st.password, st.ntResponse), ResponderOctets(c, st.sa, idr));
      var got :- ParseAuth(auth.value);
      Ok(if got.authMethod == SHARED_KEY && got.data == wanted then Done(None) else Failed)
  }

  function MskAuthPayload(c: Crypto, st: InitiatorState): seq<Payload> {
    var code := PskAuth(c, Msk(c, st.password, st.ntResponse), InitiatorOctets(c, st.sa, IdBytes(st.id)));
    [Payload(PtAuth, AuthBytes(Authentication(SHARED_KEY, code)))]
  }

  /** Answer an EAP request by its method. */
  function InitiatorMethod(c: Crypto, st: InitiatorState, nextId: U32, eap: EapPacket,
                           d: Draw): (InitiatorState, Result<EapEvent>) {
    if eap.data == [] then (st, Ok(Failed))
    else if eap.data[0] == TYPE_IDENTITY then
      (st, Replying(BuildSk(c, st.sa, nextId, false,
                            EapPayload(EapPacket(CODE_RESPONSE, eap.identifier, [TYPE_IDENTITY] + st.user)), d.iv)))
    else if eap.data[0] == TYPE_MSCHAPV2 && |eap.data| > 1 && eap.data[1] == OP_CHALLENGE then
      (match ParseChallenge(eap.data)
       case Err(e) => (st, Err(e))
       case Ok((id, challenge, _)) =>
         var st' := st.(ntResponse := NtResponseOf(c, challenge, d.challenge, st.user, st.password));
         var data := BuildResponse(c, id, challenge, d.challenge, st.user, st.password);
         (st', Replying(BuildSk(c, st.sa, nextId, false, EapPayload(EapPacket(CODE_RESPONSE, eap.identifier, data)),
                                d.iv))))
    else if eap.data[0] == TYPE_MSCHAPV2 && |eap.data| > 1 && eap.data[1] == OP_SUCCESS then
      (st, Replying(BuildSk(c, st.sa, nextId, false,
                            EapPayload(EapPacket(CODE_RESPONSE, eap.identifier, [TYPE_MSCHAPV2, OP_SUCCESS])), d.iv)))
    else (st, Ok(Failed))
  }

  function InitiatorContinue(c: Crypto, st: InitiatorState, msgId: U32, items: seq<RawPayload>,
                             d: Draw): (InitiatorState, Result<EapEvent>) {
    var nextId := AsU32(msgId + 1);
    match Find(items, PtEap)
    case None => (st, InitiatorFinal(c, st, items))
    case Some(b) => match ParseEap(b)
      case Err(e) => (st, Err(e))
      case Ok(eap) =>
        if eap.code == CODE_FAILURE then (st, Ok(Failed))
        else if eap.code == CODE_SUCCESS then
          (st, Replying(BuildSk(c, st.sa, nextId, false, MskAuthPayload(c, st), d.iv)))
        else InitiatorMethod(c, st, nextId, eap, d)
  }

  /** The message claims to authenticate the server and the server is not yet authenticated. */
  predicate Claims(st: InitiatorState, items: seq<RawPayload>) {
    !st.serverVerified && Find(items, PtIdr).Some? && Find(items, PtAuth).Some?
  }

  function InitiatorHandle(c: Crypto, pki: Pki, st: InitiatorState, message: Bytes,
                           d: Draw): (InitiatorState, Result<EapEvent>) {
    match Decrypt(c, st.sa, message)
    case Err(e) => (st, Err(e))
    case Ok((msgId, items)) =>
      if Claims(st, items) && !VerifyServer(c, pki, st, items) then (st, Ok(Failed))
      else
        var st' := if Claims(st, items) then st.(serverVerified := true) else st;
        if st.verify.TrustedCas? && !st'.serverVerified then (st', Ok(Failed))
        else InitiatorContinue(c, st', msgId, items, d)
  }

  /** The initiator object; `Handle` updates `serverVerified` and `ntResponse`. */
  class EapInitiator {
    const sa: CompletedSaInit
    const id: Identification
    const user: Bytes
    const password: Password
    const childSpi: U32
    const verify: ServerVerify
    const sendCertreq: bool
    var ntResponse: NtResponse
    var serverVerified: bool

    function State(): InitiatorState
      reads this
    {
      InitiatorState(sa, id, user, password, childSpi, ntResponse, verify, serverVerified, sendCertreq)
    }

    constructor (st: InitiatorState)
      ensures State() == st
    {
      sa, id, user, password, childSpi := st.sa, st.id, st.user, st.password, st.childSpi;
      verify, sendCertreq, ntResponse, serverVerified := st.verify, st.sendCertreq, st.ntResponse, st.serverVerified;
    }

    method Handle(c: Crypto, pki: Pki, message: Bytes, d: Draw) returns (r: Result<EapEvent>)
      modifies this`ntResponse, this`serverVerified
      ensures (State(), r) == InitiatorHandle(c, pki, old(State()), message, d)
    {
      hide Decrypt, VerifyServer, InitiatorFinal, MskAuthPayload, BuildSk, BuildResponse, ParseEap, ParseChallenge,
           Find;
      var plain := Decrypt(c, sa, message);
      if plain.Err? {
        return Err(plain.error);
      }
      var (msgId, items) := plain.value;
      var nextId := AsU32(msgId as int + 1);
      if !serverVerified && Find(items, PtIdr).Some? && Find(items, PtAuth).Some? {
        if !VerifyServer(c, pki, State(), items) {
          return Ok(Failed);
        }
        serverVerified := true;
      }
      if verify.TrustedCas? && !serverVerified {
        return Ok(Failed);
      }
      var body := Find(items, PtEap);
      if body.None? {
        return InitiatorFinal(c, State(), items);
      }
      var parsed := ParseEap(body.value);
      if parsed.Err? {
        return Err(parsed.error);
      }
      var eap := parsed.value;
      if eap.code == CODE_FAILURE {
        return Ok(Failed);
      }
      if eap.code == CODE_SUCCESS {
        return Replying(BuildSk(c, sa, nextId, false, MskAuthPayload(c, State()), d.iv));
      }
      var data: Bytes;
      if eap.data != [] && eap.data[0] == TYPE_IDENTITY {
        data := [TYPE_IDENTITY] + user;
      } else if |eap.data| > 1 && eap.data[0] == TYPE_MSCHAPV2 && eap.data[1] == OP_CHALLENGE {
        var challenge := ParseChallenge(eap.data);
        if challenge.Err? {
          return Err(challenge.error);
        }
        ntResponse := NtResponseOf(c, challenge.value.1, d.challenge, user, password);
        data := BuildResponse(c, challenge.value.0, challenge.value.1, d.challenge, user, password);
      } else if |eap.data| > 1 && eap.data[0] == TYPE_MSCHAPV2 && eap.data[1] == OP_SUCCESS {
        data := [TYPE_MSCHAPV2, OP_SUCCESS];
      } else {
        return Ok(Failed);
      }
      return Replying(BuildSk(c, sa, nextId, false, EapPayload(EapPacket(CODE_RESPONSE, eap.identifier, data)), d.iv));
    }
  }

  // ----- the responder -----

  datatype ResponderState = ResponderState(
    sa: CompletedSaInit, id: Identification, auth: ServerAuth, user: Bytes, password: Password,
    users: map<Bytes, Password>, childSpi: U32, eapId: Byte, authChallenge: Challenge, ntResponse: NtResponse,
    peerIdi: Bytes, peerChildSpi: Option<U32>,
    assign: Option<AssignedConfig>)

  function NewResponder(sa: CompletedSaInit, id: Identification, auth: ServerAuth, users: map<Bytes, Password>,
                        childSpi: U32, assign: Option<AssignedConfig>): ResponderState {
    ResponderState(sa, id, auth, [], "", users, childSpi, 1, Zeros(16), Zeros(24), [], None, assign)
  }

  /** The CERTs and the AUTH with which the server proves itself. */
  function ServerProof(c: Crypto, st: ResponderState): Result<seq<Payload>> {
    var octets := ResponderOctets(c, st.sa, IdBytes(st.id));
    match st.auth
    case ServerPsk(psk) => Ok([Payload(PtAuth, AuthBytes(Authentication(SHARED_KEY, PskAuth(c, psk, octets))))])
    case ServerCert(key, chain) =>
      var a :- CertAuth(key, st.sa.peerSignatureHashes, octets);
      Ok(CertPayloads(chain) + [Payload(PtAuth, AuthBytes(a))])
  }

  function IdentityChain(st: ResponderState, proof: seq<Payload>): seq<Payload> {
    [Payload(PtIdr, IdBytes(st.id))] + proof + EapPayload(EapPacket(CODE_REQUEST, st.eapId, [TYPE_IDENTITY]))
  }

  /** Message 1: record the peer's SPI and IDi, authenticate ourselves, ask for the identity. */
  function ResponderStart(c: Crypto, st: ResponderState, msgId: U32, items: seq<RawPayload>,
                          d: Draw): (ResponderState, Result<EapEvent>) {
    match Find(items, PtSa)
    case None => (st, Ok(Failed))
    case Some(sai2) =>
      var idi := match Find(items, PtIdi) case Some(b) => b case None => [];
      var st' := st.(peerChildSpi := SpiAtFixedOffset(sai2), peerIdi := idi);
      match ServerProof(c, st)
      case Err(e) => (st', Err(e))
      case Ok(proof) => (st', Replying(BuildSk(c, st.sa, msgId, true, IdentityChain(st, proof), d.iv)))
  }

  function FinalChain(c: Crypto, st: ResponderState, msk: Bytes): seq<Payload> {
    [Payload(PtIdr, IdBytes(st.id)),
     Payload(PtAuth, AuthBytes(Authentication(SHARED_KEY, PskAuth(c, msk, ResponderOctets(c, st.sa, IdBytes(st.id))))))]
    + AssignPayloads(st.assign)
    + [Payload(PtSa, SaBytes(EspOffer(st.childSpi))), Payload(PtTsi, AssignedTs(st.assign)),
       Payload(PtTsr, FullTunnelTs()),
       Payload(PtNotify, NotifyBytes(Status(MOBIKE_SUPPORTED, [])))]
  }

  /** AUTH without EAP: compare it with the MSK-keyed value and answer with ours. */
  function ResponderFinal(c: Crypto, st: ResponderState, msgId: U32, authBytes: Bytes, d: Draw): Result<EapEvent> {
    var msk := Msk(c, st.password, st.ntResponse);
    var wanted := PskAuth(c, msk, InitiatorOctets(c, st.sa, st.peerIdi));
    var got :- ParseAuth(authBytes);
    if got.data != wanted then Ok(Failed)
    else
      var m :- BuildSk(c, st.sa, msgId, true, FinalChain(c, st, msk), d.iv);
      Ok(Done(Some(m)))
  }

  /** "ryke", the name in the challenge. */
  const SERVER_NAME: Bytes := [114, 121, 107, 101]

  function AskNext(c: Crypto, st: ResponderState, msgId: U32, data: Bytes, iv: Iv): Result<EapEvent> {
    Replying(BuildSk(c, st.sa, msgId, true, EapPayload(EapPacket(CODE_REQUEST, st.eapId, data)), iv))
  }

  /** An EAP response drives the next step; `st` already carries the bumped identifier. */
  function ResponderMethod(c: Crypto, st: ResponderState, msgId: U32, eap: EapPacket,
                           d: Draw): (ResponderState, Result<EapEvent>) {
    if eap.data == [] then (st, Ok(Failed))
    else if eap.data[0] == TYPE_IDENTITY then
      var claimed := eap.data[1..];
      if claimed !in st.users then (st, Ok(Failed))
      else
        var st' := st.(user := claimed, password := st.users[claimed], authChallenge := d.challenge);
        (st', AskNext(c, st', msgId, BuildChallenge(1, d.challenge, SERVER_NAME), d.iv))
    else if eap.data[0] == TYPE_MSCHAPV2 && |eap.data| > 1 && eap.data[1] == OP_RESPONSE then
      (match ParseResponse(eap.data)
       case Err(e) => (st, Err(e))
       case Ok(resp) =>
         var st' := st.(ntResponse := NtResponseOf(c, st.authChallenge, resp.peerChallenge, st.user, st.password));
         if st'.ntResponse != resp.ntResponse then (st', Ok(Failed))
         else
           var proof := c.authenticatorResponse(st.password, st'.ntResponse, resp.peerChallenge, st.authChallenge,
                                                st.user);
           (st', AskNext(c, st', msgId, BuildSuccess(1, proof), d.iv)))
    else if eap.data[0] == TYPE_MSCHAPV2 && |eap.data| > 1 && eap.data[1] == OP_SUCCESS then
      (st, Replying(BuildSk(c, st.sa, msgId, true, EapPayload(EapPacket(CODE_SUCCESS, eap.identifier, [])), d.iv)))
    else (st, Ok(Failed))
  }

  function ResponderHandle(c: Crypto, st: ResponderState, message: Bytes, d: Draw): (ResponderState, Result<EapEvent>) {
    match Decrypt(c, st.sa, message)
    case Err(e) => (st, Err(e))
    case Ok((msgId, items)) =>
      match Find(items, PtEap)
      case None =>
        (match Find(items, PtAuth)
         case None => ResponderStart(c, st, msgId, items, d)
         case Some(auth) => (st, ResponderFinal(c, st, msgId, auth, d)))
      case Some(b) =>
        match ParseEap(b)
        case Err(e) => (st, Err(e))
        case Ok(eap) => ResponderMethod(c, st.(eapId := AsU8(st.eapId + 1)), msgId, eap, d)
  }

  /** The responder object; which payloads are present decides which fields `Handle` updates. */
  class EapResponder {
    const sa: CompletedSaInit
    const id: Identification
    const auth: ServerAuth
    const users: map<Bytes, Password>
    const childSpi: U32
    const assign: Option<AssignedConfig>
    var user: Bytes
    var password: Password
    var eapId: Byte
    var authChallenge: Challenge
    var ntResponse: NtResponse
    var peerIdi: Bytes
    var peerChildSpi: Option<U32>

    function State(): ResponderState
      reads this
    {
      ResponderState(sa, id, auth, user, password, users, childSpi, eapId, authChallenge, ntResponse, peerIdi,
                     peerChildSpi, assign)
    }

    constructor (st: ResponderState)
      ensures State() == st
    {
      sa, id, auth, users, childSpi, assign := st.sa, st.id, st.auth, st.users, st.childSpi, st.assign;
      user, password, eapId, authChallenge := st.user, st.password, st.eapId, st.authChallenge;
      ntResponse, peerIdi, peerChildSpi := st.ntResponse, st.peerIdi, st.peerChildSpi;
    }

    method Handle(c: Crypto, message: Bytes, d: Draw) returns (r: Result<EapEvent>)
      modifies this
      ensures (State(), r) == ResponderHandle(c, old(State()), message, d)
    {
      hide Decrypt, ServerProof, ResponderFinal, BuildSk, BuildChallenge, BuildSuccess, ParseEap, ParseResponse,
           IdentityChain, Find, SpiAtFixedOffset, NtResponseOf;
      var plain := Decrypt(c, sa, message);
      if plain.Err? {
        return Err(plain.error);
      }
      var (msgId, items) := plain.value;
      var body, authBytes := Find(items, PtEap), Find(items, PtAuth);
      if body.None? && authBytes.None? {
        var sai2 := Find(items, PtSa);
        if sai2.None? {
          return Ok(Failed);
        }
        peerChildSpi := SpiAtFixedOffset(sai2.value);
        peerIdi := match Find(items, PtIdi) case Some(b) => b case None => [];
        ghost var before := old(State());
        assert State() == before.(peerChildSpi := peerChildSpi, peerIdi := peerIdi);
        ProofIgnoresPeer(c, before, peerChildSpi, peerIdi);
        var proof := ServerProof(c, State());
        if proof.Err? {
          return Err(proof.error);
        }
        return Replying(BuildSk(c, sa, msgId, true, IdentityChain(State(), proof.value), d.iv));
      }
      if body.None? {
        return ResponderFinal(c, State(), msgId, authBytes.value, d);
      }
      var parsed := ParseEap(body.value);
      if parsed.Err? {
        return Err(parsed.error);
      }
      var eap := parsed.value;
      eapId := AsU8(eapId + 1);
      var out: Bytes;
      if eap.data != [] && eap.data[0] == TYPE_IDENTITY {
        var claimed := eap.data[1..];
        if claimed !in users {
          return Ok(Failed);
        }
        user := claimed;
        password := users[claimed];
        authChallenge := d.challenge;
        out := BuildChallenge(1, authChallenge, SERVER_NAME);
      } else if |eap.data| > 1 && eap.data[0] == TYPE_MSCHAPV2 && eap.data[1] == OP_RESPONSE {
        var parsedResponse := ParseResponse(eap.data);
        if parsedResponse.Err? {
          return Err(parsedResponse.error);
        }
        var resp := parsedResponse.value;
        ntResponse := NtResponseOf(c, authChallenge, resp.peerChallenge, user, password);
        if ntResponse != resp.ntResponse {
          return Ok(Failed);
        }
        out := BuildSuccess(1, c.authenticatorResponse(password, ntResponse, resp.peerChallenge, authChallenge, user));
      } else if |eap.data| > 1 && eap.data[0] == TYPE_MSCHAPV2 && eap.data[1] == OP_SUCCESS {
        return Replying(BuildSk(c, sa, msgId, true, EapPayload(EapPacket(CODE_SUCCESS, eap.identifier, [])), d.iv));
      } else {
        return Ok(Failed);
      }
      return Replying(BuildSk(c, sa, msgId, true, EapPayload(EapPacket(CODE_REQUEST, eapId, out)), d.iv));
    }
  }

  /** The server's proof of identity does not depend on what it has recorded about the peer. */
  lemma ProofIgnoresPeer(c: Crypto, st: ResponderState, spi: Option<U32>, idi: Bytes)
    ensures var st' := st.(peerChildSpi := spi, peerIdi := idi);
      ServerProof(c, st') == ServerProof(c, st) && forall proof :: IdentityChain(st', proof) == IdentityChain(st, proof)
  {
  }
}
