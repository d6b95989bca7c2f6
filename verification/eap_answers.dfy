/**
 What the EAP handlers answer, exactly, to every message in every state: when they fail, and what a
 reply carries, as the other end of the IKE SA opens it.
 */
module EapAnswers {
  import opened Common
  import opened Primitives
  import opened Message
  import opened Sk
  import opened PayloadBodies
  import opened SaInit
  import opened CertPath
  import opened IkeAuth
  import opened IkeAuthAgreement
  import opened IkeAuthExact
  import opened Eap
  import opened EapAuth
  import opened EapRun
  import opened EapSafety
  import opened EapHistory
  import Rekey

  // ----- what the other end opens -----

  predicate Keyed(sa: CompletedSaInit) {
    |sa.keys.skEi| == 36 && |sa.keys.skEr| == 36
  }

  /** The other end of an IKE SA. */
  function Peer(sa: CompletedSaInit): CompletedSaInit {
    sa.(role := if sa.role.Initiator? then Responder else Initiator)
  }

  /**
   Which messages a handler reads, exactly: those that open under the key of the other side and whose
   payload chain ends without an error. The Message ID is the one of the header.
   */
  lemma DecryptExactly(c: Crypto, sa: CompletedSaInit, m: Bytes, id: U32, items: seq<RawPayload>)
    ensures Decrypt(c, sa, m) == Ok((id, items)) <==>
      && |m| >= 28 && id == GetU32(m, 20)
      && var inner := OpenEncryptedGcm(c, m, if sa.role.Initiator? then sa.keys.skEr else sa.keys.skEi);
      && inner.Ok? && Walk(inner.value.0, inner.value.1) == Walked(items, None)
  {
    hide OpenEncryptedGcm, Walk, GetU32, GetU64;
  }

  /** The Message ID of a message that opens. */
  function IdIn(c: Crypto, sa: CompletedSaInit, m: Bytes): U32 {
    match Decrypt(c, sa, m)
    case Ok((id, _)) => id
    case Err(_) => 0
  }

  /** The message, at the other end, is these payloads under this Message ID. */
  predicate Arrives(c: Crypto, sa: CompletedSaInit, m: Bytes, id: U32, ps: seq<Payload>) {
    Decrypt(c, Peer(sa), m) == Ok((id, Raw(ps)))
  }

  predicate Says(c: Crypto, sa: CompletedSaInit, e: Result<EapEvent>, id: U32, ps: seq<Payload>) {
    e.Ok? && e.value.Reply? && Arrives(c, sa, e.value.message, id, ps)
  }

  lemma Said(c: Crypto, sa: CompletedSaInit, id: U32, isResponse: bool, ps: seq<Payload>, iv: Iv)
    requires Keyed(sa) && Sealable(ps)
    ensures var m := BuildSk(c, sa, id, isResponse, ps, iv);
      m.Ok? && Arrives(c, sa, m.value, id, ps) && Says(c, sa, Replying(m), id, ps)
  {
    hide BuildSk, Decrypt, Raw, Sealable;
    Delivered(c, sa, Peer(sa), id, isResponse, ps, iv);
  }

  /** The header of every message of the exchange: both SPIs, the role of the sender, and the direction. */
  lemma EapHeaders(c: Crypto, sa: CompletedSaInit, id: U32, isResponse: bool, ps: seq<Payload>, iv: Iv)
    requires Keyed(sa) && Sealable(ps)
    ensures var m := BuildSk(c, sa, id, isResponse, ps, iv);
      && m.Ok? && ParseHeader(m.value).Ok?
      && var h := ParseHeader(m.value).value;
      && h.initiatorSpi == sa.spiI && h.responderSpi == sa.spiR && h.exchange == ExAuth && h.messageId == id
      && h.flags == Flags(sa.role == Initiator, false, isResponse) && h.major == 2 && h.minor == 0
  {
    hide SealChain, ParseHeader, OpenWalk, Sealable, EncodeChain;
    SealOpen(c, EapHeader(sa, id, isResponse), ps, Rekey.OurSkE(sa), iv);
  }

  function OneEap(p: EapPacket): seq<Payload> {
    [Payload(PtEap, EapBytes(p))]
  }

  /** The shared-key AUTH of section 2.15 of RFC 7296, written out. */
  function SharedKeyAuth(c: Crypto, key: Bytes, firstMessage: Bytes, nonce: Bytes, skP: Bytes, idBody: Bytes): Payload {
    Payload(PtAuth, AuthBytes(Authentication(2,
      c.hmacSha256(c.hmacSha256(key, KEY_PAD), firstMessage + nonce + c.hmacSha256(skP, idBody)))))
  }

  /**
   The message that opens the exchange: it carries the identity, the offer and the selectors, asks for a
   certificate exactly when told to, and has no AUTH, which is what requests EAP.
   */
  lemma StartAsks(st: InitiatorState)
    ensures var items := Raw(StartChain(st));
      && Find(items, PtIdi) == Some(IdBytes(st.id)) && Find(items, PtSa) == Some(SaBytes(EspOffer(st.childSpi)))
      && Find(items, PtAuth) == None
      && Find(items, PtCertReq) == if st.sendCertreq then Some([4] + Zeros(20)) else None
  {
    hide Find, IdBytes, SaBytes, EspOffer, FullTunnelTs;
    var items := Raw(StartChain(st));
    FindAt(items, PtIdi, 0);
    FindAt(items, PtSa, 1);
    FindNone(items, PtAuth);
    if st.sendCertreq {
      FindAt(items, PtCertReq, 4);
    } else {
      FindNone(items, PtCertReq);
    }
  }

  // ----- the responder on EAP -----

  /** An identity: an unknown name fails, a known one is sent the drawn challenge under the next identifier. */
  lemma OnIdentity(c: Crypto, st: ResponderState, m: Bytes, d: Draw)
    requires Keyed(st.sa) && EapIn(c, st.sa, m).Some?
    requires var p := EapIn(c, st.sa, m).value; p.data != [] && p.data[0] == TYPE_IDENTITY
    ensures var e, name := ResponderHandle(c, st, m, d).1, EapIn(c, st.sa, m).value.data[1..];
      && (name !in st.users ==> e == Ok(Failed))
      && (name in st.users ==>
            Says(c, st.sa, e, IdIn(c, st.sa, m),
                 OneEap(EapPacket(CODE_REQUEST, AsU8(st.eapId + 1), BuildChallenge(1, d.challenge, SERVER_NAME)))))
  {
    hide Decrypt, Find, ParseEap, BuildChallenge, BuildSk, EapBytes, Says, Sealable, AsU8;
    var p := EapPacket(CODE_REQUEST, AsU8(st.eapId + 1), BuildChallenge(1, d.challenge, SERVER_NAME));
    EapFound(p);
    Said(c, st.sa, IdIn(c, st.sa, m), true, OneEap(p), d.iv);
  }

  /** The Success request of the method: its type, opcode, identifier, length and the authenticator's response. */
  function SuccessData(c: Crypto, password: Password, nt: NtResponse, peerChallenge: Challenge, challenge: Challenge,
                       user: Bytes): Bytes {
    [26, 3, 1] + U16Bytes(46) + c.authenticatorResponse(password, nt, peerChallenge, challenge, user)
  }

  /**
   A well-formed response: it fails if and only if its NT-response is not the one of the stored
   challenge, user and password; otherwise the answer is the Success request with our own proof.
   */
  lemma OnResponse(c: Crypto, st: ResponderState, m: Bytes, d: Draw)
    requires Keyed(st.sa) && ResponseIn(c, st, m).Some?
    ensures var e, v := ResponderHandle(c, st, m, d).1, ResponseIn(c, st, m).value;
      var right := v.ntResponse == c.ntResponse(st.authChallenge, v.peerChallenge, st.user, st.password);
      && (e == Ok(Failed) <==> !right)
      && (right ==>
            Says(c, st.sa, e, IdIn(c, st.sa, m),
                 OneEap(EapPacket(CODE_REQUEST, AsU8(st.eapId + 1),
                                  SuccessData(c, st.password, v.ntResponse, v.peerChallenge, st.authChallenge,
                                              st.user)))))
  {
    hide Decrypt, Find, ParseEap, ParseResponse, BuildSk, EapBytes, Says, Sealable, AsU8, U16Bytes;
    var v := ResponseIn(c, st, m).value;
    var data := SuccessData(c, st.password, v.ntResponse, v.peerChallenge, st.authChallenge, st.user);
    var p := EapPacket(CODE_REQUEST, AsU8(st.eapId + 1), data);
    SuccessIs(c, st.password, v.ntResponse, v.peerChallenge, st.authChallenge, st.user);
    EapFound(p);
    Said(c, st.sa, IdIn(c, st.sa, m), true, OneEap(p), d.iv);
    SaysIsNotFailed(c, st.sa, Ok(Failed), IdIn(c, st.sa, m), OneEap(p));
  }

  lemma SuccessIs(c: Crypto, password: Password, nt: NtResponse, peerChallenge: Challenge, challenge: Challenge,
                  user: Bytes)
    ensures BuildSuccess(1, c.authenticatorResponse(password, nt, peerChallenge, challenge, user))
      == SuccessData(c, password, nt, peerChallenge, challenge, user)
    ensures |SuccessData(c, password, nt, peerChallenge, challenge, user)| == 47
  {
    hide U16Bytes;
  }

  lemma SaysIsNotFailed(c: Crypto, sa: CompletedSaInit, e: Result<EapEvent>, id: U32, ps: seq<Payload>)
    ensures e == Ok(Failed) ==> !Says(c, sa, e, id, ps)
  {
  }

  /** The client's acknowledgement of Success gets EAP-Success under the client's own identifier. */
  lemma OnAck(c: Crypto, st: ResponderState, m: Bytes, d: Draw)
    requires Keyed(st.sa) && EapIn(c, st.sa, m).Some?
    requires var p := EapIn(c, st.sa, m).value; |p.data| > 1 && p.data[0] == TYPE_MSCHAPV2 && p.data[1] == OP_SUCCESS
    ensures Says(c, st.sa, ResponderHandle(c, st, m, d).1, IdIn(c, st.sa, m),
                 OneEap(EapPacket(3, EapIn(c, st.sa, m).value.identifier, [])))
  {
    hide Decrypt, Find, ParseEap, BuildSk, EapBytes, Says, Sealable, AsU8;
    var p := EapPacket(CODE_SUCCESS, EapIn(c, st.sa, m).value.identifier, []);
    EapFound(p);
    Said(c, st.sa, IdIn(c, st.sa, m), true, OneEap(p), d.iv);
  }

  /** Any other EAP packet fails. A response that does not parse is an error. */
  lemma OnOtherEap(c: Crypto, st: ResponderState, m: Bytes, d: Draw)
    requires EapIn(c, st.sa, m).Some?
    ensures var e, p := ResponderHandle(c, st, m, d).1, EapIn(c, st.sa, m).value;
      var typed := |p.data| > 1 && p.data[0] == TYPE_MSCHAPV2;
      && (p.data == [] ==> e == Ok(Failed))
      && (p.data != [] && p.data[0] != TYPE_IDENTITY
          && !(typed && (p.data[1] == OP_RESPONSE || p.data[1] == OP_SUCCESS)) ==>
            e == Ok(Failed))
      && (typed && p.data[1] == OP_RESPONSE && ParseResponse(p.data).Err? ==> e.Err?)
  {
    hide Decrypt, Find, ParseEap, ParseResponse, BuildSk, BuildChallenge, BuildSuccess, EapBytes, NtResponseOf, AsU8;
  }

  // ----- the responder on messages without EAP -----

  /** The proof of a server: a shared-key AUTH, or its certificates and a signature the peer announced it can check. */
  function ProofOf(c: Crypto, st: ResponderState): Option<seq<Payload>> {
    var octets := st.sa.respMessage + st.sa.ni + c.hmacSha256(st.sa.keys.skPr, IdBytes(st.id));
    match st.auth
    case ServerPsk(psk) => Some([SharedKeyAuth(c, psk, st.sa.respMessage, st.sa.ni, st.sa.keys.skPr, IdBytes(st.id))])
    case ServerCert(key, chain) =>
      var modern := 2 in st.sa.peerSignatureHashes;
      match if modern then key.signAuthData(octets) else key.signEcdsaRaw(octets)
      case None => None
      case Some(sig) => Some(CertPayloads(chain)
                             + [Payload(PtAuth, AuthBytes(Authentication(if modern then 14 else 9, sig)))])
  }

  lemma ServerProofIs(c: Crypto, st: ResponderState)
    ensures ServerProof(c, st).Ok? <==> ProofOf(c, st).Some?
    ensures ServerProof(c, st).Ok? ==> ServerProof(c, st).value == ProofOf(c, st).value
  {
    hide IdBytes, AuthBytes, CertPayloads;
  }

  /**
   An opening message: the answer is our identity, our proof and an identity request under the stored
   identifier, when we can sign and the answer fits one message.
   */
  lemma OnOpening(c: Crypto, st: ResponderState, m: Bytes, d: Draw)
    requires Keyed(st.sa)
    ensures var e, o := ResponderHandle(c, st, m, d).1, OpeningIn(c, st, m);
      && (o.Some? && ProofOf(c, st).None? ==> e.Err?)
      && (o.Some? && ProofOf(c, st).Some? ==>
            var ps := [Payload(PtIdr, IdBytes(st.id))] + ProofOf(c, st).value + OneEap(EapPacket(1, st.eapId, [1]));
            Sealable(ps) ==> Says(c, st.sa, e, IdIn(c, st.sa, m), ps))
  {
    hide Decrypt, Find, SpiAtFixedOffset, BuildSk, ServerProof, ProofOf, IdBytes, EapBytes, Says, Sealable;
    ServerProofIs(c, st);
    if OpeningIn(c, st, m).Some? && ProofOf(c, st).Some? {
      var ps := [Payload(PtIdr, IdBytes(st.id))] + ProofOf(c, st).value + OneEap(EapPacket(1, st.eapId, [1]));
      assert ps == IdentityChain(st, ServerProof(c, st).value);
      if Sealable(ps) {
        Said(c, st.sa, IdIn(c, st.sa, m), true, ps, d.iv);
      }
    }
  }

  /** What follows the identity and the AUTH in the last answer: any assignment, our SPI and the selectors. */
  function GrantOf(st: ResponderState): seq<Payload> {
    AssignPayloads(st.assign) + LastFour(st.childSpi, st.assign)
  }

  /**
   A message with an AUTH and no EAP: it succeeds if and only if the AUTH data is the expected code, and
   then the last answer proves us under the same key and grants the child; otherwise it fails, or is an
   error when the AUTH does not parse.
   */
  lemma OnAuth(c: Crypto, st: ResponderState, m: Bytes, d: Draw)
    requires Keyed(st.sa) && Decrypt(c, st.sa, m).Ok?
    requires Find(Decrypt(c, st.sa, m).value.1, PtEap).None? && Find(Decrypt(c, st.sa, m).value.1, PtAuth).Some?
    ensures var e := ResponderHandle(c, st, m, d).1;
      var a := ParseAuth(Find(Decrypt(c, st.sa, m).value.1, PtAuth).value);
      var key := c.mschapMsk(st.password, st.ntResponse);
      var wanted := c.hmacSha256(c.hmacSha256(key, KEY_PAD),
                                 st.sa.initMessage + st.sa.nr + c.hmacSha256(st.sa.keys.skPi, st.peerIdi));
      && (a.Err? ==> e.Err?)
      && (a.Ok? && a.value.data != wanted ==> e == Ok(Failed))
      && (a.Ok? && a.value.data == wanted ==> e.Ok? && e.value.Done? && e.value.final.Some?)
      && (e.Ok? && e.value.Done? && e.value.final.Some? ==>
            var ps := [Payload(PtIdr, IdBytes(st.id)),
                       SharedKeyAuth(c, key, st.sa.respMessage, st.sa.ni, st.sa.keys.skPr, IdBytes(st.id))]
                           + GrantOf(st);
            Sealable(ps) ==> Arrives(c, st.sa, e.value.final.value, IdIn(c, st.sa, m), ps))
  {
    hide Decrypt, Find, ParseAuth, IdBytes, AuthBytes, BuildSk, Sealable, Arrives, AssignPayloads, LastFour, FinalChain;
    var key := Msk(c, st.password, st.ntResponse);
    var ps := [Payload(PtIdr, IdBytes(st.id)),
               SharedKeyAuth(c, key, st.sa.respMessage, st.sa.ni, st.sa.keys.skPr, IdBytes(st.id))] + GrantOf(st);
    FinalIs(c, st, key);
    BuildsExactly(c, st.sa, IdIn(c, st.sa, m), true, ps, d.iv);
    if Sealable(ps) {
      Said(c, st.sa, IdIn(c, st.sa, m), true, ps, d.iv);
    }
  }

  lemma FinalIs(c: Crypto, st: ResponderState, key: Bytes)
    ensures FinalChain(c, st, key)
      == [Payload(PtIdr, IdBytes(st.id)),
          SharedKeyAuth(c, key, st.sa.respMessage, st.sa.ni, st.sa.keys.skPr, IdBytes(st.id))] + GrantOf(st)
  {
    hide IdBytes, AuthBytes, AssignPayloads, AssignedTs, FullTunnelTs, NotifyBytes, SaBytes, EspOffer;
  }

  lemma BuildsExactly(c: Crypto, sa: CompletedSaInit, id: U32, isResponse: bool, ps: seq<Payload>, iv: Iv)
    ensures BuildSk(c, sa, id, isResponse, ps, iv).Ok? <==> |Rekey.OurSkE(sa)| == 36
  {
    hide SkAad, EncodeChain;
  }

  /**
   What says nothing: a message that does not open or whose EAP packet does not parse is an error,
   one without SA, AUTH and EAP fails.
   */
  lemma OnNothing(c: Crypto, st: ResponderState, m: Bytes, d: Draw)
    ensures var e, p := ResponderHandle(c, st, m, d).1, Decrypt(c, st.sa, m);
      && (p.Err? ==> e == Err(p.error))
      && (p.Ok? && Find(p.value.1, PtEap).Some? && EapIn(c, st.sa, m).None? ==> e.Err?)
      && (p.Ok? && Find(p.value.1, PtEap).None? && Find(p.value.1, PtAuth).None? && Find(p.value.1, PtSa).None? ==>
            e == Ok(Failed))
  {
    hide Decrypt, Find, ParseEap, ResponderMethod, ResponderFinal, ServerProof, BuildSk;
  }

  // ----- the responder over every run -----

  /**
   Message `k` of any run of arbitrary messages, when it is a well-formed response: the responder fails
   if and only if the NT-response is not the one for the credential and the challenge selected by the last
   accepted claim; otherwise it answers with its own proof for them.
   */
  lemma RunOnResponse(c: Crypto, r: ResponderState, inputs: Inputs, k: nat)
    requires Keyed(r.sa) && k < |inputs| && ResponseIn(c, r, inputs[k].0).Some?
    ensures var e, v := ResponderEvent(c, r, inputs, k), ResponseIn(c, r, inputs[k].0).value;
      var sel := SelectedAt(c, r, inputs, k);
      var right := v.ntResponse == c.ntResponse(sel.challenge, v.peerChallenge, sel.user, sel.password);
      && (e == Ok(Failed) <==> !right)
      && (right ==>
            Says(c, r.sa, e, IdIn(c, r.sa, inputs[k].0),
                 OneEap(EapPacket(CODE_REQUEST, AsU8(r.eapId + EapCount(c, r, inputs, k) + 1),
                                  SuccessData(c, sel.password, v.ntResponse, v.peerChallenge, sel.challenge,
                                              sel.user)))))
  {
    hide ResponderHandle, ResponderAt, SelectedAt, NtAt, OpenedAt, EapCount, Says, SuccessData, ResponseIn, IdIn,
         OneEap, AsU8, ClaimIn, OpeningIn;
    ResponderHistory(c, r, inputs, k);
    var st := ResponderAt(c, r, inputs, k);
    SameReading(c, st, r, inputs[k].0);
    OnResponse(c, st, inputs[k].0, inputs[k].1);
    Bump(r.eapId + EapCount(c, r, inputs, k));
  }

  lemma Bump(n: nat)
    ensures AsU8(AsU8(n) + 1) == AsU8(n + 1)
  {
  }

  /**
   Message `k` of any run, when it is an identity: known names are challenged with what is drawn
   for it, others fail.
   */
  lemma RunOnIdentity(c: Crypto, r: ResponderState, inputs: Inputs, k: nat)
    requires Keyed(r.sa) && k < |inputs| && EapIn(c, r.sa, inputs[k].0).Some?
    requires var p := EapIn(c, r.sa, inputs[k].0).value; p.data != [] && p.data[0] == TYPE_IDENTITY
    ensures var e, name := ResponderEvent(c, r, inputs, k), EapIn(c, r.sa, inputs[k].0).value.data[1..];
      && (e == Ok(Failed) <==> name !in r.users)
      && (name in r.users ==>
            Says(c, r.sa, e, IdIn(c, r.sa, inputs[k].0),
                 OneEap(EapPacket(CODE_REQUEST, AsU8(r.eapId + EapCount(c, r, inputs, k) + 1),
                                  BuildChallenge(1, inputs[k].1.challenge, SERVER_NAME)))))
  {
    hide ResponderHandle, ResponderAt, SelectedAt, NtAt, OpenedAt, EapCount, Says, EapIn, IdIn, EapBytes,
         BuildChallenge;
    ResponderHistory(c, r, inputs, k);
    var st := ResponderAt(c, r, inputs, k);
    OnIdentity(c, st, inputs[k].0, inputs[k].1);
    Bump(r.eapId + EapCount(c, r, inputs, k));
    var name := EapIn(c, r.sa, inputs[k].0).value.data[1..];
    var p := EapPacket(CODE_REQUEST, AsU8(st.eapId + 1), BuildChallenge(1, inputs[k].1.challenge, SERVER_NAME));
    SaysIsNotFailed(c, r.sa, Ok(Failed), IdIn(c, r.sa, inputs[k].0), OneEap(p));
  }

  // ----- the initiator -----

  /** The firewall lets the message through: without trust anchors always, with them once the server is proved. */
  predicate Passes(c: Crypto, pki: Pki, st: InitiatorState, m: Bytes) {
    !st.verify.TrustedCas? || st.serverVerified || ProvesServer(c, pki, st, m)
  }

  /** What the initiator answers to an EAP packet; `None` is failure. */
  function AnswerTo(c: Crypto, st: InitiatorState, p: EapPacket, peerChallenge: Challenge): Option<seq<Payload>> {
    var typed := |p.data| > 1 && p.data[0] == 26;
    if p.code == 4 then None
    else if p.code == 3 then
      Some([SharedKeyAuth(c, c.mschapMsk(st.password, st.ntResponse), st.sa.initMessage, st.sa.nr, st.sa.keys.skPi,
                          IdBytes(st.id))])
    else if p.data != [] && p.data[0] == 1 then Some(OneEap(EapPacket(2, p.identifier, [1] + st.user)))
    else if typed && p.data[1] == 1 && |p.data| >= 22 then
      Some(OneEap(EapPacket(2, p.identifier,
                            BuildResponse(c, p.data[2], p.data[6..22], peerChallenge, st.user, st.password))))
    else if typed && p.data[1] == 3 then Some(OneEap(EapPacket(2, p.identifier, [26, 3])))
    else None
  }

  /** A challenge cut short: the one EAP packet that is an error and not a failure. */
  predicate ShortChallenge(p: EapPacket) {
    p.code != 4 && p.code != 3 && 1 < |p.data| < 22 && p.data[0] == 26 && p.data[1] == 1
  }

  /**
   The initiator on any EAP packet it lets through: failure, the error of a challenge cut short, or the
   one answer for that packet under the next Message ID. What it does not let through fails.
   */
  lemma OnEap(c: Crypto, pki: Pki, st: InitiatorState, m: Bytes, d: Draw)
    requires Keyed(st.sa) && EapIn(c, st.sa, m).Some?
    ensures var e, p := InitiatorHandle(c, pki, st, m, d).1, EapIn(c, st.sa, m).value;
      var answer := AnswerTo(c, st, p, d.challenge);
      && (!Passes(c, pki, st, m) ==> e == Ok(Failed))
      && (Passes(c, pki, st, m) && ShortChallenge(p) ==> e.Err?)
      && (Passes(c, pki, st, m) && !ShortChallenge(p) && answer.None? ==> e == Ok(Failed))
      && (Passes(c, pki, st, m) && !ShortChallenge(p) && answer.Some? && Sealable(answer.value) ==>
            Says(c, st.sa, e, AsU32(IdIn(c, st.sa, m) + 1), answer.value))
  {
    hide InitiatorHandle, InitiatorContinue, Passes, AnswerTo, ShortChallenge, Says, Sealable, IdIn, AsU32, EapIn;
    if Passes(c, pki, st, m) {
      var v := Through(c, pki, st, m, d);
      Continues(c, st, v, m, d);
    } else {
      Stopped(c, pki, st, m, d);
    }
  }

  lemma Stopped(c: Crypto, pki: Pki, st: InitiatorState, m: Bytes, d: Draw)
    requires EapIn(c, st.sa, m).Some? && !Passes(c, pki, st, m)
    ensures InitiatorHandle(c, pki, st, m, d).1 == Ok(Failed)
  {
    hide Decrypt, Find, ParseEap, VerifyServer, InitiatorContinue;
  }

  /** A message let through is handled whatever the flag says. */
  lemma Through(c: Crypto, pki: Pki, st: InitiatorState, m: Bytes, d: Draw) returns (v: bool)
    requires EapIn(c, st.sa, m).Some? && Passes(c, pki, st, m)
    ensures Decrypt(c, st.sa, m).Ok?
    ensures var (id, items) := Decrypt(c, st.sa, m).value;
      InitiatorHandle(c, pki, st, m, d).1 == InitiatorContinue(c, st.(serverVerified := v), id, items, d).1
  {
    hide Decrypt, Find, ParseEap, InitiatorContinue, CertsOf, VerifyCertAuth, ParseAuth, ResponderOctets;
    var items := Decrypt(c, st.sa, m).value.1;
    v := st.serverVerified || EapAuth.Claims(st, items);
    assert st.(serverVerified := st.serverVerified) == st;
  }

  lemma Continues(c: Crypto, st: InitiatorState, v: bool, m: Bytes, d: Draw)
    requires Keyed(st.sa) && EapIn(c, st.sa, m).Some? && Decrypt(c, st.sa, m).Ok?
    ensures var (id, items) := Decrypt(c, st.sa, m).value;
      var e, p := InitiatorContinue(c, st.(serverVerified := v), id, items, d).1, EapIn(c, st.sa, m).value;
      var answer := AnswerTo(c, st, p, d.challenge);
      && (ShortChallenge(p) ==> e.Err?)
      && (!ShortChallenge(p) && answer.None? ==> e == Ok(Failed))
      && (!ShortChallenge(p) && answer.Some? && Sealable(answer.value) ==>
            Says(c, st.sa, e, AsU32(IdIn(c, st.sa, m) + 1), answer.value))
  {
    hide Decrypt, Find, ParseEap, BuildSk, BuildResponse, EapBytes, Says, Sealable, MskAuthPayload, SharedKeyAuth,
         AsU32, NtResponseOf;
    var answer := AnswerTo(c, st, EapIn(c, st.sa, m).value, d.challenge);
    MskAuthIs(c, st, v);
    if answer.Some? && Sealable(answer.value) {
      Said(c, st.sa, AsU32(IdIn(c, st.sa, m) + 1), false, answer.value, d.iv);
    }
  }

  lemma MskAuthIs(c: Crypto, st: InitiatorState, v: bool)
    ensures MskAuthPayload(c, st.(serverVerified := v))
      == [SharedKeyAuth(c, c.mschapMsk(st.password, st.ntResponse), st.sa.initMessage, st.sa.nr, st.sa.keys.skPi,
                        IdBytes(st.id))]
  {
    hide IdBytes, AuthBytes;
  }

  /** Without EAP the initiator never replies: it succeeds, fails or reports an error. */
  lemma OnFinal(c: Crypto, pki: Pki, st: InitiatorState, m: Bytes, d: Draw)
    requires EapIn(c, st.sa, m).None?
    ensures var e := InitiatorHandle(c, pki, st, m, d).1;
      e.Err? || e == Ok(Failed) || e == Ok(Done(None))
    ensures var e := InitiatorHandle(c, pki, st, m, d).1;
      e == Ok(Done(None)) <==> Passes(c, pki, st, m) && Finishes(c, st, m, st.ntResponse) && !Blocked(c, pki, st, m)
  {
    hide Decrypt, Find, ParseEap, ParseAuth, VerifyServer, PskAuth, Msk, ResponderOctets, InitiatorMethod;
  }

  /** A message that claims to prove the server and does not. */
  predicate Blocked(c: Crypto, pki: Pki, st: InitiatorState, m: Bytes) {
    var d := Decrypt(c, st.sa, m);
    && !st.serverVerified && d.Ok? && Find(d.value.1, PtIdr).Some? && Find(d.value.1, PtAuth).Some?
    && !VerifyServer(c, pki, st, d.value.1)
  }

  lemma {:induction false} CertificatesConcat(a: seq<RawPayload>, b: seq<RawPayload>)
    ensures Certificates(a + b) == Certificates(a) + Certificates(b)
    decreases |b|
  {
    hide ParseCert;
    if b == [] {
      assert a + b == a;
    } else {
      var n := |b| - 1;
      CertificatesConcat(a, b[..n]);
      assert (a + b)[..|a + b| - 1] == a + b[..n];
    }
  }

  /** The initiator collects every certificate of the message, in order. */
  lemma {:induction false} CertsOfExactly(items: seq<RawPayload>)
    ensures CertsOf(items) == Certificates(items)
  {
    hide ParseCert;
    if items != [] {
      CertsOfExactly(items[1..]);
      CertificatesConcat(items[..1], items[1..]);
      assert items == items[..1] + items[1..] && items[..1][..0] == [];
    }
  }

  /**
   What proves a server to a client with trust anchors, exactly: the message has an identity, a
   digital-signature AUTH and certificates, and the first certificate is trusted, carries the expected
   name, and verifies the AUTH over the second message, the client's nonce and the identity under SK_pr.
   */
  lemma ServerProofExactly(c: Crypto, pki: Pki, st: InitiatorState, m: Bytes)
    requires st.verify.TrustedCas?
    ensures ProvesServer(c, pki, st, m) <==>
      && var p := Decrypt(c, st.sa, m);
      && p.Ok?
      && var idr, auth, certs := Find(p.value.1, PtIdr), Find(p.value.1, PtAuth), Certificates(p.value.1);
      && idr.Some? && auth.Some? && certs != []
      && var a := ParseAuth(auth.value);
      && a.Ok? && a.value.authMethod == 14
      && Trusted(pki, certs[0], certs[1..], st.verify.cas, st.verify.now)
      && pki.hasDns(certs[0], st.verify.expectedDns)
      && pki.verifyAuth(certs[0], a.value.data,
                        st.sa.respMessage + st.sa.ni + c.hmacSha256(st.sa.keys.skPr, idr.value))
  {
    hide Decrypt, Find, CertsOf, Certificates, ParseAuth, VerifyCertAuth, Trusted;
    var p := Decrypt(c, st.sa, m);
    if p.Ok? {
      CertsOfExactly(p.value.1);
    }
    if p.Ok? && Find(p.value.1, PtIdr).Some? && Find(p.value.1, PtAuth).Some? && CertsOf(p.value.1) != [] {
      var a := ParseAuth(Find(p.value.1, PtAuth).value);
      if a.Ok? {
        var certs := CertsOf(p.value.1);
        CertAuthExactly(pki, certs[0], certs[1..], st.verify.cas, Some(st.verify.expectedDns), st.verify.now,
                        a.value.data,
                        ResponderOctets(c, st.sa, Find(p.value.1, PtIdr).value));
      }
    }
  }
}
