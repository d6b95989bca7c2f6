/**
 The EAP exchange driven end to end: the two handlers of `EapAuth` feeding each
 other, one round being a request to the responder and its answer.
 */
module EapRun {
  import opened Common
  import opened Primitives
  import opened Message
  import opened Sk
  import opened PayloadBodies
  import opened SaInit
  import opened CertPath
  import opened IkeAuth
  import opened IkeAuthAgreement
  import opened EspTunnel
  import opened Eap
  import opened EapAuth
  import opened Rekey

  /** The messages of each round, the final states, and for each side whether its last event was success. */
  datatype Trace = Trace(rounds: seq<(Bytes, Bytes)>, initiator: InitiatorState, responder: ResponderState,
                         initiatorUp: bool, responderUp: bool)

  /** Deliver `inFlight` and whatever follows from it, one pair of draws per round. */
  function Drive(c: Crypto, pki: Pki, i: InitiatorState, r: ResponderState, inFlight: Bytes,
                 draws: seq<(Draw, Draw)>): Trace
    decreases |draws|
  {
    if draws == [] then Trace([], i, r, false, false)
    else
      var (r', answer) := ResponderHandle(c, r, inFlight, draws[0].0);
      match answer
      case Ok(Reply(m)) =>
        var (i', next) := InitiatorHandle(c, pki, i, m, draws[0].1);
        if next.Ok? && next.value.Reply? then
          var rest := Drive(c, pki, i', r', next.value.message, draws[1..]);
          rest.(rounds := [(inFlight, m)] + rest.rounds)
        else Trace([(inFlight, m)], i', r', next.Ok? && next.value.Done?, false)
      case Ok(Done(Some(m))) =>
        var (i', next) := InitiatorHandle(c, pki, i, m, draws[0].1);
        Trace([(inFlight, m)], i', r', next == Ok(Done(None)), true)
      case _ => Trace([], i, r', false, answer.Ok? && answer.value.Done?)
  }

  // ----- one message from end to end -----

  function IdOf(message: Bytes): Option<U32> {
    match ParseHeader(message)
    case Ok(h) => Some(h.messageId)
    case Err(_) => None
  }

  /** A sealed chain reaches the other end as it was, under its Message ID. */
  lemma Delivered(c: Crypto, from: CompletedSaInit, to: CompletedSaInit, msgId: U32, isResponse: bool, ps: seq<Payload>,
                  iv: Iv)
    requires Ends(from, to) && Sealable(ps)
    ensures var m := BuildSk(c, from, msgId, isResponse, ps, iv);
      m.Ok? && IdOf(m.value) == Some(msgId) && Decrypt(c, to, m.value) == Ok((msgId, Raw(ps)))
  {
    hide SealChain, OpenWalk, ParseHeader, Raw, Sealable;
    SealOpen(c, EapHeader(from, msgId, isResponse), ps, OurSkE(from), iv);
  }

  predicate EapFits(p: EapPacket) {
    |p.data| + 37 < 0x1_0000
  }

  /** What either handler finds in a message that carries one EAP packet and nothing else. */
  lemma EapFound(p: EapPacket)
    requires EapFits(p)
    ensures Sealable(EapPayload(p))
    ensures var items := Raw(EapPayload(p));
      && Find(items, PtEap) == Some(EapBytes(p)) && ParseEap(EapBytes(p)) == Ok(p)
      && Find(items, PtAuth) == None && Find(items, PtIdr) == None
  {
    hide Find, EapBytes, ParseEap, ChainSize;
    var items := Raw(EapPayload(p));
    FindAt(items, PtEap, 0);
    FindNone(items, PtAuth);
    FindNone(items, PtIdr);
    EapRoundTrip(p);
    SizeCons(EapPayload(p)[0], []);
    SizeNone();
    assert EapPayload(p) == [EapPayload(p)[0]] + [];
  }

  /** One full round: the responder answers `request` and the initiator answers that with `next`. */
  ghost predicate Round(c: Crypto, pki: Pki, i: InitiatorState, r: ResponderState, request: Bytes, d: (Draw, Draw),
                        i': InitiatorState, r': ResponderState, response: Bytes, next: Bytes) {
    && ResponderHandle(c, r, request, d.0) == (r', Ok(Reply(response)))
    && InitiatorHandle(c, pki, i, response, d.1) == (i', Ok(Reply(next)))
  }

  lemma DriveRound(c: Crypto, pki: Pki, i: InitiatorState, r: ResponderState, request: Bytes, draws: seq<(Draw, Draw)>,
                   i': InitiatorState, r': ResponderState, response: Bytes, next: Bytes)
    requires draws != [] && Round(c, pki, i, r, request, draws[0], i', r', response, next)
    ensures var rest := Drive(c, pki, i', r', next, draws[1..]);
      Drive(c, pki, i, r, request, draws) == rest.(rounds := [(request, response)] + rest.rounds)
  {
    hide ResponderHandle, InitiatorHandle;
  }

  // ----- the handlers on a message that opens -----

  lemma InitiatorOnEap(c: Crypto, pki: Pki, i: InitiatorState, message: Bytes, msgId: U32, p: EapPacket, d: Draw)
    requires EapFits(p) && Decrypt(c, i.sa, message) == Ok((msgId, Raw(EapPayload(p))))
    requires i.serverVerified && p.code == CODE_REQUEST
    ensures InitiatorHandle(c, pki, i, message, d) == InitiatorMethod(c, i, AsU32(msgId + 1), p, d)
  {
    hide Decrypt, InitiatorMethod, ParseEap, EapBytes, Find, Raw, VerifyServer;
    EapFound(p);
  }

  lemma ResponderOnEap(c: Crypto, r: ResponderState, message: Bytes, msgId: U32, p: EapPacket, d: Draw)
    requires EapFits(p) && Decrypt(c, r.sa, message) == Ok((msgId, Raw(EapPayload(p))))
    ensures ResponderHandle(c, r, message, d) == ResponderMethod(c, r.(eapId := AsU8(r.eapId + 1)), msgId, p, d)
  {
    hide Decrypt, ResponderMethod, ParseEap, EapBytes, Find, Raw;
    EapFound(p);
  }

  // ----- the five rounds -----

  /** The two ends of one IKE SA, and a user whose password the responder's table agrees with. */
  predicate Matched(i: InitiatorState, r: ResponderState) {
    && Agreed(i.sa, r.sa)
    && i.user in r.users && r.users[i.user] == i.password
    && |i.user| + 92 < 0x1_0000
  }

  function IdentityRequest(id: Byte): EapPacket {
    EapPacket(CODE_REQUEST, id, [TYPE_IDENTITY])
  }

  function IdentityResponse(id: Byte, user: Bytes): EapPacket {
    EapPacket(CODE_RESPONSE, id, [TYPE_IDENTITY] + user)
  }

  /** The message `m` opens at `to` to the given Message ID and payloads. */
  predicate Carries(c: Crypto, to: CompletedSaInit, m: Bytes, msgId: U32, ps: seq<Payload>) {
    IdOf(m) == Some(msgId) && Decrypt(c, to, m) == Ok((msgId, Raw(ps)))
  }

  lemma StartFound(i: InitiatorState)
    ensures var items := Raw(StartChain(i));
      && Find(items, PtEap) == None && Find(items, PtAuth) == None
      && Find(items, PtSa) == Some(SaBytes(EspOffer(i.childSpi))) && Find(items, PtIdi) == Some(IdBytes(i.id))
  {
    hide Find, SaBytes, EspOffer, IdBytes, FullTunnelTs;
    var items := Raw(StartChain(i));
    FindNone(items, PtEap);
    FindNone(items, PtAuth);
    FindAt(items, PtSa, 1);
    FindAt(items, PtIdi, 0);
  }

  /** A server's proof is a list of CERTs that ends in an AUTH. */
  lemma ProofShape(c: Crypto, r: ResponderState)
    requires ServerProof(c, r).Ok?
    ensures var proof := ServerProof(c, r).value;
      && |proof| > 0 && proof[|proof| - 1].ptype == PtAuth
      && forall k :: 0 <= k < |proof| - 1 ==> proof[k].ptype == PtCert
  {
    hide CertAuth, PskAuth, AuthBytes, CertBytes, ResponderOctets;
  }

  lemma IdentityFound(c: Crypto, r: ResponderState)
    requires ServerProof(c, r).Ok?
    ensures var items := Raw(IdentityChain(r, ServerProof(c, r).value));
      && Find(items, PtIdr) == Some(IdBytes(r.id)) && Find(items, PtAuth).Some?
      && Find(items, PtEap) == Some(EapBytes(IdentityRequest(r.eapId)))
      && ParseEap(EapBytes(IdentityRequest(r.eapId))) == Ok(IdentityRequest(r.eapId))
  {
    hide Find, ServerProof, EapBytes, ParseEap, IdBytes;
    var proof := ServerProof(c, r).value;
    var items := Raw(IdentityChain(r, proof));
    ProofShape(c, r);
    FindAt(items, PtIdr, 0);
    FindAt(items, PtAuth, |proof|);
    FindAt(items, PtEap, |proof| + 1);
    EapRoundTrip(IdentityRequest(r.eapId));
  }

  lemma ResponderStarts(c: Crypto, i: InitiatorState, r: ResponderState, request: Bytes, d: Draw)
    returns (r': ResponderState, response: Bytes)
    requires Agreed(i.sa, r.sa) && Carries(c, r.sa, request, 1, StartChain(i))
    requires ServerProof(c, r).Ok? && Sealable(IdentityChain(r, ServerProof(c, r).value))
    ensures r' == r.(peerChildSpi := Some(i.childSpi), peerIdi := IdBytes(i.id))
    ensures ResponderHandle(c, r, request, d) == (r', Ok(Reply(response)))
    ensures Carries(c, i.sa, response, 1, IdentityChain(r, ServerProof(c, r).value))
  {
    hide Decrypt, ServerProof, IdentityChain, StartChain, Find, Raw, Sealable, BuildSk, IdBytes, SpiAtFixedOffset,
         SaBytes, EspOffer, IdOf;
    r' := r.(peerChildSpi := Some(i.childSpi), peerIdi := IdBytes(i.id));
    StartFound(i);
    EspOfferReads(i.childSpi);
    Delivered(c, r.sa, i.sa, 1, true, IdentityChain(r, ServerProof(c, r).value), d.iv);
    response := BuildSk(c, r.sa, 1, true, IdentityChain(r, ServerProof(c, r).value), d.iv).value;
  }

  lemma InitiatorTrusts(c: Crypto, pki: Pki, i: InitiatorState, r: ResponderState, response: Bytes, d: Draw)
    returns (i': InitiatorState, next: Bytes)
    requires Matched(i, r)
    requires ServerProof(c, r).Ok? && Carries(c, i.sa, response, 1, IdentityChain(r, ServerProof(c, r).value))
    requires VerifyServer(c, pki, i, Raw(IdentityChain(r, ServerProof(c, r).value)))
    ensures i' == i.(serverVerified := true)
    ensures InitiatorHandle(c, pki, i, response, d) == (i', Ok(Reply(next)))
    ensures Carries(c, r.sa, next, 2, EapPayload(IdentityResponse(r.eapId, i.user)))
  {
    hide Decrypt, ServerProof, IdentityChain, Find, Raw, BuildSk, VerifyServer, ParseEap, EapBytes, IdOf, EapPayload,
         ParseChallenge;
    i' := i.(serverVerified := true);
    IdentityFound(c, r);
    var p := IdentityResponse(r.eapId, i.user);
    EapFound(p);
    Delivered(c, i.sa, r.sa, 2, false, EapPayload(p), d.iv);
    next := BuildSk(c, i.sa, 2, false, EapPayload(p), d.iv).value;
    assert InitiatorHandle(c, pki, i, response, d) == InitiatorMethod(c, i', 2, IdentityRequest(r.eapId), d);
  }

  function ChallengeRequest(r: ResponderState): EapPacket {
    EapPacket(CODE_REQUEST, r.eapId, BuildChallenge(1, r.authChallenge, SERVER_NAME))
  }

  function ChallengeResponse(c: Crypto, i: InitiatorState, r: ResponderState, peerChallenge: Challenge): EapPacket {
    EapPacket(CODE_RESPONSE, r.eapId, BuildResponse(c, 1, r.authChallenge, peerChallenge, i.user, i.password))
  }

  lemma ResponderChallenges(c: Crypto, i: InitiatorState, r: ResponderState, id: Byte, request: Bytes, d: Draw)
    returns (r': ResponderState, response: Bytes)
    requires Matched(i, r) && Carries(c, r.sa, request, 2, EapPayload(IdentityResponse(id, i.user)))
    ensures r' == r.(eapId := AsU8(r.eapId + 1), user := i.user, password := i.password, authChallenge := d.challenge)
    ensures ResponderHandle(c, r, request, d) == (r', Ok(Reply(response)))
    ensures Carries(c, i.sa, response, 2, EapPayload(ChallengeRequest(r')))
  {
    hide Decrypt, Find, Raw, BuildSk, ParseEap, EapBytes, IdOf, EapPayload, ParseResponse, ResponderHandle,
         BuildChallenge;
    r' := r.(eapId := AsU8(r.eapId + 1), user := i.user, password := i.password, authChallenge := d.challenge);
    var p := IdentityResponse(id, i.user);
    ResponderOnEap(c, r, request, 2, p, d);
    assert p.data[1..] == i.user;
    EapFound(ChallengeRequest(r'));
    Delivered(c, r.sa, i.sa, 2, true, EapPayload(ChallengeRequest(r')), d.iv);
    response := BuildSk(c, r.sa, 2, true, EapPayload(ChallengeRequest(r')), d.iv).value;
  }

  lemma InitiatorResponds(c: Crypto, pki: Pki, i: InitiatorState, r: ResponderState, response: Bytes, d: Draw)
    returns (i': InitiatorState, next: Bytes)
    requires Matched(i, r) && i.serverVerified && Carries(c, i.sa, response, 2, EapPayload(ChallengeRequest(r)))
    ensures i' == i.(ntResponse := NtResponseOf(c, r.authChallenge, d.challenge, i.user, i.password))
    ensures InitiatorHandle(c, pki, i, response, d) == (i', Ok(Reply(next)))
    ensures Carries(c, r.sa, next, 3, EapPayload(ChallengeResponse(c, i, r, d.challenge)))
  {
    hide Decrypt, Find, Raw, BuildSk, ParseEap, EapBytes, IdOf, EapPayload, ParseChallenge, InitiatorHandle,
         BuildChallenge, BuildResponse, NtResponseOf;
    i' := i.(ntResponse := NtResponseOf(c, r.authChallenge, d.challenge, i.user, i.password));
    InitiatorOnEap(c, pki, i, response, 2, ChallengeRequest(r), d);
    ChallengeRoundTrip(1, r.authChallenge, SERVER_NAME);
    var p := ChallengeResponse(c, i, r, d.challenge);
    EapFound(p);
    Delivered(c, i.sa, r.sa, 3, false, EapPayload(p), d.iv);
    next := BuildSk(c, i.sa, 3, false, EapPayload(p), d.iv).value;
  }

  function SuccessRequest(r: ResponderState, proof: Bytes): EapPacket {
    EapPacket(CODE_REQUEST, r.eapId, BuildSuccess(1, proof))
  }

  function SuccessResponse(id: Byte): EapPacket {
    EapPacket(CODE_RESPONSE, id, [TYPE_MSCHAPV2, OP_SUCCESS])
  }

  lemma ResponderAcceptsPassword(c: Crypto, i: InitiatorState, r: ResponderState, peerChallenge: Challenge,
                                 request: Bytes, d: Draw)
    returns (r': ResponderState, proof: Bytes, response: Bytes)
    requires Matched(i, r) && r.user == i.user && r.password == i.password
    requires Carries(c, r.sa, request, 3, EapPayload(ChallengeResponse(c, i, r, peerChallenge)))
    ensures |proof| == 42
    ensures r' == r.(eapId := AsU8(r.eapId + 1),
                     ntResponse := NtResponseOf(c, r.authChallenge, peerChallenge, i.user, i.password))
    ensures ResponderHandle(c, r, request, d) == (r', Ok(Reply(response)))
    ensures Carries(c, i.sa, response, 3, EapPayload(SuccessRequest(r', proof)))
  {
    hide Decrypt, Find, Raw, BuildSk, ParseEap, EapBytes, IdOf, EapPayload, ParseResponse, ResponderHandle,
         BuildSuccess, BuildResponse, NtResponseOf;
    r' := r.(eapId := AsU8(r.eapId + 1),
             ntResponse := NtResponseOf(c, r.authChallenge, peerChallenge, i.user, i.password));
    ResponderOnEap(c, r, request, 3, ChallengeResponse(c, i, r, peerChallenge), d);
    ResponseRoundTrip(c, 1, r.authChallenge, peerChallenge, i.user, i.password);
    proof := c.authenticatorResponse(r.password, r'.ntResponse, peerChallenge, r.authChallenge, r.user);
    EapFound(SuccessRequest(r', proof));
    Delivered(c, r.sa, i.sa, 3, true, EapPayload(SuccessRequest(r', proof)), d.iv);
    response := BuildSk(c, r.sa, 3, true, EapPayload(SuccessRequest(r', proof)), d.iv).value;
  }

  lemma InitiatorAcks(c: Crypto, pki: Pki, i: InitiatorState, r: ResponderState, proof: Bytes, response: Bytes, d: Draw)
    returns (next: Bytes)
    requires Matched(i, r) && i.serverVerified && |proof| == 42
    requires Carries(c, i.sa, response, 3, EapPayload(SuccessRequest(r, proof)))
    ensures InitiatorHandle(c, pki, i, response, d) == (i, Ok(Reply(next)))
    ensures Carries(c, r.sa, next, 4, EapPayload(SuccessResponse(r.eapId)))
  {
    hide Decrypt, Find, Raw, BuildSk, ParseEap, EapBytes, IdOf, EapPayload, ParseChallenge, InitiatorHandle,
         BuildSuccess;
    InitiatorOnEap(c, pki, i, response, 3, SuccessRequest(r, proof), d);
    var p := SuccessResponse(r.eapId);
    EapFound(p);
    Delivered(c, i.sa, r.sa, 4, false, EapPayload(p), d.iv);
    next := BuildSk(c, i.sa, 4, false, EapPayload(p), d.iv).value;
  }

  function EapSuccess(id: Byte): EapPacket {
    EapPacket(CODE_SUCCESS, id, [])
  }

  lemma ResponderSucceeds(c: Crypto, i: InitiatorState, r: ResponderState, id: Byte, request: Bytes, d: Draw)
    returns (r': ResponderState, response: Bytes)
    requires Matched(i, r) && Carries(c, r.sa, request, 4, EapPayload(SuccessResponse(id)))
    ensures r' == r.(eapId := AsU8(r.eapId + 1))
    ensures ResponderHandle(c, r, request, d) == (r', Ok(Reply(response)))
    ensures Carries(c, i.sa, response, 4, EapPayload(EapSuccess(id)))
  {
    hide Decrypt, Find, Raw, BuildSk, ParseEap, EapBytes, IdOf, EapPayload, ParseResponse, ResponderHandle;
    r' := r.(eapId := AsU8(r.eapId + 1));
    ResponderOnEap(c, r, request, 4, SuccessResponse(id), d);
    EapFound(EapSuccess(id));
    Delivered(c, r.sa, i.sa, 4, true, EapPayload(EapSuccess(id)), d.iv);
    response := BuildSk(c, r.sa, 4, true, EapPayload(EapSuccess(id)), d.iv).value;
  }

  lemma MskAuthSealable(c: Crypto, i: InitiatorState)
    ensures Sealable(MskAuthPayload(c, i))
  {
    hide ChainSize, InitiatorOctets, PskAuth, Msk;
    SizeCons(MskAuthPayload(c, i)[0], []);
    SizeNone();
    assert MskAuthPayload(c, i) == [MskAuthPayload(c, i)[0]] + [];
  }

  lemma InitiatorProves(c: Crypto, pki: Pki, i: InitiatorState, r: ResponderState, id: Byte, response: Bytes, d: Draw)
    returns (next: Bytes)
    requires Matched(i, r) && i.serverVerified && Carries(c, i.sa, response, 4, EapPayload(EapSuccess(id)))
    ensures InitiatorHandle(c, pki, i, response, d) == (i, Ok(Reply(next)))
    ensures Carries(c, r.sa, next, 5, MskAuthPayload(c, i))
  {
    hide Decrypt, Find, Raw, BuildSk, ParseEap, EapBytes, IdOf, EapPayload, InitiatorMethod, MskAuthPayload, Sealable;
    EapFound(EapSuccess(id));
    MskAuthSealable(c, i);
    Delivered(c, i.sa, r.sa, 5, false, MskAuthPayload(c, i), d.iv);
    next := BuildSk(c, i.sa, 5, false, MskAuthPayload(c, i), d.iv).value;
  }

  /** The size of the final message does not depend on the key. */
  lemma FinalSealable(c: Crypto, r: ResponderState, msk: Bytes)
    requires Sealable(FinalChain(c, r, []))
    ensures Sealable(FinalChain(c, r, msk))
  {
    hide ChainSize, AssignPayloads, AssignedTs, FullTunnelTs, NotifyBytes, SaBytes, EspOffer, ResponderOctets, PskAuth,
         IdBytes;
    var a, b := FinalChain(c, r, []), FinalChain(c, r, msk);
    var rest := AssignPayloads(r.assign) + LastFour(r.childSpi, r.assign);
    assert a == [a[0]] + ([a[1]] + rest) && b == [b[0]] + ([b[1]] + rest);
    SizeCons(a[0], [a[1]] + rest);
    SizeCons(a[1], rest);
    SizeCons(b[0], [b[1]] + rest);
    SizeCons(b[1], rest);
    assert |a| == |b| && forall k :: 0 <= k < |a| ==> a[k].ptype == b[k].ptype;
  }

  lemma FinalFound(c: Crypto, r: ResponderState, msk: Bytes)
    ensures var items := Raw(FinalChain(c, r, msk));
      && Find(items, PtEap) == None && Find(items, PtSa).Some?
      && Find(items, PtIdr) == Some(IdBytes(r.id))
      && var code := PskAuth(c, msk, ResponderOctets(c, r.sa, IdBytes(r.id)));
      Find(items, PtAuth) == Some(AuthBytes(Authentication(SHARED_KEY, code)))
  {
    hide Find, AssignedTs, FullTunnelTs, NotifyBytes, SaBytes, EspOffer, ResponderOctets, PskAuth, IdBytes, AuthBytes,
         CpBytes, ReplyIpv4;
    var items := Raw(FinalChain(c, r, msk));
    FindNone(items, PtEap);
    FindAt(items, PtSa, 2 + |AssignPayloads(r.assign)|);
    FindAt(items, PtIdr, 0);
    FindAt(items, PtAuth, 1);
  }

  lemma ProofFound(c: Crypto, i: InitiatorState)
    ensures var items := Raw(MskAuthPayload(c, i));
      && Find(items, PtEap) == None
      && var code := PskAuth(c, Msk(c, i.password, i.ntResponse), InitiatorOctets(c, i.sa, IdBytes(i.id)));
      Find(items, PtAuth) == Some(AuthBytes(Authentication(SHARED_KEY, code)))
  {
    hide Find, PskAuth, InitiatorOctets, AuthBytes, IdBytes, Msk;
    var items := Raw(MskAuthPayload(c, i));
    FindNone(items, PtEap);
    FindAt(items, PtAuth, 0);
  }

  /** Both sides hold the same key material at the end. */
  predicate Confirmed(i: InitiatorState, r: ResponderState) {
    && Matched(i, r) && r.user == i.user && r.password == i.password
    && r.ntResponse == i.ntResponse && r.peerIdi == IdBytes(i.id)
  }

  lemma ResponderFinishes(c: Crypto, i: InitiatorState, r: ResponderState, request: Bytes, d: Draw)
    returns (response: Bytes)
    requires Confirmed(i, r) && Carries(c, r.sa, request, 5, MskAuthPayload(c, i)) && Sealable(FinalChain(c, r, []))
    ensures ResponderHandle(c, r, request, d) == (r, Ok(Done(Some(response))))
    ensures Carries(c, i.sa, response, 5, FinalChain(c, r, Msk(c, r.password, r.ntResponse)))
  {
    hide Decrypt, Find, Raw, BuildSk, ParseEap, IdOf, MskAuthPayload, FinalChain, Sealable, PskAuth, IdBytes, Msk,
         ParseAuth, AuthBytes;
    var msk := Msk(c, r.password, r.ntResponse);
    ProofFound(c, i);
    assert InitiatorOctets(c, i.sa, IdBytes(i.id)) == InitiatorOctets(c, r.sa, r.peerIdi);
    FinalSealable(c, r, msk);
    Delivered(c, r.sa, i.sa, 5, true, FinalChain(c, r, msk), d.iv);
    response := BuildSk(c, r.sa, 5, true, FinalChain(c, r, msk), d.iv).value;
  }

  lemma InitiatorFinishes(c: Crypto, pki: Pki, i: InitiatorState, r: ResponderState, response: Bytes, d: Draw)
    requires Confirmed(i, r) && i.serverVerified
    requires Carries(c, i.sa, response, 5, FinalChain(c, r, Msk(c, r.password, r.ntResponse)))
    ensures InitiatorHandle(c, pki, i, response, d) == (i, Ok(Done(None)))
  {
    hide Decrypt, Find, Raw, ParseEap, IdOf, FinalChain, PskAuth, IdBytes, Msk, ParseAuth, AuthBytes, VerifyServer;
    FinalFound(c, r, Msk(c, r.password, r.ntResponse));
    assert ResponderOctets(c, i.sa, IdBytes(r.id)) == ResponderOctets(c, r.sa, IdBytes(r.id));
  }

  // ----- the joint run -----

  /** Round `k` of a run starting at Message ID `first` is a request and an answer under one Message ID. */
  predicate IdsEcho(rounds: seq<(Bytes, Bytes)>, first: U32) {
    first + |rounds| <= 0x1_0000_0000
    && forall k :: 0 <= k < |rounds| ==> IdOf(rounds[k].0) == Some(first + k) && IdOf(rounds[k].1) == Some(first + k)
  }

  lemma EchoCons(request: Bytes, response: Bytes, first: U32, rounds: seq<(Bytes, Bytes)>)
    requires IdOf(request) == Some(first) && IdOf(response) == Some(first)
    requires first + 1 < 0x1_0000_0000 && IdsEcho(rounds, first + 1)
    ensures IdsEcho([(request, response)] + rounds, first)
  {
    hide IdOf;
    var all := [(request, response)] + rounds;
    forall k | 0 <= k < |all| ensures IdOf(all[k].0) == Some(first + k) && IdOf(all[k].1) == Some(first + k) {
      if k > 0 {
        assert all[k] == rounds[k - 1];
      }
    }
  }

  /** The last round, from confirmed states. */
  lemma LastRound(c: Crypto, pki: Pki, i: InitiatorState, r: ResponderState, request: Bytes, draws: seq<(Draw, Draw)>)
    requires draws != [] && Confirmed(i, r) && i.serverVerified
    requires Carries(c, r.sa, request, 5, MskAuthPayload(c, i)) && Sealable(FinalChain(c, r, []))
    ensures var t := Drive(c, pki, i, r, request, draws);
      && t.initiatorUp && t.responderUp && t.initiator == i && t.responder == r
      && |t.rounds| == 1 && IdsEcho(t.rounds, 5)
  {
    hide ResponderHandle, InitiatorHandle, Matched, Sealable, FinalChain, MskAuthPayload, IdOf, Decrypt, IdBytes, Msk;
    var response := ResponderFinishes(c, i, r, request, draws[0].0);
    InitiatorFinishes(c, pki, i, r, response, draws[0].1);
    assert Drive(c, pki, i, r, request, draws).rounds == [(request, response)];
  }

  /** Rounds three to five: the password is accepted, acknowledged and confirmed. */
  lemma LaterRounds(c: Crypto, pki: Pki, i: InitiatorState, r: ResponderState, peerChallenge: Challenge, request: Bytes,
                    draws: seq<(Draw, Draw)>)
    requires |draws| >= 3 && Matched(i, r) && i.serverVerified
    requires r.user == i.user && r.password == i.password && r.peerIdi == IdBytes(i.id)
    requires i.ntResponse == NtResponseOf(c, r.authChallenge, peerChallenge, i.user, i.password)
    requires Carries(c, r.sa, request, 3, EapPayload(ChallengeResponse(c, i, r, peerChallenge)))
    requires Sealable(FinalChain(c, r, []))
    ensures var t := Drive(c, pki, i, r, request, draws);
      && t.initiatorUp && t.responderUp && t.initiator == i && |t.rounds| == 3 && IdsEcho(t.rounds, 3)
      && t.responder == r.(eapId := t.responder.eapId, ntResponse := i.ntResponse)
  {
    hide ResponderHandle, InitiatorHandle, Sealable, MskAuthPayload, IdOf, IdBytes, Msk, Drive, IdsEcho, Carries,
         EapPayload, ChallengeResponse, NtResponseOf, FinalChain;
    var r3, proof, m3 := ResponderAcceptsPassword(c, i, r, peerChallenge, request, draws[0].0);
    var q4 := InitiatorAcks(c, pki, i, r3, proof, m3, draws[0].1);
    DriveRound(c, pki, i, r, request, draws, i, r3, m3, q4);
    var r4, m4 := ResponderSucceeds(c, i, r3, r3.eapId, q4, draws[1].0);
    var q5 := InitiatorProves(c, pki, i, r4, r3.eapId, m4, draws[1].1);
    DriveRound(c, pki, i, r3, q4, draws[1..], i, r4, m4, q5);
    assert draws[1..][1..] == draws[2..];
    SameFinal(c, r, r4);
    LastRound(c, pki, i, r4, q5, draws[2..]);
    var t5 := Drive(c, pki, i, r4, q5, draws[2..]);
    Ids(c, i.sa, r.sa, request, m3, q4, m4, r, i, peerChallenge, proof, r3);
    EchoCons(q4, m4, 4, t5.rounds);
    EchoCons(request, m3, 3, [(q4, m4)] + t5.rounds);
  }

  /** The Message IDs in what `Carries` says of rounds three and four. */
  lemma Ids(c: Crypto, si: CompletedSaInit, sr: CompletedSaInit, q3: Bytes, m3: Bytes, q4: Bytes, m4: Bytes,
            r: ResponderState, i: InitiatorState, pc: Challenge, proof: Bytes, r3: ResponderState)
    requires Carries(c, sr, q3, 3, EapPayload(ChallengeResponse(c, i, r, pc)))
    requires Carries(c, si, m3, 3, EapPayload(SuccessRequest(r3, proof)))
    requires Carries(c, sr, q4, 4, EapPayload(SuccessResponse(r3.eapId)))
    requires Carries(c, si, m4, 4, EapPayload(EapSuccess(r3.eapId)))
    ensures IdOf(q3) == IdOf(m3) == Some(3) && IdOf(q4) == IdOf(m4) == Some(4)
  {
  }

  /** The last message depends only on configuration. */
  lemma SameFinal(c: Crypto, r: ResponderState, r': ResponderState)
    requires r'.sa == r.sa && r'.id == r.id && r'.assign == r.assign && r'.childSpi == r.childSpi
    ensures FinalChain(c, r', []) == FinalChain(c, r, [])
  {
  }

  lemma SameResponse(c: Crypto, i: InitiatorState, i': InitiatorState, r: ResponderState, peerChallenge: Challenge)
    requires i.user == i'.user && i.password == i'.password
    ensures ChallengeResponse(c, i, r, peerChallenge) == ChallengeResponse(c, i', r, peerChallenge)
  {
  }

  /** The first message, and the sizes of the two that depend on configuration. */
  predicate Startable(c: Crypto, i: InitiatorState, r: ResponderState) {
    && Sealable(StartChain(i)) && Sealable(FinalChain(c, r, []))
    && ServerProof(c, r).Ok? && Sealable(IdentityChain(r, ServerProof(c, r).value))
  }

  lemma StartCarries(c: Crypto, i: InitiatorState, r: ResponderState, iv: Iv)
    requires Agreed(i.sa, r.sa) && Sealable(StartChain(i))
    ensures Start(c, i, iv).Ok? && Carries(c, r.sa, Start(c, i, iv).value, 1, StartChain(i))
  {
    hide SealChain, Sealable, StartChain, IdOf, Decrypt;
    Delivered(c, i.sa, r.sa, 1, false, StartChain(i), iv);
    assert Start(c, i, iv) == BuildSk(c, i.sa, 1, false, StartChain(i), iv);
  }

  /**
   The joint run (section 2.16 of RFC 7296). For any agreed SA pair, any user whose password the
   responder's table holds, any draws of either side and any server check that passes, the exchange
   ends in exactly five rounds with success reported on both sides; the requests carry Message IDs 1 to 5
   and each is echoed; both sides hold the NT-response of the two challenges of round two; and the
   responder has learnt the user and the initiator's CHILD SPI, so the CHILD SAs mirror each other.
   */
  lemma EapEstablishes(c: Crypto, pki: Pki, i: InitiatorState, r: ResponderState, iv: Iv, draws: seq<(Draw, Draw)>)
    requires |draws| >= 5 && Matched(i, r) && Startable(c, i, r)
    requires VerifyServer(c, pki, i, Raw(IdentityChain(r, ServerProof(c, r).value)))
    ensures Start(c, i, iv).Ok?
    ensures var t := Drive(c, pki, i, r, Start(c, i, iv).value, draws);
      && t.initiatorUp && t.responderUp && |t.rounds| == 5 && IdsEcho(t.rounds, 1)
      && t.initiator.ntResponse == t.responder.ntResponse
           == NtResponseOf(c, draws[1].0.challenge, draws[1].1.challenge, i.user, i.password)
      && t.initiator.serverVerified && t.responder.user == i.user && t.responder.peerChildSpi == Some(i.childSpi)
      && Paired(DeriveChild(c, i.sa.keys.skD, i.sa.ni, i.sa.nr, Initiator, i.childSpi, r.childSpi),
                DeriveChild(c, r.sa.keys.skD, r.sa.ni, r.sa.nr, Responder, r.childSpi, t.responder.peerChildSpi.value))
  {
    hide ResponderHandle, InitiatorHandle, Sealable, IdOf, IdBytes, Drive, EapPayload, NtResponseOf, FinalChain,
         StartChain, ServerProof, IdentityChain, VerifyServer, Start, Decrypt, ChallengeRequest, ChallengeResponse,
         IdentityResponse, BuildResponse, Raw, DeriveChild, Paired, IdsEcho;
    StartCarries(c, i, r, iv);
    var q1 := Start(c, i, iv).value;
    var r1, m1 := ResponderStarts(c, i, r, q1, draws[0].0);
    var i1, q2 := InitiatorTrusts(c, pki, i, r, m1, draws[0].1);
    DriveRound(c, pki, i, r, q1, draws, i1, r1, m1, q2);
    var r2, m2 := ResponderChallenges(c, i1, r1, r.eapId, q2, draws[1].0);
    var i2, q3 := InitiatorResponds(c, pki, i1, r2, m2, draws[1].1);
    DriveRound(c, pki, i1, r1, q2, draws[1..], i2, r2, m2, q3);
    assert draws[1..][1..] == draws[2..];
    assert ChallengeResponse(c, i1, r2, draws[1].1.challenge) == ChallengeResponse(c, i2, r2, draws[1].1.challenge) by {
      SameResponse(c, i1, i2, r2, draws[1].1.challenge);
    }
    SameFinal(c, r, r2);
    LaterRounds(c, pki, i2, r2, draws[1].1.challenge, q3, draws[2..]);
    var rest := Drive(c, pki, i2, r2, q3, draws[2..]);
    EchoCons(q2, m2, 2, rest.rounds);
    EchoCons(q1, m1, 1, [(q2, m2)] + rest.rounds);
    ChildrenPair(c, i.sa.keys.skD, i.sa.ni, i.sa.nr, i.childSpi, r.childSpi);
  }

  /** The joint run from the two constructors on; nothing is assumed of the objects but their arguments. */
  lemma FreshEapEstablishes(c: Crypto, pki: Pki, si: CompletedSaInit, sr: CompletedSaInit, idI: Identification,
                            idR: Identification, user: Bytes, users: map<Bytes, Password>, spiI: U32, spiR: U32,
                            verify: ServerVerify, auth: ServerAuth, assign: Option<AssignedConfig>, iv: Iv,
                            draws: seq<(Draw, Draw)>)
    requires Agreed(si, sr) && user in users && |user| + 92 < 0x1_0000 && |draws| >= 5
    requires var i := NewInitiator(si, idI, user, users[user], spiI, verify);
      var r := NewResponder(sr, idR, auth, users, spiR, assign);
      Startable(c, i, r) && VerifyServer(c, pki, i, Raw(IdentityChain(r, ServerProof(c, r).value)))
    ensures var i := NewInitiator(si, idI, user, users[user], spiI, verify);
      var r := NewResponder(sr, idR, auth, users, spiR, assign);
      && Start(c, i, iv).Ok?
      && var t := Drive(c, pki, i, r, Start(c, i, iv).value, draws);
      && t.initiatorUp && t.responderUp && |t.rounds| == 5 && IdsEcho(t.rounds, 1)
      && t.initiator.ntResponse == t.responder.ntResponse
           == NtResponseOf(c, draws[1].0.challenge, draws[1].1.challenge, user, users[user])
      && t.initiator.serverVerified && t.responder.user == user && t.responder.peerChildSpi == Some(spiI)
      && Paired(DeriveChild(c, si.keys.skD, si.ni, si.nr, Initiator, spiI, spiR),
                DeriveChild(c, sr.keys.skD, sr.ni, sr.nr, Responder, spiR, t.responder.peerChildSpi.value))
  {
    hide Startable, VerifyServer, IdentityChain, ServerProof, Raw, Start, Drive, IdsEcho, Agreed, Paired, DeriveChild,
         NtResponseOf;
    EapEstablishes(c, pki, NewInitiator(si, idI, user, users[user], spiI, verify),
                   NewResponder(sr, idR, auth, users, spiR, assign), iv, draws);
  }
}
