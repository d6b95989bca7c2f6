/**
 What the EAP handlers keep over every run of arbitrary messages, whoever sent them.
 */
module EapSafety {
  import opened Common
  import opened Primitives
  import opened Message
  import opened Sk
  import opened PayloadBodies
  import opened SaInit
  import opened CertPath
  import opened IkeAuth
  import opened Eap
  import opened EapAuth
  import opened EapRun
  import Rekey

  // ----- runs of the initiator -----

  type Inputs = seq<(Bytes, Draw)>

  /** The state after the first `k` inputs. */
  function StateAt(c: Crypto, pki: Pki, st: InitiatorState, inputs: Inputs, k: nat): InitiatorState
    requires k <= |inputs|
  {
    if k == 0 then st
    else InitiatorHandle(c, pki, StateAt(c, pki, st, inputs, k - 1), inputs[k - 1].0, inputs[k - 1].1).0
  }

  /** What input `k` produces. */
  function EventAt(c: Crypto, pki: Pki, st: InitiatorState, inputs: Inputs, k: nat): Result<EapEvent>
    requires k < |inputs|
  {
    InitiatorHandle(c, pki, StateAt(c, pki, st, inputs, k), inputs[k].0, inputs[k].1).1
  }

  /** A message that opens, claims to authenticate the server, and does. */
  predicate ProvesServer(c: Crypto, pki: Pki, st: InitiatorState, message: Bytes) {
    var d := Decrypt(c, st.sa, message);
    && d.Ok? && Find(d.value.1, PtIdr).Some? && Find(d.value.1, PtAuth).Some?
    && VerifyServer(c, pki, st, d.value.1)
  }

  /** The method of the first AUTH payload of a message. */
  function AuthMethod(c: Crypto, sa: CompletedSaInit, message: Bytes): Option<Byte> {
    match Decrypt(c, sa, message)
    case Err(_) => None
    case Ok((_, items)) =>
      match Find(items, PtAuth)
      case None => None
      case Some(b) => match ParseAuth(b)
        case Err(_) => None
        case Ok(a) => Some(a.authMethod)
  }

  /** The parts of the state that no step changes. */
  predicate SameConfig(a: InitiatorState, b: InitiatorState) {
    a == b.(ntResponse := a.ntResponse, serverVerified := a.serverVerified)
  }

  /**
   One step on any message: the configuration stays, and the flag rises exactly on a message that
   proves the server.
   */
  lemma StepFlag(c: Crypto, pki: Pki, st: InitiatorState, message: Bytes, d: Draw)
    ensures var st' := InitiatorHandle(c, pki, st, message, d).0;
      SameConfig(st', st) && (st'.serverVerified <==> st.serverVerified || ProvesServer(c, pki, st, message))
  {
    hide Decrypt, VerifyServer, Find, ParseEap, ParseChallenge, BuildResponse, BuildSk, InitiatorFinal, MskAuthPayload,
         NtResponseOf;
  }

  /** A check of the server depends on the configuration alone. */
  lemma SameCheck(c: Crypto, pki: Pki, a: InitiatorState, b: InitiatorState, message: Bytes)
    requires SameConfig(a, b)
    ensures ProvesServer(c, pki, a, message) == ProvesServer(c, pki, b, message)
  {
    hide Decrypt, Find, ParseAuth, VerifyCertAuth, CertsOf, ResponderOctets;
  }

  /** No step with a trust anchor produces anything but failure before the server is proved. */
  lemma StepGate(c: Crypto, pki: Pki, st: InitiatorState, message: Bytes, d: Draw)
    requires st.verify.TrustedCas?
    requires var e := InitiatorHandle(c, pki, st, message, d).1; e.Ok? && !e.value.Failed?
    ensures st.serverVerified || ProvesServer(c, pki, st, message)
  {
    hide Decrypt, VerifyServer, Find, ParseEap, InitiatorContinue;
  }

  /** The final message: SA and AUTH without EAP, the AUTH being the shared-key code of the MSK. */
  predicate Finishes(c: Crypto, st: InitiatorState, message: Bytes, nt: NtResponse) {
    var d := Decrypt(c, st.sa, message);
    && d.Ok? && Find(d.value.1, PtEap).None? && Find(d.value.1, PtSa).Some? && Find(d.value.1, PtAuth).Some?
    && var idr := match Find(d.value.1, PtIdr) case Some(b) => b case None => [];
    var a := ParseAuth(Find(d.value.1, PtAuth).value);
    && a.Ok? && a.value.authMethod == SHARED_KEY
    && a.value.data == PskAuth(c, Msk(c, st.password, nt), ResponderOctets(c, st.sa, idr))
  }

  lemma FinishMethod(c: Crypto, st: InitiatorState, message: Bytes, nt: NtResponse)
    requires Finishes(c, st, message, nt)
    ensures AuthMethod(c, st.sa, message) == Some(SHARED_KEY)
  {
    hide Decrypt, Find, ParseAuth, PskAuth, Msk, ResponderOctets;
  }

  /**
   One step reports success exactly on a final message after the server was proved. A server proof
   carries a digital signature and a final message a shared-key code, so no message is both.
   */
  lemma StepDone(c: Crypto, pki: Pki, st: InitiatorState, message: Bytes, d: Draw)
    requires st.verify.TrustedCas?
    ensures var e := InitiatorHandle(c, pki, st, message, d).1;
      e.Ok? && e.value.Done? <==> st.serverVerified && Finishes(c, st, message, st.ntResponse)
  {
    hide Decrypt, Find, ParseEap, ParseAuth, VerifyServer, ParseChallenge, BuildResponse, NtResponseOf, EapPayload,
         BuildSk, MskAuthPayload, Msk, PskAuth, ResponderOctets;
    if ProvesServer(c, pki, st, message) {
      ProofMethod(c, pki, st, message);
    }
  }

  lemma ProofMethod(c: Crypto, pki: Pki, st: InitiatorState, message: Bytes)
    requires st.verify.TrustedCas? && ProvesServer(c, pki, st, message)
    ensures AuthMethod(c, st.sa, message) == Some(DIGITAL_SIGNATURE)
  {
    hide Decrypt, Find, ParseAuth, VerifyCertAuth, CertsOf, ResponderOctets;
  }

  /** The flag after `k` inputs says exactly whether one of them proved the server. */
  lemma {:induction false} FlagExact(c: Crypto, pki: Pki, st: InitiatorState, inputs: Inputs, k: nat)
    requires k <= |inputs| && !st.serverVerified
    ensures var st' := StateAt(c, pki, st, inputs, k);
      SameConfig(st', st) && (st'.serverVerified <==> exists j :: 0 <= j < k && ProvesServer(c, pki, st, inputs[j].0))
  {
    hide InitiatorHandle, ProvesServer;
    if k > 0 {
      FlagExact(c, pki, st, inputs, k - 1);
      var before := StateAt(c, pki, st, inputs, k - 1);
      StepFlag(c, pki, before, inputs[k - 1].0, inputs[k - 1].1);
      SameCheck(c, pki, before, st, inputs[k - 1].0);
    }
  }

  // ----- the state of a run -----

  /** Some of the first `k` messages proved the server. */
  predicate Proved(c: Crypto, pki: Pki, st: InitiatorState, inputs: Inputs, k: nat)
    requires k <= |inputs|
  {
    exists j :: 0 <= j < k && ProvesServer(c, pki, st, inputs[j].0)
  }

  /** The challenge of a well-formed EAP-MSCHAPv2 challenge, in a packet that is neither Success nor Failure. */
  function ChallengeIn(c: Crypto, sa: CompletedSaInit, message: Bytes): Option<Challenge> {
    match Decrypt(c, sa, message)
    case Err(_) => None
    case Ok((_, items)) => match Find(items, PtEap)
      case None => None
      case Some(b) => match ParseEap(b)
        case Err(_) => None
        case Ok(p) =>
          if && p.code != CODE_FAILURE && p.code != CODE_SUCCESS
             && |p.data| > 1 && p.data[0] == TYPE_MSCHAPV2 && p.data[1] == OP_CHALLENGE
          then
            (match ParseChallenge(p.data)
             case Err(_) => None
             case Ok((_, challenge, _)) => Some(challenge))
          else None
  }

  /** Message `j` is a challenge that the initiator answers: the server is proved by then. */
  predicate Answered(c: Crypto, pki: Pki, st: InitiatorState, inputs: Inputs, j: nat)
    requires j < |inputs|
  {
    ChallengeIn(c, st.sa, inputs[j].0).Some? && Proved(c, pki, st, inputs, j + 1)
  }

  /** The last of the first `k` messages that is an answered challenge. */
  function LastAnswered(c: Crypto, pki: Pki, st: InitiatorState, inputs: Inputs, k: nat): (j: Option<nat>)
    requires k <= |inputs|
    ensures j.Some? ==> j.value < k && Answered(c, pki, st, inputs, j.value)
  {
    LastBelow((j: nat) => j < |inputs| && Answered(c, pki, st, inputs, j), k)
  }

  /** The NT-response after `k` messages: to the last answered challenge, under the peer challenge drawn for it. */
  function NtAfter(c: Crypto, pki: Pki, st: InitiatorState, inputs: Inputs, k: nat): NtResponse
    requires k <= |inputs|
  {
    match LastAnswered(c, pki, st, inputs, k)
    case None => st.ntResponse
    case Some(j) =>
      NtResponseOf(c, ChallengeIn(c, st.sa, inputs[j].0).value, inputs[j].1.challenge, st.user, st.password)
  }

  /** One step answers a challenge exactly when the server is proved by then. */
  lemma StepNt(c: Crypto, pki: Pki, st: InitiatorState, message: Bytes, d: Draw)
    requires st.verify.TrustedCas?
    ensures var nt := InitiatorHandle(c, pki, st, message, d).0.ntResponse;
      var challenge := ChallengeIn(c, st.sa, message);
      nt == if challenge.Some? && (st.serverVerified || ProvesServer(c, pki, st, message))
            then NtResponseOf(c, challenge.value, d.challenge, st.user, st.password) else st.ntResponse
  {
    hide Decrypt, VerifyServer, Find, ParseEap, ParseChallenge, BuildResponse, BuildSk, InitiatorFinal, MskAuthPayload,
         NtResponseOf;
  }

  /**
   The whole state of the initiator after any run of arbitrary messages: the flag says whether one of
   them proved the server, the NT-response is that of the last challenge answered, and nothing else changes.
   */
  lemma {:induction false} InitiatorHistory(c: Crypto, pki: Pki, st: InitiatorState, inputs: Inputs, k: nat)
    requires st.verify.TrustedCas? && !st.serverVerified && k <= |inputs|
    ensures StateAt(c, pki, st, inputs, k)
      == st.(serverVerified := Proved(c, pki, st, inputs, k), ntResponse := NtAfter(c, pki, st, inputs, k))
  {
    hide InitiatorHandle, ProvesServer, ChallengeIn, NtResponseOf;
    FlagExact(c, pki, st, inputs, k);
    if k > 0 {
      InitiatorHistory(c, pki, st, inputs, k - 1);
      var before := StateAt(c, pki, st, inputs, k - 1);
      FlagExact(c, pki, st, inputs, k - 1);
      StepNt(c, pki, before, inputs[k - 1].0, inputs[k - 1].1);
      SameCheck(c, pki, before, st, inputs[k - 1].0);
      assert Proved(c, pki, st, inputs, k) <==>
        Proved(c, pki, st, inputs, k - 1) || ProvesServer(c, pki, st, inputs[k - 1].0);
    }
  }

  // ----- the firewall -----

  /** What the firewall says of message `k` of a run. */
  ghost predicate Guarded(c: Crypto, pki: Pki, st: InitiatorState, inputs: Inputs, k: nat)
    requires k < |inputs|
  {
    var e := EventAt(c, pki, st, inputs, k);
    && (e.Ok? && !e.value.Failed? ==> Proved(c, pki, st, inputs, k + 1))
    && (StateAt(c, pki, st, inputs, k).serverVerified ==> StateAt(c, pki, st, inputs, k + 1).serverVerified)
    && (e.Ok? && e.value.Done? <==>
          Proved(c, pki, st, inputs, k) && Finishes(c, st, inputs[k].0, NtAfter(c, pki, st, inputs, k)))
    && (e.Ok? && e.value.Done? ==>
          && AuthMethod(c, st.sa, inputs[k].0) == Some(SHARED_KEY)
          && exists j :: 0 <= j < k && ProvesServer(c, pki, st, inputs[j].0)
                      && AuthMethod(c, st.sa, inputs[j].0) == Some(DIGITAL_SIGNATURE))
  }

  /**
   The credential firewall, over every run of arbitrary messages of an initiator that trusts only
   its CAs: (1) nothing but failure comes out before a message has proved the server, (2) the flag
   never goes back, and (3) the run establishes at message `k` if and only if a strictly earlier one
   proved the server and `k` carries, with an SA and without EAP, the shared-key code of the MSK of
   our password and of the NT-response to the last challenge answered. The earlier message proved
   the server by digital signature, so it is never the same message.
   */
  lemma CredentialFirewall(c: Crypto, pki: Pki, st: InitiatorState, inputs: Inputs, k: nat)
    requires st.verify.TrustedCas? && !st.serverVerified && k < |inputs|
    ensures Guarded(c, pki, st, inputs, k)
  {
    hide InitiatorHandle, ProvesServer, AuthMethod, Finishes, NtAfter;
    var before := StateAt(c, pki, st, inputs, k);
    InitiatorHistory(c, pki, st, inputs, k);
    StepFlag(c, pki, before, inputs[k].0, inputs[k].1);
    SameCheck(c, pki, before, st, inputs[k].0);
    StepDone(c, pki, before, inputs[k].0, inputs[k].1);
    SameFinish(c, before, st, inputs[k].0, before.ntResponse);
    var e := EventAt(c, pki, st, inputs, k);
    if e.Ok? && !e.value.Failed? {
      StepGate(c, pki, before, inputs[k].0, inputs[k].1);
    }
    if e.Ok? && e.value.Done? {
      FinishMethod(c, st, inputs[k].0, before.ntResponse);
      var j :| 0 <= j < k && ProvesServer(c, pki, st, inputs[j].0);
      ProofMethod(c, pki, st, inputs[j].0);
    }
  }

  lemma SameFinish(c: Crypto, a: InitiatorState, b: InitiatorState, message: Bytes, nt: NtResponse)
    requires SameConfig(a, b)
    ensures Finishes(c, a, message, nt) == Finishes(c, b, message, nt)
  {
    hide Decrypt, Find, ParseAuth, PskAuth, Msk, ResponderOctets;
  }

  /** The firewall from the object's constructor on, for every configuration with trust anchors. */
  lemma FreshFirewall(c: Crypto, pki: Pki, sa: CompletedSaInit, id: Identification, user: Bytes, password: Password,
                      childSpi: U32, cas: seq<Bytes>, dns: string, now: nat, inputs: Inputs, k: nat)
    requires k < |inputs|
    ensures Guarded(c, pki, NewInitiator(sa, id, user, password, childSpi, TrustedCas(cas, dns, now)), inputs, k)
  {
    hide Guarded;
    CredentialFirewall(c, pki, NewInitiator(sa, id, user, password, childSpi, TrustedCas(cas, dns, now)), inputs, k);
  }

  // ----- Message IDs -----

  lemma BuiltId(c: Crypto, sa: CompletedSaInit, msgId: U32, isResponse: bool, ps: seq<Payload>, iv: Iv)
    ensures var m := BuildSk(c, sa, msgId, isResponse, ps, iv); m.Ok? ==> IdOf(m.value) == Some(msgId)
  {
    hide HeaderBytes, ParseHeader, EncodeChain, SkAad;
    var m := BuildSk(c, sa, msgId, isResponse, ps, iv);
    if m.Ok? {
      var h, first, inner := EapHeader(sa, msgId, isResponse), FirstType(ps), EncodeChain(ps);
      var ct := GcmSeal(c, Rekey.OurSkE(sa), iv, SkAad(h, first, inner), inner + [0]).value;
      SkHeaderReads(h, first, inner, iv + ct);
      assert m.value == SkAad(h, first, inner) + (iv + ct);
    }
  }

  /** The message an event sends, if it sends one. */
  function Sent(e: Result<EapEvent>): Option<Bytes> {
    match e
    case Ok(Reply(m)) => Some(m)
    case Ok(Done(Some(m))) => Some(m)
    case _ => None
  }

  /** Every request the initiator sends has the Message ID after that of the response it answers. */
  lemma InitiatorAdvances(c: Crypto, pki: Pki, st: InitiatorState, message: Bytes, d: Draw)
    ensures var out := Sent(InitiatorHandle(c, pki, st, message, d).1);
      out.Some? ==> IdOf(message).Some? && IdOf(out.value) == Some(AsU32(IdOf(message).value + 1))
  {
    hide OpenWalk, ParseHeader, VerifyServer, Find, ParseEap, ParseChallenge, BuildResponse, BuildSk, MskAuthPayload,
         NtResponseOf, PskAuth, ParseAuth, EapPayload;
    if Decrypt(c, st.sa, message).Ok? {
      var next := AsU32(Decrypt(c, st.sa, message).value.0 + 1);
      forall ps ensures var m := BuildSk(c, st.sa, next, false, ps, d.iv); m.Ok? ==> IdOf(m.value) == Some(next) {
        BuiltId(c, st.sa, next, false, ps, d.iv);
      }
    }
  }

  /** Every answer of the responder echoes the Message ID of the request, in any state and to any message. */
  lemma ResponderEchoes(c: Crypto, st: ResponderState, message: Bytes, d: Draw)
    ensures var out := Sent(ResponderHandle(c, st, message, d).1); out.Some? ==> IdOf(out.value) == IdOf(message)
  {
    hide OpenWalk, ParseHeader, Find, ParseEap, ParseResponse, BuildChallenge, BuildSuccess, BuildSk, FinalChain,
         NtResponseOf, PskAuth, ParseAuth, EapPayload, ServerProof, IdentityChain, SpiAtFixedOffset, Msk;
    if Decrypt(c, st.sa, message).Ok? {
      var id := Decrypt(c, st.sa, message).value.0;
      forall ps ensures var m := BuildSk(c, st.sa, id, true, ps, d.iv); m.Ok? ==> IdOf(m.value) == Some(id) {
        BuiltId(c, st.sa, id, true, ps, d.iv);
      }
    }
  }
}
