/**
 The EAP responder over every run of arbitrary messages: its whole state and its
 success as functions of the messages received. The responder has no phase field,
 so everything here is said in terms of what it stores and the guards it checks.
 */
module EapHistory {
  import opened Common
  import opened Primitives
  import opened Message
  import opened Sk
  import opened PayloadBodies
  import opened SaInit
  import opened IkeAuth
  import opened Eap
  import opened EapAuth
  import opened EapSafety
  import opened IkeAuthAgreement
  import EapRun
  import Rekey

  // ----- what one message says by itself -----

  function EapIn(c: Crypto, sa: CompletedSaInit, m: Bytes): Option<EapPacket> {
    match Decrypt(c, sa, m)
    case Err(_) => None
    case Ok((_, items)) => match Find(items, PtEap)
      case None => None
      case Some(b) => match ParseEap(b)
        case Err(_) => None
        case Ok(p) => Some(p)
  }

  /** The name an EAP Identity claims, if the table knows it. */
  function ClaimIn(c: Crypto, r: ResponderState, m: Bytes): Option<Bytes> {
    match EapIn(c, r.sa, m)
    case None => None
    case Some(p) =>
      if p.data != [] && p.data[0] == TYPE_IDENTITY && p.data[1..] in r.users then Some(p.data[1..]) else None
  }

  /** A well-formed MSCHAPv2 response, right or wrong. */
  function ResponseIn(c: Crypto, r: ResponderState, m: Bytes): Option<Response> {
    match EapIn(c, r.sa, m)
    case None => None
    case Some(p) =>
      if |p.data| > 1 && p.data[0] == TYPE_MSCHAPV2 && p.data[1] == OP_RESPONSE then
        (match ParseResponse(p.data)
         case Err(_) => None
         case Ok(v) => Some(v))
      else None
  }

  datatype Opening = Opening(childSpi: Option<U32>, idi: Bytes)

  /** The SPI and IDi of a message with an SA and neither EAP nor AUTH. */
  function OpeningIn(c: Crypto, r: ResponderState, m: Bytes): Option<Opening> {
    match Decrypt(c, r.sa, m)
    case Err(_) => None
    case Ok((_, items)) =>
      if Find(items, PtEap).Some? || Find(items, PtAuth).Some? then None
      else match Find(items, PtSa)
        case None => None
        case Some(sa) => Some(Opening(SpiAtFixedOffset(sa), match Find(items, PtIdi) case Some(b) => b case None => []))
  }

  // ----- what a run remembers -----

  datatype Kind = Claims | Answers | Openings

  predicate Is(c: Crypto, r: ResponderState, kind: Kind, m: Bytes) {
    match kind
    case Claims => ClaimIn(c, r, m).Some?
    case Answers => ResponseIn(c, r, m).Some?
    case Openings => OpeningIn(c, r, m).Some?
  }

  /** The last of the first `k` messages with a property. */
  function LastWith(p: Bytes -> bool, inputs: Inputs, k: nat): (j: Option<nat>)
    requires k <= |inputs|
    ensures j.Some? ==> j.value < k && p(inputs[j.value].0)
    ensures forall m :: (if j.Some? then j.value + 1 else 0) <= m < k ==> !p(inputs[m].0)
  {
    if k == 0 then None else if p(inputs[k - 1].0) then Some(k - 1) else LastWith(p, inputs, k - 1)
  }

  function Last(c: Crypto, r: ResponderState, kind: Kind, inputs: Inputs, k: nat): (j: Option<nat>)
    requires k <= |inputs|
    ensures j.Some? ==> j.value < k && Is(c, r, kind, inputs[j.value].0)
    ensures forall m :: (if j.Some? then j.value + 1 else 0) <= m < k ==> !Is(c, r, kind, inputs[m].0)
  {
    LastWith(m => Is(c, r, kind, m), inputs, k)
  }

  /** The credential and the challenge after `k` messages: those of the last accepted claim. */
  datatype Selection = Selection(user: Bytes, password: Password, challenge: Challenge)

  function SelectedAt(c: Crypto, r: ResponderState, inputs: Inputs, k: nat): Selection
    requires k <= |inputs|
  {
    match Last(c, r, Claims, inputs, k)
    case None => Selection(r.user, r.password, r.authChallenge)
    case Some(j) =>
      var name := ClaimIn(c, r, inputs[j].0).value;
      Selection(name, r.users[name], inputs[j].1.challenge)
  }

  /** The NT-response after `k` messages: of the last response, under what was selected when it came. */
  function NtAt(c: Crypto, r: ResponderState, inputs: Inputs, k: nat): NtResponse
    requires k <= |inputs|
  {
    match Last(c, r, Answers, inputs, k)
    case None => r.ntResponse
    case Some(j) =>
      var before := SelectedAt(c, r, inputs, j);
      NtResponseOf(c, before.challenge, ResponseIn(c, r, inputs[j].0).value.peerChallenge, before.user, before.password)
  }

  function OpenedAt(c: Crypto, r: ResponderState, inputs: Inputs, k: nat): Opening
    requires k <= |inputs|
  {
    match Last(c, r, Openings, inputs, k)
    case None => Opening(r.peerChildSpi, r.peerIdi)
    case Some(j) => OpeningIn(c, r, inputs[j].0).value
  }

  /** How many of the first `k` messages carry a well-formed EAP packet. */
  function EapCount(c: Crypto, r: ResponderState, inputs: Inputs, k: nat): nat
    requires k <= |inputs|
  {
    if k == 0 then 0 else EapCount(c, r, inputs, k - 1) + if EapIn(c, r.sa, inputs[k - 1].0).Some? then 1 else 0
  }

  /** The whole state after `k` messages, read off the messages alone. */
  function Remembered(c: Crypto, r: ResponderState, inputs: Inputs, k: nat): ResponderState
    requires k <= |inputs|
  {
    var s, o := SelectedAt(c, r, inputs, k), OpenedAt(c, r, inputs, k);
    r.(user := s.user, password := s.password, authChallenge := s.challenge, ntResponse := NtAt(c, r, inputs, k),
       peerIdi := o.idi, peerChildSpi := o.childSpi, eapId := AsU8(r.eapId + EapCount(c, r, inputs, k)))
  }

  // ----- the run -----

  /** The state the object reaches after `k` messages. */
  function ResponderAt(c: Crypto, r: ResponderState, inputs: Inputs, k: nat): ResponderState
    requires k <= |inputs|
  {
    if k == 0 then r else ResponderHandle(c, ResponderAt(c, r, inputs, k - 1), inputs[k - 1].0, inputs[k - 1].1).0
  }

  function ResponderEvent(c: Crypto, r: ResponderState, inputs: Inputs, k: nat): Result<EapEvent>
    requires k < |inputs|
  {
    ResponderHandle(c, ResponderAt(c, r, inputs, k), inputs[k].0, inputs[k].1).1
  }

  /** One step, by what the message says. */
  function Stepped(c: Crypto, st: ResponderState, m: Bytes, d: Draw): ResponderState {
    if OpeningIn(c, st, m).Some? then
      var o := OpeningIn(c, st, m).value;
      st.(peerChildSpi := o.childSpi, peerIdi := o.idi)
    else if EapIn(c, st.sa, m).None? then st
    else
      var bumped := st.(eapId := AsU8(st.eapId + 1));
      if ClaimIn(c, st, m).Some? then
        var name := ClaimIn(c, st, m).value;
        bumped.(user := name, password := st.users[name], authChallenge := d.challenge)
      else if ResponseIn(c, st, m).Some? then
        bumped.(ntResponse := NtResponseOf(c, st.authChallenge, ResponseIn(c, st, m).value.peerChallenge, st.user,
                                           st.password))
      else bumped
  }

  lemma StepIs(c: Crypto, st: ResponderState, m: Bytes, d: Draw)
    ensures ResponderHandle(c, st, m, d).0 == Stepped(c, st, m, d)
  {
    hide Decrypt, Find, ParseEap, ParseResponse, BuildChallenge, BuildSuccess, BuildSk, ResponderFinal, NtResponseOf,
         EapPayload, ServerProof, IdentityChain, SpiAtFixedOffset;
  }

  /** The kinds exclude each other: a message is an opening, a claim, a response or none of them. */
  lemma KindsExclude(c: Crypto, r: ResponderState, m: Bytes)
    ensures OpeningIn(c, r, m).Some? ==> EapIn(c, r.sa, m).None?
    ensures ClaimIn(c, r, m).Some? || ResponseIn(c, r, m).Some? ==> EapIn(c, r.sa, m).Some?
    ensures ClaimIn(c, r, m).Some? ==> ResponseIn(c, r, m).None?
  {
    hide Decrypt, Find, ParseEap, ParseResponse, SpiAtFixedOffset;
  }

  /** What a message says depends on the configuration alone. */
  lemma SameReading(c: Crypto, a: ResponderState, b: ResponderState, m: Bytes)
    requires a.sa == b.sa && a.users == b.users
    ensures ClaimIn(c, a, m) == ClaimIn(c, b, m) && ResponseIn(c, a, m) == ResponseIn(c, b, m)
    ensures OpeningIn(c, a, m) == OpeningIn(c, b, m)
  {
    hide EapIn, Decrypt, Find, ParseResponse, SpiAtFixedOffset;
  }

  /** One more message changes what is remembered as one step changes the state. */
  lemma RememberedStep(c: Crypto, r: ResponderState, inputs: Inputs, k: nat)
    requires 0 < k <= |inputs|
    ensures Remembered(c, r, inputs, k) == Stepped(c, Remembered(c, r, inputs, k - 1), inputs[k - 1].0, inputs[k - 1].1)
  {
    hide EapIn, ClaimIn, ResponseIn, OpeningIn, NtResponseOf;
    var m := inputs[k - 1].0;
    KindsExclude(c, r, m);
    SameReading(c, r, Remembered(c, r, inputs, k - 1), m);
  }

  /**
   The whole state of the responder after any run of arbitrary messages, from any state: the user,
   password and challenge are those of the last accepted identity claim; the NT-response is that of
   the last well-formed response, under what was selected when it came; IDi and the SPI are those of
   the last opening message; the EAP identifier counts the EAP packets; nothing else ever changes.
   Where no such message came, the value is still the one the run started with.
   */
  lemma {:induction false} ResponderHistory(c: Crypto, r: ResponderState, inputs: Inputs, k: nat)
    requires k <= |inputs|
    ensures ResponderAt(c, r, inputs, k) == Remembered(c, r, inputs, k)
  {
    hide ResponderHandle, Stepped, EapIn, ClaimIn, ResponseIn, OpeningIn, NtResponseOf;
    if k > 0 {
      ResponderHistory(c, r, inputs, k - 1);
      StepIs(c, ResponderAt(c, r, inputs, k - 1), inputs[k - 1].0, inputs[k - 1].1);
      RememberedStep(c, r, inputs, k);
    }
  }

  // ----- success -----

  /** The message carries an AUTH and no EAP, and its data is the code of a key and an IDi. */
  predicate Confirms(c: Crypto, r: ResponderState, m: Bytes, password: Password, nt: NtResponse, idi: Bytes) {
    var p := Decrypt(c, r.sa, m);
    && p.Ok? && Find(p.value.1, PtEap).None? && Find(p.value.1, PtAuth).Some?
    && var a := ParseAuth(Find(p.value.1, PtAuth).value);
    && a.Ok? && a.value.data == PskAuth(c, Msk(c, password, nt), InitiatorOctets(c, r.sa, idi))
  }

  lemma StepSucceeds(c: Crypto, st: ResponderState, m: Bytes, d: Draw)
    requires |Rekey.OurSkE(st.sa)| == 36
    ensures var e := ResponderHandle(c, st, m, d).1;
      e.Ok? && e.value.Done? <==> Confirms(c, st, m, st.password, st.ntResponse, st.peerIdi)
  {
    hide Decrypt, Find, ParseEap, ParseResponse, BuildChallenge, BuildSuccess, NtResponseOf, EapPayload, ServerProof,
         IdentityChain, SpiAtFixedOffset, FinalChain, PskAuth, ParseAuth, InitiatorOctets, Msk, SkAad, EncodeChain;
  }

  predicate Succeeds(c: Crypto, r: ResponderState, inputs: Inputs, k: nat)
    requires k < |inputs|
  {
    var e := ResponderEvent(c, r, inputs, k);
    e.Ok? && e.value.Done?
  }

  /** Success at message `k` of any run, exactly: in terms of the messages before it and the configuration. */
  lemma SuccessExactly(c: Crypto, r: ResponderState, inputs: Inputs, k: nat)
    requires |Rekey.OurSkE(r.sa)| == 36 && k < |inputs|
    ensures Succeeds(c, r, inputs, k) <==>
      Confirms(c, r, inputs[k].0, SelectedAt(c, r, inputs, k).password, NtAt(c, r, inputs, k),
               OpenedAt(c, r, inputs, k).idi)
  {
    hide ResponderHandle, ResponderAt, SelectedAt, NtAt, OpenedAt, EapCount, Decrypt, Find, ParseAuth, PskAuth, Msk,
         InitiatorOctets;
    ResponderHistory(c, r, inputs, k);
    StepSucceeds(c, ResponderAt(c, r, inputs, k), inputs[k].0, inputs[k].1);
  }

  /** The stored user is an entry of the table, with its password. */
  predicate IsTableUser(st: ResponderState) {
    st.user in st.users && st.users[st.user] == st.password
  }

  /** The constructor's user is no table entry, unless the table itself has the empty name with the empty password. */
  predicate EmptyEntry(users: map<Bytes, Password>) {
    [] in users && users[[]] == ""
  }

  /** The state of a new object: no name, an empty password, zero challenge and NT-response. */
  lemma FreshNamesNobody(sa: CompletedSaInit, id: Identification, auth: ServerAuth, childSpi: U32,
                         assign: Option<AssignedConfig>)
    ensures !IsTableUser(NewResponder(sa, id, auth, map[], childSpi, assign))
  {
  }

  /**
   From the constructor on, the stored user is a table entry exactly when some earlier message claimed
   a name of the table; otherwise user, password and challenge are still the constructor's.
   */
  lemma TableUserExactly(c: Crypto, sa: CompletedSaInit, id: Identification, auth: ServerAuth,
                         users: map<Bytes, Password>, childSpi: U32, assign: Option<AssignedConfig>, inputs: Inputs,
                         k: nat)
    requires k <= |inputs|
    ensures var r := NewResponder(sa, id, auth, users, childSpi, assign);
      var st := ResponderAt(c, r, inputs, k);
      var claimed := exists j :: 0 <= j < k && Is(c, r, Claims, inputs[j].0);
      && (IsTableUser(st) <==> claimed || EmptyEntry(users))
      && (!claimed ==> st.user == [] && st.password == "" && st.authChallenge == Zeros(16))
  {
    hide ResponderAt, NtAt, OpenedAt, EapCount, EapIn;
    var r := NewResponder(sa, id, auth, users, childSpi, assign);
    ResponderHistory(c, r, inputs, k);
    if j :| 0 <= j < k && Is(c, r, Claims, inputs[j].0) {
      assert Last(c, r, Claims, inputs, k).Some?;
    }
  }

  /**
   When the responder reports success, from the constructor on. For a user of its table: exactly when
   an earlier message claimed a name of the table (or the table has the empty entry) and the AUTH is
   the code of that user's password. For nobody: exactly when no earlier message did and the AUTH is the code of the
   constructor's empty password. So the promise that success authenticates a user of the table holds
   exactly for runs in which a claim was accepted first.
   */
  lemma SuccessForWhom(c: Crypto, sa: CompletedSaInit, id: Identification, auth: ServerAuth,
                       users: map<Bytes, Password>, childSpi: U32, assign: Option<AssignedConfig>, inputs: Inputs,
                       k: nat)
    requires |Rekey.OurSkE(sa)| == 36 && k < |inputs|
    ensures var r := NewResponder(sa, id, auth, users, childSpi, assign);
      var m, nt, idi := inputs[k].0, NtAt(c, r, inputs, k), OpenedAt(c, r, inputs, k).idi;
      var claimed := exists j :: 0 <= j < k && Is(c, r, Claims, inputs[j].0);
      var named := IsTableUser(ResponderAt(c, r, inputs, k));
      && (Succeeds(c, r, inputs, k) && named <==>
            (claimed || EmptyEntry(users)) && Confirms(c, r, m, SelectedAt(c, r, inputs, k).password, nt, idi))
      && (Succeeds(c, r, inputs, k) && !named <==>
            !claimed && !EmptyEntry(users) && Confirms(c, r, m, "", nt, idi))
  {
    hide ResponderAt, ResponderEvent, NtAt, OpenedAt, Is, Confirms, Succeeds, IsTableUser, EmptyEntry, SelectedAt,
         EapCount;
    var r := NewResponder(sa, id, auth, users, childSpi, assign);
    SuccessExactly(c, r, inputs, k);
    TableUserExactly(c, sa, id, auth, users, childSpi, assign, inputs, k);
    ResponderHistory(c, r, inputs, k);
  }

  /** Without a claim the NT-response is zero, or that of the last response under the empty credential. */
  lemma UnclaimedNt(c: Crypto, sa: CompletedSaInit, id: Identification, auth: ServerAuth, users: map<Bytes, Password>,
                    childSpi: U32, assign: Option<AssignedConfig>, inputs: Inputs, k: nat)
    requires k <= |inputs|
    requires forall j :: 0 <= j < k ==> !Is(c, NewResponder(sa, id, auth, users, childSpi, assign), Claims, inputs[j].0)
    ensures var r := NewResponder(sa, id, auth, users, childSpi, assign);
      var last := Last(c, r, Answers, inputs, k);
      NtAt(c, r, inputs, k)
      == if last.None? then Zeros(24)
         else NtResponseOf(c, Zeros(16), ResponseIn(c, r, inputs[last.value].0).value.peerChallenge, [], "")
  {
    hide EapIn, ClaimIn, ResponseIn, OpeningIn, NtResponseOf;
    var r := NewResponder(sa, id, auth, users, childSpi, assign);
    var last := Last(c, r, Answers, inputs, k);
    if last.Some? {
      assert Last(c, r, Claims, inputs, last.value).None?;
    }
  }

  // ----- the second case is inhabited -----

  function ToyCrypto(): Crypto {
    ToyIsLawful();
    Toy()
  }

  /** Under the toy table every shared-key code is the same constant. */
  lemma ToyCodes(psk: Bytes, octets: Bytes)
    ensures PskAuth(ToyCrypto(), psk, octets) == Zeros(32)
  {
  }

  function ToyFinal(): seq<Payload> {
    [Payload(PtAuth, AuthBytes(Authentication(SHARED_KEY, Zeros(32))))]
  }

  lemma ToyFinalRead()
    ensures Sealable(ToyFinal()) && Find(Raw(ToyFinal()), PtEap).None?
    ensures Find(Raw(ToyFinal()), PtAuth) == Some(AuthBytes(Authentication(SHARED_KEY, Zeros(32))))
  {
    hide Find, ChainSize, AuthBytes;
    FindNone(Raw(ToyFinal()), PtEap);
    FindAt(Raw(ToyFinal()), PtAuth, 0);
    SizeNone();
    SizeCons(ToyFinal()[0], []);
    assert ToyFinal() == [ToyFinal()[0]] + [];
  }

  /**
   The second case of `SuccessForWhom` is not vacuous: with the toy primitives it occurs. There every
   code is one constant, so this says that the condition can be met, and nothing of real primitives.
   */
  lemma NobodyIsPossible(si: CompletedSaInit, sr: CompletedSaInit, id: Identification, auth: ServerAuth, childSpi: U32,
                         d: Draw)
    requires Agreed(si, sr)
    ensures var r := NewResponder(sr, id, auth, map[], childSpi, None);
      !IsTableUser(r) && exists m :: Succeeds(ToyCrypto(), r, [(m, d)], 0)
  {
    hide Decrypt, Find, Raw, AuthBytes, ParseAuth, PskAuth, Msk, InitiatorOctets, Succeeds, Sealable, ToyFinal, BuildSk,
         NtAt, OpenedAt, SelectedAt, ToyCrypto;
    var c, r := ToyCrypto(), NewResponder(sr, id, auth, map[], childSpi, None);
    ToyFinalRead();
    EapRun.Delivered(c, si, sr, 1, false, ToyFinal(), d.iv);
    var m := BuildSk(c, si, 1, false, ToyFinal(), d.iv).value;
    var inputs := [(m, d)];
    ToyCodes(Msk(c, SelectedAt(c, r, inputs, 0).password, NtAt(c, r, inputs, 0)),
             InitiatorOctets(c, sr, OpenedAt(c, r, inputs, 0).idi));
    SuccessExactly(c, r, inputs, 0);
    assert Succeeds(c, r, inputs, 0);
  }
}
