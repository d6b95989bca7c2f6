/**
 The IKEv2 server's session tables (src/ikev2/server.rs) over every run of
 datagrams; the transport is a parameter of each step.
 */
module Server2 {
  import opened Common
  import opened Primitives
  import opened Message
  import opened Sk
  import opened PayloadBodies
  import opened SaInit
  import opened CertPath
  import opened IkeAuth
  import opened IkeAuthExact
  import opened EspTunnel
  import Negotiate
  import Dh
  import KeySchedule
  import SaInitExact

  type SpiPair = (U64, U64)

  datatype ServerEvent =
    | SaInitEvent(spiI: U64, spiR: U64)
    | EstablishedEvent(spiI: U64, spiR: U64, peerId: Identification)
    | Ignored

  datatype DriverError = Ike(error: IkeError) | Io

  datatype Outcome = Event(event: ServerEvent) | Failed(error: DriverError)

  datatype ServerState = ServerState(sessions: map<SpiPair, CompletedSaInit>, children: map<SpiPair, ChildSa>)

  /** What the outside contributes to one call: the datagram, the draws, and whether the answer goes out. */
  datatype Input = Input(data: Bytes, local: LocalSecret, childSpi: U32, iv: Iv, sends: bool)

  /** `responder_respond`: no NAT detection, no cookie policy. */
  function RespondPlain(c: Crypto, request: Bytes, local: LocalSecret): Result<(Bytes, CompletedSaInit)> {
    match Respond(c, request, local, None, None)
    case Err(e) => Err(e)
    case Ok(Established(response, sa)) => Ok((response, sa))
    case Ok(InvalidKe(_, group)) => Err(DhGroupMismatch(group, group))
    case Ok(CookieRequired(_)) => Err(NoProposalChosen)
  }

  /** The last two branches are never taken: without NAT detection and policy the responder establishes or fails. */
  lemma PlainAnswersFinally(c: Crypto, request: Bytes, local: LocalSecret)
    ensures var r := Respond(c, request, local, None, None); r.Ok? ==> r.value.Established?
    ensures var p := RespondPlain(c, request, local);
      p.Ok? ==> p.value.1.role == Responder && p.value.1.spiR == local.spi && p.value.1.initMessage == request
  {
    hide ParseHeader, ParseSaInit, Negotiate.Select, Dh.Shared, Dh.Public, DhPeer, KeySchedule.DeriveSessionKeys,
         BuildSaInit, Negotiate.ToProposal, Negotiate.KeyLengthsOf, NotifyResponse;
  }

  function HandleSaInit(c: Crypto, s: ServerState, x: Input): (ServerState, Outcome) {
    match RespondPlain(c, x.data, x.local)
    case Err(e) => (s, Failed(Ike(e)))
    case Ok((_, sa)) =>
      if !x.sends then (s, Failed(Io))
      else (s.(sessions := s.sessions[(sa.spiI, sa.spiR) := sa]), Event(SaInitEvent(sa.spiI, sa.spiR)))
  }

  function HandleAuth(c: Crypto, pki: Pki, auth: AuthConfig, s: ServerState, key: SpiPair,
                      x: Input): (ServerState, Outcome) {
    if key !in s.sessions then (s, Event(Ignored))
    else
      var sa := s.sessions[key];
      match ResponderProcessAuth(c, pki, sa, x.data, auth, x.childSpi, x.iv, None)
      case Err(e) => (s, Failed(Ike(e)))
      case Ok((_, peerId, peerSpi)) =>
        if !x.sends then (s, Failed(Io))
        else (s.(children := s.children[key := DeriveChild(c, sa.keys.skD, sa.ni, sa.nr, Responder, x.childSpi,
                                                           peerSpi)]),
              Event(EstablishedEvent(key.0, key.1, peerId)))
  }

  function Handle(c: Crypto, pki: Pki, auth: AuthConfig, s: ServerState, x: Input): (ServerState, Outcome) {
    match ParseHeader(x.data)
    case Err(e) => (s, Failed(Ike(e)))
    case Ok(h) =>
      if h.exchange == ExSaInit then HandleSaInit(c, s, x)
      else if h.exchange == ExAuth then HandleAuth(c, pki, auth, s, (h.initiatorSpi, h.responderSpi), x)
      else (s, Event(Ignored))
  }

  function WithoutChild(s: ServerState, key: SpiPair): ServerState {
    s.(children := s.children - {key})
  }

  /** The server object: two maps that its methods update. */
  class Server {
    const auth: AuthConfig
    var sessions: map<SpiPair, CompletedSaInit>
    var children: map<SpiPair, ChildSa>

    function State(): ServerState
      reads this
    {
      ServerState(sessions, children)
    }

    constructor (config: AuthConfig)
      ensures State() == ServerState(map[], map[]) && auth == config
    {
      auth, sessions, children := config, map[], map[];
    }

    method TakeChild(key: SpiPair) returns (child: Option<ChildSa>)
      modifies this`children
      ensures child == if key in old(children) then Some(old(children)[key]) else None
      ensures State() == WithoutChild(old(State()), key)
    {
      child := if key in children then Some(children[key]) else None;
      children := children - {key};
    }

    method HandleOne(c: Crypto, pki: Pki, x: Input) returns (r: Outcome)
      modifies this
      ensures (State(), r) == Handle(c, pki, auth, old(State()), x)
    {
      hide ParseHeader, RespondPlain, ResponderProcessAuth, DeriveChild;
      var parsed := ParseHeader(x.data);
      if parsed.Err? {
        return Failed(Ike(parsed.error));
      }
      if parsed.value.exchange == ExSaInit {
        var answer := RespondPlain(c, x.data, x.local);
        if answer.Err? {
          return Failed(Ike(answer.error));
        }
        if !x.sends {
          return Failed(Io);
        }
        var sa := answer.value.1;
        sessions := sessions[(sa.spiI, sa.spiR) := sa];
        return Event(SaInitEvent(sa.spiI, sa.spiR));
      }
      if parsed.value.exchange == ExAuth {
        var key := (parsed.value.initiatorSpi, parsed.value.responderSpi);
        if key !in sessions {
          return Event(Ignored);
        }
        var sa := sessions[key];
        var processed := ResponderProcessAuth(c, pki, sa, x.data, auth, x.childSpi, x.iv, None);
        if processed.Err? {
          return Failed(Ike(processed.error));
        }
        if !x.sends {
          return Failed(Io);
        }
        var (_, peerId, peerSpi) := processed.value;
        children := children[key := DeriveChild(c, sa.keys.skD, sa.ni, sa.nr, Responder, x.childSpi, peerSpi)];
        return Event(EstablishedEvent(key.0, key.1, peerId));
      }
      return Event(Ignored);
    }
  }

  // ----- runs -----

  datatype Op = Datagram(x: Input) | Take(key: SpiPair)

  function Step(c: Crypto, pki: Pki, auth: AuthConfig, s: ServerState, op: Op): (ServerState, Option<Outcome>) {
    match op
    case Datagram(x) =>
      var (s', r) := Handle(c, pki, auth, s, x);
      (s', Some(r))
    case Take(key) => (WithoutChild(s, key), None)
  }

  /** The state after the first `k` calls on a fresh server. */
  function StateAt(c: Crypto, pki: Pki, auth: AuthConfig, ops: seq<Op>, k: nat): ServerState
    requires k <= |ops|
  {
    if k == 0 then ServerState(map[], map[]) else Step(c, pki, auth, StateAt(c, pki, auth, ops, k - 1), ops[k - 1]).0
  }

  function OutcomeAt(c: Crypto, pki: Pki, auth: AuthConfig, ops: seq<Op>, k: nat): Option<Outcome>
    requires k < |ops|
  {
    Step(c, pki, auth, StateAt(c, pki, auth, ops, k), ops[k]).1
  }

  /** Call `k` answers an IKE_SA_INIT for the pair. */
  predicate OpensPair(c: Crypto, pki: Pki, auth: AuthConfig, ops: seq<Op>, k: nat, key: SpiPair) {
    k < |ops| && OutcomeAt(c, pki, auth, ops, k) == Some(Event(SaInitEvent(key.0, key.1)))
  }

  /** Call `k` establishes the pair, with some verified peer. */
  predicate EstablishesPair(c: Crypto, pki: Pki, auth: AuthConfig, ops: seq<Op>, k: nat, key: SpiPair) {
    k < |ops| && var o := OutcomeAt(c, pki, auth, ops, k);
    o.Some? && o.value.Event? && o.value.event.EstablishedEvent? && (o.value.event.spiI, o.value.event.spiR) == key
  }

  /** What one step does to the session of one pair. */
  lemma StepSession(c: Crypto, pki: Pki, auth: AuthConfig, s: ServerState, op: Op, key: SpiPair)
    ensures var (s', r) := Step(c, pki, auth, s, op);
      && (r == Some(Event(SaInitEvent(key.0, key.1))) ==>
            && op.Datagram? && RespondPlain(c, op.x.data, op.x.local).Ok?
            && key in s'.sessions && s'.sessions[key] == RespondPlain(c, op.x.data, op.x.local).value.1)
      && (r != Some(Event(SaInitEvent(key.0, key.1))) ==>
            (key in s'.sessions <==> key in s.sessions) && (key in s.sessions ==> s'.sessions[key] == s.sessions[key]))
  {
    hide ParseHeader, RespondPlain, ResponderProcessAuth, DeriveChild;
  }

  /** What one step does to the child of one pair. */
  lemma StepChild(c: Crypto, pki: Pki, auth: AuthConfig, s: ServerState, op: Op, key: SpiPair)
    ensures var (s', r) := Step(c, pki, auth, s, op);
      var up := r.Some? && r.value.Event? && r.value.event.EstablishedEvent?
        && (r.value.event.spiI, r.value.event.spiR) == key;
      && (up ==>
            && op.Datagram? && key in s.sessions && key in s'.children
            && var p := ResponderProcessAuth(c, pki, s.sessions[key], op.x.data, auth, op.x.childSpi, op.x.iv, None);
            && p.Ok? && r.value.event.peerId == p.value.1
            && s'.children[key] == DeriveChild(c, s.sessions[key].keys.skD, s.sessions[key].ni, s.sessions[key].nr,
                                               Responder, op.x.childSpi, p.value.2))
      && (!up && op != Take(key) ==>
            && (key in s'.children <==> key in s.children)
            && (key in s.children ==> s'.children[key] == s.children[key]))
  {
    hide ParseHeader, RespondPlain, ResponderProcessAuth, DeriveChild;
  }

  lemma {:induction false} ChildrenHaveSessions(c: Crypto, pki: Pki, auth: AuthConfig, ops: seq<Op>, k: nat)
    requires k <= |ops|
    ensures StateAt(c, pki, auth, ops, k).children.Keys <= StateAt(c, pki, auth, ops, k).sessions.Keys
  {
    hide Step;
    if k > 0 {
      ChildrenHaveSessions(c, pki, auth, ops, k - 1);
      var s, s' := StateAt(c, pki, auth, ops, k - 1), StateAt(c, pki, auth, ops, k);
      forall key | key in s'.children ensures key in s'.sessions {
        TakenStep(c, pki, auth, s, ops[k - 1], key);
        StepChild(c, pki, auth, s, ops[k - 1], key);
        StepSession(c, pki, auth, s, ops[k - 1], key);
      }
    }
  }

  lemma TakenStep(c: Crypto, pki: Pki, auth: AuthConfig, s: ServerState, op: Op, key: SpiPair)
    ensures op == Take(key) ==> key !in Step(c, pki, auth, s, op).0.children
  {
  }

  /** The session of a pair comes from the latest answered IKE_SA_INIT for it. */
  lemma {:induction false} OpenedBy(c: Crypto, pki: Pki, auth: AuthConfig, ops: seq<Op>, k: nat, key: SpiPair)
    returns (i: nat)
    requires k <= |ops| && key in StateAt(c, pki, auth, ops, k).sessions
    ensures i < k && OpensPair(c, pki, auth, ops, i, key) && ops[i].Datagram?
    ensures RespondPlain(c, ops[i].x.data, ops[i].x.local).Ok?
    ensures StateAt(c, pki, auth, ops, k).sessions[key] == RespondPlain(c, ops[i].x.data, ops[i].x.local).value.1
    ensures forall m :: i < m < k ==> !OpensPair(c, pki, auth, ops, m, key)
  {
    hide Step, RespondPlain;
    StepSession(c, pki, auth, StateAt(c, pki, auth, ops, k - 1), ops[k - 1], key);
    if OpensPair(c, pki, auth, ops, k - 1, key) {
      i := k - 1;
    } else {
      i := OpenedBy(c, pki, auth, ops, k - 1, key);
    }
  }

  /**
   Every Established, in any run, follows an answered IKE_SA_INIT of the same SPI pair; the IKE_AUTH
   opens under the keys of the latest one and carries an AUTH that proves the configured peer over
   its messages, the reported identity is the one in it, and the stored child is derived from it.
   */
  lemma EstablishedFrom(c: Crypto, pki: Pki, auth: AuthConfig, ops: seq<Op>, k: nat, key: SpiPair) returns (i: nat)
    requires EstablishesPair(c, pki, auth, ops, k, key)
    ensures i < k && OpensPair(c, pki, auth, ops, i, key)
    ensures forall m :: i < m < k ==> !OpensPair(c, pki, auth, ops, m, key)
    ensures ops[i].Datagram? && ops[k].Datagram? && key in StateAt(c, pki, auth, ops, k + 1).children
    ensures var answered := RespondPlain(c, ops[i].x.data, ops[i].x.local);
      && answered.Ok?
      && var sa := answered.value.1;
      var p := ResponderProcessAuth(c, pki, sa, ops[k].x.data, auth, ops[k].x.childSpi, ops[k].x.iv, None);
      && p.Ok? && OutcomeAt(c, pki, auth, ops, k).value.event.peerId == p.value.1
      && AuthenticRequest(c, pki, auth.peer, sa, ops[k].x.data, p.value.1, p.value.2)
      && StateAt(c, pki, auth, ops, k + 1).children[key]
          == DeriveChild(c, sa.keys.skD, sa.ni, sa.nr, Responder, ops[k].x.childSpi, p.value.2)
  {
    hide Step, RespondPlain, ResponderProcessAuth, DeriveChild, AuthenticRequest, OpenWalk, Readable, PeerProof,
         LastId, OfferedSpi;
    StepChild(c, pki, auth, StateAt(c, pki, auth, ops, k), ops[k], key);
    i := OpenedBy(c, pki, auth, ops, k, key);
    var sa := StateAt(c, pki, auth, ops, k).sessions[key];
    ResponderAuthExactly(c, pki, sa, ops[k].x.data, auth, ops[k].x.childSpi, ops[k].x.iv, None);
  }

  /**
   Exactly when a call of a run establishes a pair: an IKE_AUTH datagram for it arrives, the pair has a
   session, the answer goes out, and the session accepts the message.
   */
  lemma EstablishedExactly(c: Crypto, pki: Pki, auth: AuthConfig, ops: seq<Op>, k: nat, key: SpiPair)
    ensures EstablishesPair(c, pki, auth, ops, k, key) <==>
      && k < |ops| && ops[k].Datagram? && key in StateAt(c, pki, auth, ops, k).sessions
      && Accepted(c, pki, auth, StateAt(c, pki, auth, ops, k).sessions[key], key, ops[k].x)
  {
    hide StateAt, ParseHeader, RespondPlain, ResponderProcessAuth, DeriveChild;
  }

  /**
   Exactly when a call opens a session: an IKE_SA_INIT datagram that says something acceptable arrives and
   the answer goes out. The pair is the SPI of the datagram and the one drawn.
   */
  lemma SaInitExactly(c: Crypto, pki: Pki, auth: AuthConfig, ops: seq<Op>, k: nat, key: SpiPair)
    ensures k < |ops| && OutcomeAt(c, pki, auth, ops, k) == Some(Event(SaInitEvent(key.0, key.1))) <==>
      && k < |ops| && ops[k].Datagram? && ops[k].x.sends && |ops[k].x.data| >= HEADER_LEN
      && ParseHeader(ops[k].x.data).value.exchange == ExSaInit
      && key == (GetU64(ops[k].x.data, 0), ops[k].x.local.spi)
      && var said := SaInitExact.Reading(ops[k].x.data);
      && said.Some? && SaInitExact.Agreeable(said.value)
  {
    hide StateAt, Respond, ResponderProcessAuth, DeriveChild, GetU64, SaInitExact.Reading, SaInitExact.Agreeable,
         Negotiate.Select;
    if k < |ops| && ops[k].Datagram? {
      SaInitExact.RespondExactly(c, ops[k].x.data, ops[k].x.local, None, None);
    }
  }

  // ----- runs from any state -----

  function RunFrom(c: Crypto, pki: Pki, auth: AuthConfig, s: ServerState, ops: seq<Op>): ServerState
    decreases |ops|
  {
    if ops == [] then s else RunFrom(c, pki, auth, Step(c, pki, auth, s, ops[0]).0, ops[1..])
  }

  /** No call of the run answers an IKE_SA_INIT for the pair. */
  predicate Spares(c: Crypto, pki: Pki, auth: AuthConfig, s: ServerState, ops: seq<Op>, key: SpiPair)
    decreases |ops|
  {
    ops == []
    || (Step(c, pki, auth, s, ops[0]).1 != Some(Event(SaInitEvent(key.0, key.1)))
        && Spares(c, pki, auth, Step(c, pki, auth, s, ops[0]).0, ops[1..], key))
  }

  /** Whatever else the server is sent, a half-open SA waits unchanged until its pair is opened again. */
  lemma {:induction false} SessionWaits(c: Crypto, pki: Pki, auth: AuthConfig, s: ServerState, ops: seq<Op>,
                                        key: SpiPair)
    requires key in s.sessions && Spares(c, pki, auth, s, ops, key)
    ensures var s' := RunFrom(c, pki, auth, s, ops); key in s'.sessions && s'.sessions[key] == s.sessions[key]
    decreases |ops|
  {
    hide Step;
    if ops != [] {
      StepSession(c, pki, auth, s, ops[0], key);
      SessionWaits(c, pki, auth, Step(c, pki, auth, s, ops[0]).0, ops[1..], key);
    }
  }

  // ----- several IKE_AUTH on one SA -----

  /** An IKE_AUTH datagram for the pair that the session accepts. */
  predicate Accepted(c: Crypto, pki: Pki, auth: AuthConfig, sa: CompletedSaInit, key: SpiPair, x: Input) {
    && x.sends && ParseHeader(x.data).Ok? && ParseHeader(x.data).value.exchange == ExAuth
    && (ParseHeader(x.data).value.initiatorSpi, ParseHeader(x.data).value.responderSpi) == key
    && ResponderProcessAuth(c, pki, sa, x.data, auth, x.childSpi, x.iv, None).Ok?
  }

  function Datagrams(xs: seq<Input>): seq<Op> {
    seq(|xs|, i requires 0 <= i < |xs| => Datagram(xs[i]))
  }

  predicate IsEstablished(o: Outcome, key: SpiPair) {
    o.Event? && o.event.EstablishedEvent? && (o.event.spiI, o.event.spiR) == key
  }

  lemma AcceptedStep(c: Crypto, pki: Pki, auth: AuthConfig, s: ServerState, key: SpiPair, x: Input)
    requires key in s.sessions && Accepted(c, pki, auth, s.sessions[key], key, x)
    ensures var (s', o) := Handle(c, pki, auth, s, x);
      && IsEstablished(o, key) && s'.sessions == s.sessions && key in s'.children
      && var sa := s.sessions[key];
      forall l, p :: SameKeys(s'.children[key], DeriveChild(c, sa.keys.skD, sa.ni, sa.nr, Responder, l, p))
  {
    hide ParseHeader, RespondPlain, ResponderProcessAuth, DeriveChild, SameKeys;
    var sa := s.sessions[key];
    var peerSpi := ResponderProcessAuth(c, pki, sa, x.data, auth, x.childSpi, x.iv, None).value.2;
    forall l, p ensures SameKeys(DeriveChild(c, sa.keys.skD, sa.ni, sa.nr, Responder, x.childSpi, peerSpi),
                                 DeriveChild(c, sa.keys.skD, sa.ni, sa.nr, Responder, l, p)) {
      SpisDoNotKey(c, sa.keys.skD, sa.ni, sa.nr, Responder, x.childSpi, peerSpi, l, p);
    }
  }

  /**
   One IKE_SA_INIT pays for any number of Established: the session stays, so every IKE_AUTH of a list
   that it accepts establishes the pair again, and all the children have the keys of that one session,
   whatever their SPIs.
   */
  lemma {:induction false} EstablishedAgain(c: Crypto, pki: Pki, auth: AuthConfig, s: ServerState, key: SpiPair,
                                            xs: seq<Input>, i: nat)
    requires key in s.sessions && i < |xs|
    requires forall n :: 0 <= n < |xs| ==> Accepted(c, pki, auth, s.sessions[key], key, xs[n])
    ensures var before := RunFrom(c, pki, auth, s, Datagrams(xs[..i]));
      var (after, o) := Handle(c, pki, auth, before, xs[i]);
      && before.sessions == s.sessions && IsEstablished(o, key) && key in after.children
      && var sa := s.sessions[key];
      forall l, p :: SameKeys(after.children[key], DeriveChild(c, sa.keys.skD, sa.ni, sa.nr, Responder, l, p))
    decreases i
  {
    hide Handle, Accepted, IsEstablished, SameKeys, DeriveChild;
    if i == 0 {
      assert Datagrams(xs[..0]) == [];
      AcceptedStep(c, pki, auth, s, key, xs[0]);
    } else {
      AcceptedStep(c, pki, auth, s, key, xs[0]);
      var ops := Datagrams(xs[..i]);
      assert xs[1..][..i - 1] == xs[1..i];
      assert ops[0] == Datagram(xs[0]) && ops[1..] == Datagrams(xs[1..i]);
      EstablishedAgain(c, pki, auth, Handle(c, pki, auth, s, xs[0]).0, key, xs[1..], i - 1);
    }
  }
}
