/**
 The IKEv1 server's session tables (src/ikev1/server.rs) over every run of
 datagrams. The transport is a parameter of each step: the datagram received and
 whether the answer could be sent.
 */
module Server1 {
  import opened Common
  import opened Primitives
  import opened Isakmp
  import opened Phase1
  import Quick
  import opened EspTunnel

  datatype ServerEvent = Phase1SaInit | Phase1Established | QuickSaInit | ChildSaEstablished(ckyI: Cookie) | Ignored

  datatype DriverError = Ike(error: IkeError) | Io

  datatype Outcome = Event(event: ServerEvent) | Failed(error: DriverError)

  datatype Session = Session(phase1: Option<Phase1State>, quick: Option<Quick.QuickResponder>)

  datatype ServerState = ServerState(sessions: map<Cookie, Session>, children: map<Cookie, ChildSa>)

  type Ephemeral = d: Phase1.Draw | DrawOk(d) witness Phase1.Draw(Zeros(8), Zeros(32), Zeros(16))

  /** What the outside contributes to one call: the datagram, the draws, and whether the answer goes out. */
  datatype Input = Input(data: Bytes, phase1: Ephemeral, quick: Quick.Draw, sends: bool)

  // ----- one datagram -----

  function HandleAggressive(c: Crypto, cfg: ResponderConfig, s: ServerState, hdr: IsakmpHeader,
                            x: Input): (ServerState, Outcome)
    requires |x.data| >= HEADER_LEN
  {
    match ParsePayloads(hdr.nextPayload, x.data[HEADER_LEN..])
    case Err(e) => (s, Failed(Ike(e)))
    case Ok(ps) =>
      if Find(ps, P_SA).Some? then
        (match RespondAggressive(c, cfg, x.data, x.phase1)
         case Err(e) => (s, Failed(Ike(e)))
         case Ok((_, st)) =>
           if !x.sends then (s, Failed(Io))
           else (s.(sessions := s.sessions[hdr.initCookie := Session(Some(st), None)]), Event(Phase1SaInit)))
      else if Find(ps, P_HASH).Some? then
        if hdr.initCookie !in s.sessions || s.sessions[hdr.initCookie].phase1.None? then (s, Event(Ignored))
        else match VerifyHashI(c, s.sessions[hdr.initCookie].phase1.value, x.data)
          case Err(e) => (s, Failed(Ike(e)))
          case Ok(_) => (s, Event(Phase1Established))
      else (s, Event(Ignored))
  }

  function HandleQuick(c: Crypto, s: ServerState, cky: Cookie, x: Input): (ServerState, Outcome) {
    if cky !in s.sessions || s.sessions[cky].phase1.None? then (s, Event(Ignored))
    else
      var session := s.sessions[cky];
      match session.quick
      case None =>
        (match Quick.RespondQuick(c, session.phase1.value, x.data, x.quick)
         case Err(e) => (s, Failed(Ike(e)))
         case Ok((_, q)) =>
           if !x.sends then (s, Failed(Io))
           else (s.(sessions := s.sessions[cky := session.(quick := Some(q))]), Event(QuickSaInit)))
      case Some(q) =>
        // The Quick Mode state is taken out before it is checked.
        var taken := s.(sessions := s.sessions[cky := session.(quick := None)]);
        match Quick.ResponderComplete(c, q, x.data)
        case Err(e) => (taken, Failed(Ike(e)))
        case Ok(child) => (taken.(children := s.children[cky := child]), Event(ChildSaEstablished(cky)))
  }

  function Handle(c: Crypto, cfg: ResponderConfig, s: ServerState, x: Input): (ServerState, Outcome) {
    match ParseHeader(x.data)
    case Err(e) => (s, Failed(Ike(e)))
    case Ok(hdr) =>
      if hdr.exchange == EX_AGGRESSIVE then HandleAggressive(c, cfg, s, hdr, x)
      else if hdr.exchange == EX_QUICK then HandleQuick(c, s, hdr.initCookie, x)
      else (s, Event(Ignored))
  }

  function WithoutChild(s: ServerState, cky: Cookie): ServerState {
    s.(children := s.children - {cky})
  }

  /** The server object: two maps that its methods update. */
  class Server {
    const cfg: ResponderConfig
    var sessions: map<Cookie, Session>
    var children: map<Cookie, ChildSa>

    function State(): ServerState
      reads this
    {
      ServerState(sessions, children)
    }

    constructor (config: ResponderConfig)
      ensures State() == ServerState(map[], map[]) && cfg == config
    {
      cfg, sessions, children := config, map[], map[];
    }

    method TakeChild(cky: Cookie) returns (child: Option<ChildSa>)
      modifies this`children
      ensures child == if cky in old(children) then Some(old(children)[cky]) else None
      ensures State() == WithoutChild(old(State()), cky)
    {
      child := if cky in children then Some(children[cky]) else None;
      children := children - {cky};
    }

    method HandleOne(c: Crypto, x: Input) returns (r: Outcome)
      modifies this
      ensures (State(), r) == Handle(c, cfg, old(State()), x)
    {
      hide ParseHeader, ParsePayloads, RespondAggressive, VerifyHashI, Quick.RespondQuick, Quick.ResponderComplete,
           Find;
      var parsed := ParseHeader(x.data);
      if parsed.Err? {
        return Failed(Ike(parsed.error));
      }
      var hdr := parsed.value;
      HeaderLong(x.data);
      if hdr.exchange == EX_AGGRESSIVE {
        r := Aggressive(c, hdr, x);
      } else if hdr.exchange == EX_QUICK {
        r := QuickMode(c, hdr.initCookie, x);
      } else {
        r := Event(Ignored);
      }
    }

    method Aggressive(c: Crypto, hdr: IsakmpHeader, x: Input) returns (r: Outcome)
      requires |x.data| >= HEADER_LEN
      modifies this`sessions
      ensures (State(), r) == HandleAggressive(c, cfg, old(State()), hdr, x)
    {
      hide ParseHeader, ParsePayloads, RespondAggressive, VerifyHashI, Find;
      var payloads := ParsePayloads(hdr.nextPayload, x.data[HEADER_LEN..]);
      if payloads.Err? {
        return Failed(Ike(payloads.error));
      }
      if Find(payloads.value, P_SA).Some? {
        var answer := RespondAggressive(c, cfg, x.data, x.phase1);
        if answer.Err? {
          return Failed(Ike(answer.error));
        }
        if !x.sends {
          return Failed(Io);
        }
        sessions := sessions[hdr.initCookie := Session(Some(answer.value.1), None)];
        return Event(Phase1SaInit);
      }
      if Find(payloads.value, P_HASH).Some? {
        if hdr.initCookie !in sessions || sessions[hdr.initCookie].phase1.None? {
          return Event(Ignored);
        }
        var ok := VerifyHashI(c, sessions[hdr.initCookie].phase1.value, x.data);
        if ok.Err? {
          return Failed(Ike(ok.error));
        }
        return Event(Phase1Established);
      }
      return Event(Ignored);
    }

    method QuickMode(c: Crypto, cky: Cookie, x: Input) returns (r: Outcome)
      modifies this
      ensures (State(), r) == HandleQuick(c, old(State()), cky, x)
    {
      hide Quick.RespondQuick, Quick.ResponderComplete;
      if cky !in sessions || sessions[cky].phase1.None? {
        return Event(Ignored);
      }
      var session := sessions[cky];
      if session.quick.None? {
        var answer := Quick.RespondQuick(c, session.phase1.value, x.data, x.quick);
        if answer.Err? {
          return Failed(Ike(answer.error));
        }
        if !x.sends {
          return Failed(Io);
        }
        sessions := sessions[cky := session.(quick := Some(answer.value.1))];
        return Event(QuickSaInit);
      }
      sessions := sessions[cky := session.(quick := None)];
      var child := Quick.ResponderComplete(c, session.quick.value, x.data);
      if child.Err? {
        return Failed(Ike(child.error));
      }
      children := children[cky := child.value];
      return Event(ChildSaEstablished(cky));
    }
  }

  lemma HeaderLong(data: Bytes)
    ensures ParseHeader(data).Ok? ==> |data| >= HEADER_LEN
  {
  }

  // ----- runs -----

  /** One call on the server. */
  datatype Op = Datagram(x: Input) | Take(cky: Cookie)

  function Step(c: Crypto, cfg: ResponderConfig, s: ServerState, op: Op): (ServerState, Option<Outcome>) {
    match op
    case Datagram(x) =>
      var (s', r) := Handle(c, cfg, s, x);
      (s', Some(r))
    case Take(cky) => (WithoutChild(s, cky), None)
  }

  /** The state after the first `k` calls on a fresh server. */
  function StateAt(c: Crypto, cfg: ResponderConfig, ops: seq<Op>, k: nat): ServerState
    requires k <= |ops|
  {
    if k == 0 then ServerState(map[], map[]) else Step(c, cfg, StateAt(c, cfg, ops, k - 1), ops[k - 1]).0
  }

  function OutcomeAt(c: Crypto, cfg: ResponderConfig, ops: seq<Op>, k: nat): Option<Outcome>
    requires k < |ops|
  {
    Step(c, cfg, StateAt(c, cfg, ops, k), ops[k]).1
  }

  /** The initiator cookie of a datagram. */
  function CookieOf(op: Op): Option<Cookie> {
    match op
    case Take(_) => None
    case Datagram(x) => match ParseHeader(x.data)
      case Err(_) => None
      case Ok(h) => Some(h.initCookie)
  }

  /** Call `k` reports `e` for cookie `cky`. */
  predicate Reports(c: Crypto, cfg: ResponderConfig, ops: seq<Op>, k: nat, cky: Cookie, e: ServerEvent) {
    k < |ops| && CookieOf(ops[k]) == Some(cky) && OutcomeAt(c, cfg, ops, k) == Some(Event(e))
  }

  function SessionOf(s: ServerState, cky: Cookie): Option<Session> {
    if cky in s.sessions then Some(s.sessions[cky]) else None
  }

  predicate HasQuick(s: ServerState, cky: Cookie) {
    cky in s.sessions && s.sessions[cky].quick.Some?
  }

  /** Call `k` uses up the Quick Mode state of `cky`, whether or not it completes. */
  predicate Consumes(c: Crypto, cfg: ResponderConfig, ops: seq<Op>, k: nat, cky: Cookie) {
    k < |ops| && HasQuick(StateAt(c, cfg, ops, k), cky) && !HasQuick(StateAt(c, cfg, ops, k + 1), cky)
  }

  /** What one step does to the entry of one cookie. */
  datatype Effect =
    | Keeps                           // unchanged
    | Opens(st: Phase1State)          // Aggressive message 1: a new entry
    | Starts(q: Quick.QuickResponder) // Quick message 1
    | Ends                            // Quick message 3: the Quick Mode state is taken out

  function EffectOf(c: Crypto, cfg: ResponderConfig, s: ServerState, op: Op, cky: Cookie): Effect {
    var (s', r) := Step(c, cfg, s, op);
    if CookieOf(op) != Some(cky) then Keeps
    else if r == Some(Event(Phase1SaInit)) then
      var a := RespondAggressive(c, cfg, op.x.data, op.x.phase1);
      if a.Ok? then Opens(a.value.1) else Keeps
    else if r == Some(Event(QuickSaInit)) && cky in s.sessions && s.sessions[cky].phase1.Some? then
      var a := Quick.RespondQuick(c, s.sessions[cky].phase1.value, op.x.data, op.x.quick);
      if a.Ok? then Starts(a.value.1) else Keeps
    else if HasQuick(s, cky) && !HasQuick(s', cky) then Ends
    else Keeps
  }

  function Affect(e: Effect, o: Option<Session>): Option<Session> {
    match e
    case Keeps => o
    case Opens(st) => Some(Session(Some(st), None))
    case Starts(q) => if o.Some? then Some(o.value.(quick := Some(q))) else None
    case Ends => if o.Some? then Some(o.value.(quick := None)) else None
  }

  /** Every step changes the entry of a cookie only in these ways, and each event comes with its effect. */
  lemma StepEffect(c: Crypto, cfg: ResponderConfig, s: ServerState, op: Op, cky: Cookie)
    ensures var (s', r) := Step(c, cfg, s, op);
      var e := EffectOf(c, cfg, s, op, cky);
      && SessionOf(s', cky) == Affect(e, SessionOf(s, cky))
      && (e.Opens? <==> CookieOf(op) == Some(cky) && r == Some(Event(Phase1SaInit)))
      && (e.Starts? <==> CookieOf(op) == Some(cky) && r == Some(Event(QuickSaInit)))
      && (e.Starts? ==> SessionOf(s, cky).Some? && s.sessions[cky].phase1.Some?)
      && (CookieOf(op) == Some(cky) && r == Some(Event(ChildSaEstablished(cky))) ==> e.Ends?)
  {
    hide ParseHeader, ParsePayloads, RespondAggressive, VerifyHashI, Quick.RespondQuick, Quick.ResponderComplete, Find;
    if op.Datagram? {
      HeaderLong(op.x.data);
    }
  }

  /** What one step does to the child of one cookie. */
  lemma StepChild(c: Crypto, cfg: ResponderConfig, s: ServerState, op: Op, cky: Cookie)
    ensures var (s', r) := Step(c, cfg, s, op);
      var up := CookieOf(op) == Some(cky) && r == Some(Event(ChildSaEstablished(cky)));
      && (up ==>
            && HasQuick(s, cky) && op.Datagram? && cky in s'.children
            && Quick.ResponderComplete(c, s.sessions[cky].quick.value, op.x.data) == Ok(s'.children[cky]))
      && (!up && op != Take(cky) ==>
            && (cky in s'.children <==> cky in s.children)
            && (cky in s.children ==> s'.children[cky] == s.children[cky]))
      && (op == Take(cky) ==> cky !in s'.children)
  {
    hide ParseHeader, ParsePayloads, RespondAggressive, VerifyHashI, Quick.RespondQuick, Quick.ResponderComplete, Find;
    if op.Datagram? {
      HeaderLong(op.x.data);
    }
  }

  /** Children are only ever kept for cookies with a session. */
  lemma {:induction false} ChildrenHaveSessions(c: Crypto, cfg: ResponderConfig, ops: seq<Op>, k: nat)
    requires k <= |ops|
    ensures StateAt(c, cfg, ops, k).children.Keys <= StateAt(c, cfg, ops, k).sessions.Keys
  {
    hide Step, EffectOf;
    if k > 0 {
      ChildrenHaveSessions(c, cfg, ops, k - 1);
      var s, s' := StateAt(c, cfg, ops, k - 1), StateAt(c, cfg, ops, k);
      forall cky | cky in s'.children ensures cky in s'.sessions {
        StepChild(c, cfg, s, ops[k - 1], cky);
        StepEffect(c, cfg, s, ops[k - 1], cky);
      }
    }
  }

  // ----- where the entries come from -----

  /** The Phase 1 state of an entry comes from the latest Phase1SaInit of its cookie. */
  lemma {:induction false} OpenedBy(c: Crypto, cfg: ResponderConfig, ops: seq<Op>, k: nat, cky: Cookie) returns (i: nat)
    requires k <= |ops| && cky in StateAt(c, cfg, ops, k).sessions
    ensures i < k && Reports(c, cfg, ops, i, cky, Phase1SaInit) && ops[i].Datagram?
    ensures RespondAggressive(c, cfg, ops[i].x.data, ops[i].x.phase1).Ok?
    ensures StateAt(c, cfg, ops, k).sessions[cky].phase1
      == Some(RespondAggressive(c, cfg, ops[i].x.data, ops[i].x.phase1).value.1)
    ensures forall m :: i < m < k ==> !Reports(c, cfg, ops, m, cky, Phase1SaInit)
  {
    hide Step, RespondAggressive, Quick.RespondQuick, ParseHeader;
    var s := StateAt(c, cfg, ops, k - 1);
    StepEffect(c, cfg, s, ops[k - 1], cky);
    var e := EffectOf(c, cfg, s, ops[k - 1], cky);
    if e.Opens? {
      i := k - 1;
    } else {
      i := OpenedBy(c, cfg, ops, k - 1, cky);
    }
  }

  /** Nothing between `j` and `k` touches the Quick Mode state of `cky`. */
  ghost predicate Undisturbed(c: Crypto, cfg: ResponderConfig, ops: seq<Op>, j: nat, k: nat, cky: Cookie) {
    forall m :: j < m < k ==>
      && !Reports(c, cfg, ops, m, cky, Phase1SaInit) && !Reports(c, cfg, ops, m, cky, QuickSaInit)
      && !Consumes(c, cfg, ops, m, cky)
  }

  lemma {:induction false} StartedBy(c: Crypto, cfg: ResponderConfig, ops: seq<Op>, k: nat, cky: Cookie)
    returns (j: nat)
    requires k <= |ops| && HasQuick(StateAt(c, cfg, ops, k), cky)
    ensures j < k && Reports(c, cfg, ops, j, cky, QuickSaInit) && ops[j].Datagram?
    ensures cky in StateAt(c, cfg, ops, j).sessions
    ensures var st := StateAt(c, cfg, ops, j).sessions[cky].phase1;
      && st.Some? && StateAt(c, cfg, ops, k).sessions[cky].phase1 == st
      && Quick.RespondQuick(c, st.value, ops[j].x.data, ops[j].x.quick).Ok?
      && StateAt(c, cfg, ops, k).sessions[cky].quick
          == Some(Quick.RespondQuick(c, st.value, ops[j].x.data, ops[j].x.quick).value.1)
    ensures Undisturbed(c, cfg, ops, j, k, cky)
  {
    hide Step, RespondAggressive, Quick.RespondQuick, ParseHeader;
    var s := StateAt(c, cfg, ops, k - 1);
    StepEffect(c, cfg, s, ops[k - 1], cky);
    var e := EffectOf(c, cfg, s, ops[k - 1], cky);
    if e.Starts? {
      j := k - 1;
    } else {
      j := StartedBy(c, cfg, ops, k - 1, cky);
    }
  }

  /** The QuickSaInit at `j` is the one that the ChildSaEstablished at `k` uses up. */
  ghost predicate Pays(c: Crypto, cfg: ResponderConfig, ops: seq<Op>, j: nat, k: nat, cky: Cookie) {
    && j < k < |ops|
    && Reports(c, cfg, ops, j, cky, QuickSaInit) && Reports(c, cfg, ops, k, cky, ChildSaEstablished(cky))
    && Undisturbed(c, cfg, ops, j, k, cky) && Consumes(c, cfg, ops, k, cky)
  }

  /**
   Every ChildSaEstablished, in any run, uses up one earlier QuickSaInit of its cookie with no
   Phase1SaInit in between; and the child it stores is what completing the Quick Mode state of that
   message gives, itself built over the Phase 1 state of the latest Phase1SaInit.
   */
  lemma EstablishedFrom(c: Crypto, cfg: ResponderConfig, ops: seq<Op>, k: nat, cky: Cookie) returns (i: nat, j: nat)
    requires Reports(c, cfg, ops, k, cky, ChildSaEstablished(cky))
    ensures i < j < k && Pays(c, cfg, ops, j, k, cky)
    ensures Reports(c, cfg, ops, i, cky, Phase1SaInit)
    ensures forall m :: i < m < k ==> !Reports(c, cfg, ops, m, cky, Phase1SaInit)
    ensures ops[i].Datagram? && ops[j].Datagram? && ops[k].Datagram?
    ensures cky in StateAt(c, cfg, ops, k + 1).children
    ensures var answered := RespondAggressive(c, cfg, ops[i].x.data, ops[i].x.phase1);
      && answered.Ok?
      && var started := Quick.RespondQuick(c, answered.value.1, ops[j].x.data, ops[j].x.quick);
      && started.Ok?
      && Quick.ResponderComplete(c, started.value.1, ops[k].x.data) == Ok(StateAt(c, cfg, ops, k + 1).children[cky])
  {
    hide Step, RespondAggressive, Quick.RespondQuick, Quick.ResponderComplete, ParseHeader, EffectOf;
    var s := StateAt(c, cfg, ops, k);
    StepChild(c, cfg, s, ops[k], cky);
    StepEffect(c, cfg, s, ops[k], cky);
    j := StartedBy(c, cfg, ops, k, cky);
    i := OpenedBy(c, cfg, ops, k, cky);
  }

  /** Phase1Established is a report and nothing else: the tables stay as they are. */
  lemma ConfirmationChangesNothing(c: Crypto, cfg: ResponderConfig, ops: seq<Op>, k: nat, cky: Cookie)
    requires Reports(c, cfg, ops, k, cky, Phase1Established)
    ensures StateAt(c, cfg, ops, k + 1) == StateAt(c, cfg, ops, k)
  {
    hide ParseHeader, ParsePayloads, RespondAggressive, VerifyHashI, Quick.RespondQuick, Quick.ResponderComplete, Find;
    HeaderLong(ops[k].x.data);
  }

  /**
   What a child rests on. The server lets Quick Mode run as soon as message 1 is stored, so a child
   does not rest on HASH_I: it rests on HASH(1) in the message that started it and HASH(3) in the one
   that completed it, both under the SKEYID_a of the latest Phase 1 state, whose SKEYID is keyed by
   the configured pre-shared key; and its keys come from the SKEYID_d of the same state.
   */
  lemma ChildRestsOn(c: Crypto, cfg: ResponderConfig, ops: seq<Op>, k: nat, cky: Cookie) returns (i: nat, j: nat)
    requires Reports(c, cfg, ops, k, cky, ChildSaEstablished(cky))
    ensures i < j < k && Pays(c, cfg, ops, j, k, cky) && Reports(c, cfg, ops, i, cky, Phase1SaInit)
    ensures ops[i].Datagram? && ops[j].Datagram? && ops[k].Datagram? && cky in StateAt(c, cfg, ops, k + 1).children
    ensures RespondAggressive(c, cfg, ops[i].x.data, ops[i].x.phase1).Ok?
    ensures var st := RespondAggressive(c, cfg, ops[i].x.data, ops[i].x.phase1).value.1;
      && st.skeyid == st.prf.Mac(c, cfg.psk, st.ni + st.nr)
      && Quick.ProvesHash1(c, st, ops[j].x.data)
      && Quick.RespondQuick(c, st, ops[j].x.data, ops[j].x.quick).Ok?
      && var q := Quick.RespondQuick(c, st, ops[j].x.data, ops[j].x.quick).value.1;
      && q.skeyidA == st.skeyidA && Quick.ProvesHash3(c, q, ops[k].x.data)
      && StateAt(c, cfg, ops, k + 1).children[cky]
          == Quick.DeriveChild(c, st.prf, st.skeyidD, q.ni, q.nr, q.localSpi, q.peerSpi)
  {
    hide Step, RespondAggressive, Quick.RespondQuick, Quick.ResponderComplete, Quick.ProvesHash1, Quick.ProvesHash3,
         Quick.DeriveChild, Undisturbed, Consumes, OutcomeAt, CookieOf, StateAt;
    i, j := EstablishedFrom(c, cfg, ops, k, cky);
    var _ := StateFromPsk(c, cfg, ops[i].x.data, ops[i].x.phase1);
    var st := RespondAggressive(c, cfg, ops[i].x.data, ops[i].x.phase1).value.1;
    Quick.RespondQuickRests(c, st, ops[j].x.data, ops[j].x.quick);
    Quick.CompleteExactly(c, Quick.RespondQuick(c, st, ops[j].x.data, ops[j].x.quick).value.1, ops[k].x.data);
  }

  /** In every reachable state a session with a Quick Mode state has a Phase 1 state too. */
  lemma SessionsAreOpened(c: Crypto, cfg: ResponderConfig, ops: seq<Op>, k: nat, cky: Cookie)
    requires k <= |ops| && cky in StateAt(c, cfg, ops, k).sessions
    ensures StateAt(c, cfg, ops, k).sessions[cky].phase1.Some?
  {
    hide Step, StateAt, RespondAggressive, Reports;
    var _ := OpenedBy(c, cfg, ops, k, cky);
  }

  /**
   Exactly when a call of a run establishes a child: a Quick Mode datagram of the cookie arrives, the
   session holds a Quick Mode state, and the datagram proves HASH(3) under it.
   */
  lemma ChildEstablishedExactly(c: Crypto, cfg: ResponderConfig, ops: seq<Op>, k: nat, cky: Cookie)
    ensures Reports(c, cfg, ops, k, cky, ChildSaEstablished(cky)) <==>
      && k < |ops| && ops[k].Datagram? && ParseHeader(ops[k].x.data).Ok?
      && ParseHeader(ops[k].x.data).value.exchange == EX_QUICK && ParseHeader(ops[k].x.data).value.initCookie == cky
      && HasQuick(StateAt(c, cfg, ops, k), cky)
      && Quick.ProvesHash3(c, StateAt(c, cfg, ops, k).sessions[cky].quick.value, ops[k].x.data)
  {
    hide StateAt, ParseHeader, ParsePayloads, RespondAggressive, VerifyHashI, Quick.RespondQuick,
         Quick.ResponderComplete, Quick.ProvesHash3, Find;
    if k < |ops| && ops[k].Datagram? {
      HeaderLong(ops[k].x.data);
      var s := StateAt(c, cfg, ops, k);
      if HasQuick(s, cky) {
        SessionsAreOpened(c, cfg, ops, k, cky);
        Quick.CompleteExactly(c, s.sessions[cky].quick.value, ops[k].x.data);
      }
    }
  }

  /**
   Exactly when a call of a run confirms Phase 1: an Aggressive Mode datagram of the cookie arrives, with
   a HASH and no SA, the cookie has a session, and the datagram proves HASH_I under its Phase 1 state.
   */
  lemma Phase1EstablishedExactly(c: Crypto, cfg: ResponderConfig, ops: seq<Op>, k: nat, cky: Cookie)
    ensures Reports(c, cfg, ops, k, cky, Phase1Established) <==>
      && k < |ops| && ops[k].Datagram? && ParseHeader(ops[k].x.data).Ok? && |ops[k].x.data| >= 28
      && ParseHeader(ops[k].x.data).value.exchange == EX_AGGRESSIVE
      && ParseHeader(ops[k].x.data).value.initCookie == cky
      && var ps := ParsePayloads(ParseHeader(ops[k].x.data).value.nextPayload, ops[k].x.data[28..]);
      && ps.Ok? && Find(ps.value, P_SA).None? && Find(ps.value, P_HASH).Some?
      && var s := StateAt(c, cfg, ops, k);
      && cky in s.sessions && s.sessions[cky].phase1.Some?
      && ProvesHashI(c, s.sessions[cky].phase1.value, ops[k].x.data)
  {
    hide StateAt, ParseHeader, ParsePayloads, RespondAggressive, VerifyHashI, Quick.RespondQuick,
         Quick.ResponderComplete, ProvesHashI, Find;
    if k < |ops| && ops[k].Datagram? {
      HeaderLong(ops[k].x.data);
      var s := StateAt(c, cfg, ops, k);
      if cky in s.sessions && s.sessions[cky].phase1.Some? {
        HashIExactly(c, s.sessions[cky].phase1.value, ops[k].x.data);
      }
    }
  }

  /**
   Exactly when a call opens a session: an Aggressive Mode datagram of the cookie with an SA is one that
   Phase 1 accepts, and the answer goes out.
   */
  lemma Phase1SaInitExactly(c: Crypto, cfg: ResponderConfig, ops: seq<Op>, k: nat, cky: Cookie)
    ensures Reports(c, cfg, ops, k, cky, Phase1SaInit) <==>
      && k < |ops| && ops[k].Datagram? && ops[k].x.sends && |ops[k].x.data| >= 28
      && ParseHeader(ops[k].x.data).value.exchange == EX_AGGRESSIVE
      && ParseHeader(ops[k].x.data).value.initCookie == cky
      && RespondAggressive(c, cfg, ops[k].x.data, ops[k].x.phase1).Ok?
  {
    hide StateAt, ParsePayloads, RespondAggressive, VerifyHashI, Quick.RespondQuick, Quick.ResponderComplete, Find;
    if k < |ops| && ops[k].Datagram? {
      RespondExactly(c, cfg, ops[k].x.data, ops[k].x.phase1);
    }
  }

  /**
   Exactly when a call starts a Quick Mode: a Quick Mode datagram of the cookie arrives, its session is not
   in the middle of another, message 1 is accepted, and the answer goes out.
   */
  lemma QuickSaInitExactly(c: Crypto, cfg: ResponderConfig, ops: seq<Op>, k: nat, cky: Cookie)
    ensures Reports(c, cfg, ops, k, cky, QuickSaInit) <==>
      && k < |ops| && ops[k].Datagram? && ops[k].x.sends && |ops[k].x.data| >= 28
      && ParseHeader(ops[k].x.data).value.exchange == EX_QUICK && ParseHeader(ops[k].x.data).value.initCookie == cky
      && var s := StateAt(c, cfg, ops, k);
      && cky in s.sessions && s.sessions[cky].phase1.Some? && s.sessions[cky].quick.None?
      && Quick.RespondQuick(c, s.sessions[cky].phase1.value, ops[k].x.data, ops[k].x.quick).Ok?
  {
    hide StateAt, ParsePayloads, RespondAggressive, VerifyHashI, Quick.RespondQuick, Quick.ResponderComplete, Find;
  }

  /** No QuickSaInit pays for two children: between two of one cookie lies a new one. */
  lemma PaidOnce(c: Crypto, cfg: ResponderConfig, ops: seq<Op>, j1: nat, k1: nat, j2: nat, k2: nat, cky: Cookie)
    requires Pays(c, cfg, ops, j1, k1, cky) && Pays(c, cfg, ops, j2, k2, cky) && k1 < k2
    ensures j1 < k1 < j2 < k2
  {
    hide OutcomeAt, StateAt, HasQuick, CookieOf;
  }

  /** A child in the table was stored by the latest ChildSaEstablished of its cookie and has not been taken since. */
  lemma {:induction false} ChildFrom(c: Crypto, cfg: ResponderConfig, ops: seq<Op>, k: nat, cky: Cookie)
    returns (e: nat)
    requires k <= |ops| && cky in StateAt(c, cfg, ops, k).children
    ensures e < k && Reports(c, cfg, ops, e, cky, ChildSaEstablished(cky))
    ensures cky in StateAt(c, cfg, ops, e + 1).children
    ensures StateAt(c, cfg, ops, k).children[cky] == StateAt(c, cfg, ops, e + 1).children[cky]
    ensures forall m :: e < m < k ==> !Reports(c, cfg, ops, m, cky, ChildSaEstablished(cky)) && ops[m] != Take(cky)
  {
    hide Step, Quick.ResponderComplete, ParseHeader;
    var s := StateAt(c, cfg, ops, k - 1);
    StepChild(c, cfg, s, ops[k - 1], cky);
    if Reports(c, cfg, ops, k - 1, cky, ChildSaEstablished(cky)) {
      e := k - 1;
    } else {
      e := ChildFrom(c, cfg, ops, k - 1, cky);
    }
  }

  // ----- runs from any state -----

  function RunFrom(c: Crypto, cfg: ResponderConfig, s: ServerState, ops: seq<Op>): ServerState
    decreases |ops|
  {
    if ops == [] then s else RunFrom(c, cfg, Step(c, cfg, s, ops[0]).0, ops[1..])
  }

  /** No datagram of the run carries the cookie. */
  predicate Elsewhere(ops: seq<Op>, cky: Cookie) {
    forall i :: 0 <= i < |ops| ==> CookieOf(ops[i]) != Some(cky)
  }

  /** Whatever the server is sent under other cookies, a session waits unchanged. */
  lemma {:induction false} SessionWaits(c: Crypto, cfg: ResponderConfig, s: ServerState, ops: seq<Op>, cky: Cookie)
    requires Elsewhere(ops, cky)
    ensures SessionOf(RunFrom(c, cfg, s, ops), cky) == SessionOf(s, cky)
    decreases |ops|
  {
    hide Step, CookieOf;
    if ops != [] {
      StepEffect(c, cfg, s, ops[0], cky);
      SessionWaits(c, cfg, Step(c, cfg, s, ops[0]).0, ops[1..], cky);
    }
  }
}
