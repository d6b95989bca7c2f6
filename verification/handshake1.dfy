/**
 IKEv1 end to end: a client's Aggressive Mode and Quick Mode against the server's
 session table.
 */
module Handshake1 {
  import opened Common
  import opened Primitives
  import opened Framing
  import opened Isakmp
  import opened Payloads1
  import opened Crypto1
  import opened Phase1
  import opened Phase2
  import opened EspTunnel
  import Quick
  import Dh
  import opened Server1

  /** What the server's dispatch looks at: the exchange, the cookie and, in the clear, which payloads are there. */
  predicate Dispatches(m: Bytes, exchange: Byte, cky: Cookie) {
    var h := ParseHeader(m);
    h.Ok? && |m| >= HEADER_LEN && h.value.exchange == exchange && h.value.initCookie == cky
  }

  predicate Shows(m: Bytes, sa: bool, hash: bool) {
    var h := ParseHeader(m);
    && h.Ok? && |m| >= HEADER_LEN
    && var ps := ParsePayloads(h.value.nextPayload, m[HEADER_LEN..]);
    && ps.Ok? && Find(ps.value, P_SA).Some? == sa && Find(ps.value, P_HASH).Some? == hash
  }

  lemma FirstDispatch(c: Crypto, ci: InitiatorConfig, d: Phase1.Draw)
    requires DrawOk(d) && FrameFits(IdBytes(ci.ourId))
    ensures var m := InitiateAggressive(c, ci, d).0; Dispatches(m, EX_AGGRESSIVE, d.cookie) && Shows(m, true, false)
  {
    hide ParseHeader, ParsePayloads, Find, BuildMessage, Dh.Public, SaBytes, IdBytes;
    var gxi, saB, idB := Dh.Public(c, ci.group, d.private), SaBytes(InitiatorSa(ci.group, ci.xauth)), IdBytes(ci.ourId);
    OfferReads(ci.group, ci.xauth);
    MessageRoundTrip(AggressiveHeader(d.cookie, Zeros(8)), Message1(saB, gxi, d.nonce, idB));
    Message1Found(saB, gxi, d.nonce, idB);
    FindNone(Message1(saB, gxi, d.nonce, idB), P_HASH);
  }

  /** Message 3 is a bare HASH payload. */
  lemma ThirdDispatch(c: Crypto, ai: AggressiveInitiator, msg2: Bytes)
    requires |ai.private| == 32 && CompleteAggressive(c, ai, msg2).Ok?
    ensures var m := CompleteAggressive(c, ai, msg2).value.0;
      Dispatches(m, EX_AGGRESSIVE, ai.ckyI) && Shows(m, false, true)
  {
    hide ParseHeader, ParsePayloads, Find, BuildMessage, HashI, HashR, Dh.Shared, DeriveState;
    var hash := HashThree(c, ai, msg2);
    var ps := [Payload(P_HASH, hash.1)];
    MessageRoundTrip(AggressiveHeader(ai.ckyI, hash.0), ps);
    FindAt(ps, P_HASH, 0);
    FindNone(ps, P_SA);
  }

  lemma HashThree(c: Crypto, ai: AggressiveInitiator, msg2: Bytes) returns (r: (Cookie, Bytes))
    requires |ai.private| == 32 && CompleteAggressive(c, ai, msg2).Ok?
    ensures FrameFits(r.1)
    ensures CompleteAggressive(c, ai, msg2).value.0
      == BuildMessage(AggressiveHeader(ai.ckyI, r.0), [Payload(P_HASH, r.1)])
  {
    hide ParsePayloads, Find, BuildMessage, HashR, Dh.Shared, DeriveState;
    var hdr := ParseHeader(msg2).value;
    var ps := ParsePayloads(hdr.nextPayload, msg2[HEADER_LEN..]).value;
    var gxr, nr := Find(ps, P_KE).value, Find(ps, P_NONCE).value;
    var gxy := Dh.Shared(c, ai.group, ai.private, gxr).value;
    var st := DeriveState(c, ai.prf, ai.group, ai.psk, ai.ckyI, hdr.respCookie, ai.gxi, gxr, gxy, ai.ni, nr, ai.saiB,
                          ai.idiB);
    r := (hdr.respCookie, HashI(c, ai.prf, st.skeyid, ai.gxi, gxr, ai.ckyI, hdr.respCookie, ai.saiB, ai.idiB));
  }

  /** The header of an encrypted message is readable in the clear. */
  lemma EncryptedDispatch(c: Crypto, h: IsakmpHeader, encKey: Bytes, iv: Bytes, ps: seq<Payload>)
    requires EncryptPayloads(c, h, encKey, iv, ps).Ok?
    ensures Dispatches(EncryptPayloads(c, h, encKey, iv, ps).value.0, h.exchange, h.initCookie)
  {
    hide ParseHeader, HeaderBytes, Encode, PadToBlock, CbcEncrypt;
    var ct := CbcEncrypt(c, encKey, iv, PadToBlock(Encode(ps))).value;
    HeaderRoundTrip(SealedHeader(h, FirstType(ps), |ct|), ct);
  }

  lemma QuickDispatch(c: Crypto, st: Phase1State, d: Quick.Draw, ts: Quick.Selectors)
    requires Quick.InitiateQuick(c, st, d, ts).Ok?
    ensures Dispatches(Quick.InitiateQuick(c, st, d, ts).value.0, EX_QUICK, st.ckyI)
    ensures Quick.InitiateQuick(c, st, d, ts).value.1.ckyI == st.ckyI
  {
    hide EncryptPayloads, Phase2Iv, Hashed, Quick.QuickOne, Quick.OddId, ParseHeader;
    var id := Quick.OddId(d.msgId);
    EncryptedDispatch(c, Quick.QuickHeader(st.ckyI, st.ckyR, id), st.encKey, Phase2Iv(c, st.prf, st.phase1Iv, id),
                      Hashed(c, st.prf, st.skeyidA, id, [], Quick.QuickOne(d.spi, d.nonce, ts)));
  }

  lemma LastDispatch(c: Crypto, q: Quick.QuickInitiator, msg2: Bytes)
    requires Quick.InitiatorComplete(c, q, msg2).Ok?
    ensures Dispatches(Quick.InitiatorComplete(c, q, msg2).value.0, EX_QUICK, q.ckyI)
  {
    hide DecryptPayloads, EncryptPayloads, Find, Quick.PeerEspSpi, MessageHash, Without, Quick.DeriveChild,
         Quick.Hash3, ParseHeader;
    var o := DecryptPayloads(c, msg2, q.encKey, q.iv1).value;
    EncryptedDispatch(c, Quick.QuickHeader(q.ckyI, q.ckyR, q.msgId), q.encKey, o.nextIv,
                      [Payload(P_HASH, Quick.Hash3(c, q.prf, q.skeyidA, q.msgId, q.ni,
                                                   Find(o.payloads, P_NONCE).value))]);
  }

  // ----- the server's four steps -----

  lemma ServerOpens(c: Crypto, cfg: ResponderConfig, s: ServerState, x: Input, cky: Cookie)
    requires Dispatches(x.data, EX_AGGRESSIVE, cky) && Shows(x.data, true, false) && x.sends
    requires RespondAggressive(c, cfg, x.data, x.phase1).Ok?
    ensures var (s', r) := Handle(c, cfg, s, x);
      && r == Event(Phase1SaInit)
      && SessionOf(s', cky) == Some(Session(Some(RespondAggressive(c, cfg, x.data, x.phase1).value.1), None))
  {
    hide ParseHeader, ParsePayloads, RespondAggressive, Find, VerifyHashI;
  }

  lemma ServerVerifies(c: Crypto, cfg: ResponderConfig, s: ServerState, x: Input, cky: Cookie, st: Phase1State)
    requires Dispatches(x.data, EX_AGGRESSIVE, cky) && Shows(x.data, false, true)
    requires SessionOf(s, cky) == Some(Session(Some(st), None)) && VerifyHashI(c, st, x.data) == Ok(())
    ensures Handle(c, cfg, s, x) == (s, Event(Phase1Established))
  {
    hide ParseHeader, ParsePayloads, RespondAggressive, Find, VerifyHashI;
  }

  lemma ServerStartsQuick(c: Crypto, cfg: ResponderConfig, s: ServerState, x: Input, cky: Cookie, st: Phase1State)
    requires Dispatches(x.data, EX_QUICK, cky) && x.sends
    requires SessionOf(s, cky) == Some(Session(Some(st), None)) && Quick.RespondQuick(c, st, x.data, x.quick).Ok?
    ensures var (s', r) := Handle(c, cfg, s, x);
      && r == Event(QuickSaInit)
      && SessionOf(s', cky) == Some(Session(Some(st), Some(Quick.RespondQuick(c, st, x.data, x.quick).value.1)))
  {
    hide ParseHeader, Quick.RespondQuick, Quick.ResponderComplete;
  }

  lemma ServerEstablishes(c: Crypto, cfg: ResponderConfig, s: ServerState, x: Input, cky: Cookie, st: Phase1State,
                          q: Quick.QuickResponder)
    requires Dispatches(x.data, EX_QUICK, cky)
    requires SessionOf(s, cky) == Some(Session(Some(st), Some(q))) && Quick.ResponderComplete(c, q, x.data).Ok?
    ensures var (s', r) := Handle(c, cfg, s, x);
      r == Event(ChildSaEstablished(cky)) && cky in s'.children
      && s'.children[cky] == Quick.ResponderComplete(c, q, x.data).value
  {
    hide ParseHeader, Quick.RespondQuick, Quick.ResponderComplete;
  }

  /** What a client does between the server's answers: its configuration and its draws. */
  datatype Client = Client(cfg: InitiatorConfig, phase1: Ephemeral, quick: Quick.Draw, selectors: Quick.Selectors)

  predicate Compatible(c: Crypto, k: Client, cfg: ResponderConfig, pr: Ephemeral, qr: Quick.Draw) {
    && k.cfg.psk == cfg.psk && IdsFit(k.cfg, cfg) && FrameFits(k.quick.nonce) && FrameFits(qr.nonce)
    && !k.cfg.group.GroupX25519?
    && Dh.ValidShare(k.cfg.group, Dh.Public(c, k.cfg.group, k.phase1.private))
    && Dh.ValidShare(k.cfg.group, Dh.Public(c, k.cfg.group, pr.private))
  }

  /** The four messages a client sends, each computed from the server's answer to the one before. */
  ghost predicate Sends(c: Crypto, k: Client, cfg: ResponderConfig, x1: Input, x2: Input, x3: Input, x4: Input,
                        child: ChildSa) {
    var (a1, ai) := InitiateAggressive(c, k.cfg, k.phase1);
    var answered := RespondAggressive(c, cfg, x1.data, x1.phase1);
    && x1.data == a1 && answered.Ok?
    && var done := CompleteAggressive(c, ai, answered.value.0);
    && done.Ok? && x2.data == done.value.0
    && var started := Quick.InitiateQuick(c, done.value.1, k.quick, k.selectors);
    && started.Ok? && x3.data == started.value.0
    && var replied := Quick.RespondQuick(c, answered.value.1, x3.data, x3.quick);
    && replied.Ok?
    && Quick.InitiatorComplete(c, started.value.1, replied.value.0) == Ok((x4.data, child))
  }

  /** With compatible keys the client always gets to send all four. */
  lemma ClientSends(c: Crypto, k: Client, cfg: ResponderConfig, y1: Input, y3: Input)
    returns (x1: Input, x2: Input, x3: Input, x4: Input, child: ChildSa)
    requires Compatible(c, k, cfg, y1.phase1, y3.quick)
    ensures x1 == y1.(data := x1.data, sends := true) && x3 == y3.(data := x3.data, sends := true)
    ensures Sends(c, k, cfg, x1, x2, x3, x4, child)
  {
    hide InitiateAggressive, RespondAggressive, CompleteAggressive, VerifyHashI, Quick.InitiateQuick,
         Quick.RespondQuick, Quick.InitiatorComplete, Quick.ResponderComplete, Paired, Dh.ValidShare, Dh.Public,
         IdsFit;
    Quick.Ikev1Lockstep(c, k.cfg, cfg, k.phase1, y1.phase1, k.quick, y3.quick, k.selectors);
    Initiated(c, k.cfg, k.phase1);
    var (a1, ai) := InitiateAggressive(c, k.cfg, k.phase1);
    x1 := y1.(data := a1, sends := true);
    var answered := RespondAggressive(c, cfg, a1, y1.phase1).value;
    var done := CompleteAggressive(c, ai, answered.0).value;
    x2 := y1.(data := done.0);
    var started := Quick.InitiateQuick(c, done.1, k.quick, k.selectors).value;
    x3 := y3.(data := started.0, sends := true);
    var replied := Quick.RespondQuick(c, answered.1, started.0, y3.quick).value;
    var up := Quick.InitiatorComplete(c, started.1, replied.0).value;
    x4 := y3.(data := up.0);
    child := up.1;
  }

  /**
   The whole IKEv1 handshake: in whatever state the server is, and with any traffic under other
   cookies in between, the client's four messages are answered by Phase1SaInit, Phase1Established,
   QuickSaInit and ChildSaEstablished, and the client's ESP SAs mirror the ones in the server's table.
   */
  lemma ClientMeetsServer(c: Crypto, k: Client, cfg: ResponderConfig, s: ServerState, x1: Input, x2: Input, x3: Input,
                          x4: Input, o1: seq<Op>, o2: seq<Op>, o3: seq<Op>, child: ChildSa)
    requires Compatible(c, k, cfg, x1.phase1, x3.quick) && x1.sends && x3.sends
    requires Sends(c, k, cfg, x1, x2, x3, x4, child)
    requires Elsewhere(o1, k.phase1.cookie) && Elsewhere(o2, k.phase1.cookie) && Elsewhere(o3, k.phase1.cookie)
    ensures var (s1, e1) := Handle(c, cfg, s, x1);
      var (s2, e2) := Handle(c, cfg, RunFrom(c, cfg, s1, o1), x2);
      var (s3, e3) := Handle(c, cfg, RunFrom(c, cfg, s2, o2), x3);
      var (s4, e4) := Handle(c, cfg, RunFrom(c, cfg, s3, o3), x4);
      && e1 == Event(Phase1SaInit) && e2 == Event(Phase1Established) && e3 == Event(QuickSaInit)
      && e4 == Event(ChildSaEstablished(k.phase1.cookie))
      && k.phase1.cookie in s4.children && Paired(child, s4.children[k.phase1.cookie])
  {
    hide Handle, RunFrom, Elsewhere, InitiateAggressive, RespondAggressive, CompleteAggressive, VerifyHashI,
         Quick.InitiateQuick, Quick.RespondQuick, Quick.InitiatorComplete, Quick.ResponderComplete, Paired,
         Dh.ValidShare, Dh.Public, IdsFit, Dispatches, Shows, SessionOf, Server1.CookieOf;
    var cky := k.phase1.cookie;
    Quick.Ikev1Lockstep(c, k.cfg, cfg, k.phase1, x1.phase1, k.quick, x3.quick, k.selectors);
    AggressiveLockstep(c, k.cfg, cfg, k.phase1, x1.phase1);
    var (a1, ai) := InitiateAggressive(c, k.cfg, k.phase1);
    Initiated(c, k.cfg, k.phase1);
    var answered := RespondAggressive(c, cfg, a1, x1.phase1).value;
    var st := answered.1;
    var done := CompleteAggressive(c, ai, answered.0).value;
    var started := Quick.InitiateQuick(c, done.1, k.quick, k.selectors).value;
    var replied := Quick.RespondQuick(c, st, x3.data, x3.quick).value;
    IdFramed(k.cfg, cfg);
    FirstDispatch(c, k.cfg, k.phase1);
    ThirdDispatch(c, ai, answered.0);
    QuickDispatch(c, done.1, k.quick, k.selectors);
    LastDispatch(c, started.1, replied.0);
    ServerOpens(c, cfg, s, x1, cky);
    var s1 := Handle(c, cfg, s, x1).0;
    SessionWaits(c, cfg, s1, o1, cky);
    var t1 := RunFrom(c, cfg, s1, o1);
    ServerVerifies(c, cfg, t1, x2, cky, st);
    SessionWaits(c, cfg, t1, o2, cky);
    var t2 := RunFrom(c, cfg, t1, o2);
    ServerStartsQuick(c, cfg, t2, x3, cky, st);
    var s3 := Handle(c, cfg, t2, x3).0;
    SessionWaits(c, cfg, s3, o3, cky);
    ServerEstablishes(c, cfg, RunFrom(c, cfg, s3, o3), x4, cky, st, replied.1);
  }

  /**
   The same without message 3 of Aggressive Mode: the server never asks for it. A client with
   compatible keys that goes straight to Quick Mode gets Phase1SaInit, QuickSaInit and
   ChildSaEstablished, and mirrored ESP SAs.
   */
  lemma ThirdMessageIsOptional(c: Crypto, k: Client, cfg: ResponderConfig, s: ServerState, x1: Input, x2: Input,
                               x3: Input, x4: Input, o1: seq<Op>, o3: seq<Op>, child: ChildSa)
    requires Compatible(c, k, cfg, x1.phase1, x3.quick) && x1.sends && x3.sends
    requires Sends(c, k, cfg, x1, x2, x3, x4, child)
    requires Elsewhere(o1, k.phase1.cookie) && Elsewhere(o3, k.phase1.cookie)
    ensures var (s1, e1) := Handle(c, cfg, s, x1);
      var (s3, e3) := Handle(c, cfg, RunFrom(c, cfg, s1, o1), x3);
      var (s4, e4) := Handle(c, cfg, RunFrom(c, cfg, s3, o3), x4);
      && e1 == Event(Phase1SaInit) && e3 == Event(QuickSaInit) && e4 == Event(ChildSaEstablished(k.phase1.cookie))
      && k.phase1.cookie in s4.children && Paired(child, s4.children[k.phase1.cookie])
  {
    hide Handle, RunFrom, Elsewhere, Paired, Compatible, Sends;
    NothingElsewhere(c, cfg, Handle(c, cfg, s, x1).0, k.phase1.cookie);
    var t1 := RunFrom(c, cfg, Handle(c, cfg, s, x1).0, o1);
    ClientMeetsServer(c, k, cfg, s, x1, x2, x3, x4, o1, [], o3, child);
    SecondKeeps(c, k, cfg, s, x1, x2, x3, x4, o1, child);
    NothingElsewhere(c, cfg, t1, k.phase1.cookie);
  }

  lemma NothingElsewhere(c: Crypto, cfg: ResponderConfig, s: ServerState, cky: Cookie)
    ensures Elsewhere([], cky) && RunFrom(c, cfg, s, []) == s
  {
    hide Step;
  }

  /** Accepting message 3 leaves the server as it was. */
  lemma SecondKeeps(c: Crypto, k: Client, cfg: ResponderConfig, s: ServerState, x1: Input, x2: Input, x3: Input,
                    x4: Input, o1: seq<Op>, child: ChildSa)
    requires Compatible(c, k, cfg, x1.phase1, x3.quick) && Sends(c, k, cfg, x1, x2, x3, x4, child) && x1.sends
    requires Elsewhere(o1, k.phase1.cookie)
    ensures var t1 := RunFrom(c, cfg, Handle(c, cfg, s, x1).0, o1); Handle(c, cfg, t1, x2).0 == t1
  {
    hide Handle, RunFrom, Elsewhere, InitiateAggressive, RespondAggressive, CompleteAggressive, VerifyHashI,
         Quick.InitiateQuick, Quick.RespondQuick, Quick.InitiatorComplete, Dh.ValidShare, Dh.Public, IdsFit,
         Dispatches, Shows, SessionOf, Server1.CookieOf;
    var cky := k.phase1.cookie;
    AggressiveLockstep(c, k.cfg, cfg, k.phase1, x1.phase1);
    Initiated(c, k.cfg, k.phase1);
    var (a1, ai) := InitiateAggressive(c, k.cfg, k.phase1);
    var answered := RespondAggressive(c, cfg, a1, x1.phase1).value;
    IdFramed(k.cfg, cfg);
    FirstDispatch(c, k.cfg, k.phase1);
    ThirdDispatch(c, ai, answered.0);
    ServerOpens(c, cfg, s, x1, cky);
    SessionWaits(c, cfg, Handle(c, cfg, s, x1).0, o1, cky);
    ServerVerifies(c, cfg, RunFrom(c, cfg, Handle(c, cfg, s, x1).0, o1), x2, cky, answered.1);
  }

  lemma Initiated(c: Crypto, ci: InitiatorConfig, d: Phase1.Draw)
    requires DrawOk(d)
    ensures InitiateAggressive(c, ci, d).1.ckyI == d.cookie && InitiateAggressive(c, ci, d).1.private == d.private
  {
  }

  lemma IdFramed(ci: InitiatorConfig, cr: ResponderConfig)
    requires IdsFit(ci, cr)
    ensures FrameFits(IdBytes(ci.ourId))
  {
  }
}
