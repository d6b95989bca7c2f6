/**
 IKEv1 Phase 1, Aggressive Mode with a pre-shared key (src/ikev1/phase1.rs), both
 roles, and the agreement of the two.
 */
module Phase1 {
  import opened Common
  import opened Primitives
  import opened Framing
  import opened Isakmp
  import opened Payloads1
  import opened Crypto1
  import opened Dh

  /** 09002689dfd6b712, the XAUTH vendor ID. */
  const XAUTH_VENDOR_ID: Bytes := [0x09, 0x00, 0x26, 0x89, 0xdf, 0xd6, 0xb7, 0x12]

  predicate IsXauth(authMethod: U16) {
    65001 <= authMethod <= 65010
  }

  datatype ResponderConfig = ResponderConfig(psk: Bytes, ourId: Id)

  datatype Phase1State = Phase1State(
    prf: Prf, group: DhGroup, ckyI: Cookie, ckyR: Cookie, skeyid: Bytes, skeyidD: Bytes, skeyidA: Bytes, skeyidE: Bytes,
    encKey: Bytes, phase1Iv: CbcIv, gxi: Bytes, gxr: Bytes, ni: Bytes, nr: Bytes, saiB: Bytes, idiiB: Bytes)

  // ----- choosing a transform -----

  datatype Chosen = Chosen(transform: Transform, prf: Prf, group: DhGroup)

  function PrfFor(h: Option<U16>): Option<Prf> {
    if h == Some(HASH_SHA2_256) then Some(Sha256) else if h == Some(HASH_SHA1) then Some(Sha1) else None
  }

  function GroupFor(g: Option<U16>): Option<DhGroup> {
    if g == Some(2) then Some(Modp1024) else if g == Some(14) then Some(Modp2048) else None
  }

  /** A transform as we would use it: AES-256-CBC, a hash, a group and an authentication method that are supported. */
  function Usable(t: Transform): Option<Chosen> {
    var prf, group := PrfFor(Attr(t.attributes, ATTR_HASH)), GroupFor(Attr(t.attributes, ATTR_GROUP_DESC));
    var auth := Attr(t.attributes, ATTR_AUTH_METHOD);
    if && Attr(t.attributes, ATTR_ENCRYPTION) == Some(ENC_AES_CBC) && Attr(t.attributes, ATTR_KEY_LENGTH) == Some(256)
       && prf.Some? && group.Some? && (auth == Some(AUTH_PSK) || auth == Some(AUTH_XAUTH_INIT_PSK))
    then Some(Chosen(t, prf.value, group.value))
    else None
  }

  function FirstUsable(ts: seq<Transform>): Option<Chosen> {
    if ts == [] then None else if Usable(ts[0]).Some? then Usable(ts[0]) else FirstUsable(ts[1..])
  }

  function SelectFrom(ps: seq<Proposal>): Option<Chosen> {
    if ps == [] then None
    else if FirstUsable(ps[0].transforms).Some? then FirstUsable(ps[0].transforms)
    else SelectFrom(ps[1..])
  }

  /** The source's nested loop with its `continue`s. */
  method SelectTransform(sa: SaPayload) returns (r: Option<Chosen>)
    ensures r == SelectFrom(sa.proposals)
  {
    hide Attr;
    for i := 0 to |sa.proposals|
      invariant SelectFrom(sa.proposals[i..]) == SelectFrom(sa.proposals)
    {
      var ts := sa.proposals[i].transforms;
      for j := 0 to |ts|
        invariant FirstUsable(ts[j..]) == FirstUsable(ts)
      {
        var t := ts[j];
        assert ts[j..][0] == t && ts[j..][1..] == ts[j + 1..];
        var encr, keyLength := Attr(t.attributes, ATTR_ENCRYPTION), Attr(t.attributes, ATTR_KEY_LENGTH);
        if encr != Some(ENC_AES_CBC) || keyLength != Some(256) {
          continue;
        }
        var prf;
        match Attr(t.attributes, ATTR_HASH) {
          case Some(h) =>
            if h == HASH_SHA2_256 {
              prf := Sha256;
            } else if h == HASH_SHA1 {
              prf := Sha1;
            } else {
              continue;
            }
          case None => continue;
        }
        var group;
        match Attr(t.attributes, ATTR_GROUP_DESC) {
          case Some(g) =>
            if g == 2 {
              group := Modp1024;
            } else if g == 14 {
              group := Modp2048;
            } else {
              continue;
            }
          case None => continue;
        }
        var auth := Attr(t.attributes, ATTR_AUTH_METHOD);
        if auth != Some(AUTH_PSK) && auth != Some(AUTH_XAUTH_INIT_PSK) {
          continue;
        }
        assert sa.proposals[i..][0] == sa.proposals[i];
        return Some(Chosen(t, prf, group));
      }
      assert ts[|ts|..] == [];
      assert sa.proposals[i..][0] == sa.proposals[i] && sa.proposals[i..][1..] == sa.proposals[i + 1..];
    }
    return None;
  }

  /**
   Which transforms are usable: those whose attributes offer AES-CBC with 256-bit keys, SHA-1 or
   SHA2-256, group 2 or 14, and a pre-shared key with or without XAUTH.
   */
  lemma UsableExactly(t: Transform, prf: Prf, group: DhGroup)
    ensures Usable(t) == Some(Chosen(t, prf, group)) <==>
      && Offers(t.attributes, 1, 7) && Offers(t.attributes, 14, 256)
      && Offers(t.attributes, 2, if prf.Sha1? then 2 else 4)
      && !group.GroupX25519? && Offers(t.attributes, 4, if group.Modp1024? then 2 else 14)
      && (Offers(t.attributes, 3, 1) || Offers(t.attributes, 3, 65001))
    ensures Usable(t).Some? ==> Usable(t).value.transform == t
  {
    hide Attr, Offers;
    AttrExactly(t.attributes, 1, 7);
    AttrExactly(t.attributes, 14, 256);
    AttrExactly(t.attributes, 2, if prf.Sha1? then 2 else 4);
    AttrExactly(t.attributes, 4, if group.Modp1024? then 2 else 14);
    AttrExactly(t.attributes, 3, 1);
    AttrExactly(t.attributes, 3, 65001);
  }

  /** Position (i, j) comes before (k, l) in the order of the offer. */
  predicate Before(i: nat, j: nat, k: nat, l: nat) {
    i < k || (i == k && j < l)
  }

  predicate UsableAt(ps: seq<Proposal>, i: nat, j: nat) {
    i < |ps| && j < |ps[i].transforms| && Usable(ps[i].transforms[j]).Some?
  }

  lemma {:induction false} FirstUsableAt(ts: seq<Transform>) returns (j: nat)
    ensures FirstUsable(ts).None? ==> forall l :: 0 <= l < |ts| ==> Usable(ts[l]).None?
    ensures FirstUsable(ts).Some? ==>
      j < |ts| && FirstUsable(ts) == Usable(ts[j]) && forall l :: 0 <= l < j ==> Usable(ts[l]).None?
  {
    hide Usable;
    j := 0;
    if ts != [] && Usable(ts[0]).None? {
      var k := FirstUsableAt(ts[1..]);
      j := k + 1;
    }
  }

  /**
   The selection is the first usable transform in the order of the offer, and there is one exactly
   when some transform is usable.
   */
  lemma {:induction false} SelectIsFirst(ps: seq<Proposal>) returns (i: nat, j: nat)
    ensures SelectFrom(ps).None? ==> forall k, l :: !UsableAt(ps, k, l)
    ensures SelectFrom(ps).Some? ==>
      && UsableAt(ps, i, j) && SelectFrom(ps) == Usable(ps[i].transforms[j])
      && forall k, l :: UsableAt(ps, k, l) ==> !Before(k, l, i, j)
  {
    hide Usable;
    i, j := 0, 0;
    if ps != [] {
      j := FirstUsableAt(ps[0].transforms);
      if FirstUsable(ps[0].transforms).None? {
        i, j := SelectIsFirst(ps[1..]);
        i := i + 1;
        forall k: nat, l: nat | UsableAt(ps, k, l) ensures k > 0 && UsableAt(ps[1..], k - 1, l) {
        }
      }
    }
  }

  // ----- the responder -----

  /** What one side draws from the entropy source. */
  datatype Draw = Draw(cookie: Cookie, private: Bytes, nonce: Bytes)

  predicate DrawOk(d: Draw) {
    |d.private| == 32 && |d.nonce| == 16
  }

  function AggressiveHeader(ckyI: Cookie, ckyR: Cookie): IsakmpHeader {
    IsakmpHeader(ckyI, ckyR, P_NONE, VERSION_1_0, EX_AGGRESSIVE, 0, 0, 0)
  }

  /** The state both roles compute from the exchanged values. */
  function DeriveState(c: Crypto, prf: Prf, group: DhGroup, psk: Bytes, ckyI: Cookie, ckyR: Cookie, gxi: Bytes,
                       gxr: Bytes, gxy: Bytes, ni: Bytes, nr: Bytes, saiB: Bytes, idiiB: Bytes): Phase1State {
    var k := DeriveSkeyids(c, prf, psk, ni, nr, gxy, ckyI, ckyR);
    Phase1State(prf, group, ckyI, ckyR, k.skeyid, k.d, k.a, k.e, DeriveCipherKey(c, prf, k.e, 32),
                Phase1Iv(c, prf, gxi, gxr),
                gxi, gxr, ni, nr, saiB, idiiB)
  }

  /** The chosen transform alone, under the initiator's DOI and situation. */
  function EchoSa(sa: SaPayload, t: Transform): SaPayload {
    SaPayload(sa.doi, sa.situation, [Proposal(1, PROTO_ISAKMP, [], [t])])
  }

  function Message2(saR: SaPayload, gxr: Bytes, nr: Bytes, idir: Bytes, hashR: Bytes, authMethod: U16): seq<Payload> {
    [Payload(P_SA, SaBytes(saR)), Payload(P_KE, gxr), Payload(P_NONCE, nr), Payload(P_ID, idir), Payload(P_HASH, hashR)]
    + if IsXauth(authMethod) then [Payload(P_VENDOR_ID, XAUTH_VENDOR_ID)] else []
  }

  function RespondAggressive(c: Crypto, cfg: ResponderConfig, msg1: Bytes, d: Draw): Result<(Bytes, Phase1State)>
    requires DrawOk(d)
  {
    var hdr :- ParseHeader(msg1);
    if hdr.exchange != EX_AGGRESSIVE then Err(CryptoError(NotAggressive))
    else
      var ps :- ParsePayloads(hdr.nextPayload, msg1[HEADER_LEN..]);
      var saiB :- OkOr(Find(ps, P_SA), MissingPayload(MissSa));
      var gxi :- OkOr(Find(ps, P_KE), MissingPayload(MissKe));
      var ni :- OkOr(Find(ps, P_NONCE), MissingPayload(MissNonce));
      var idiiB :- OkOr(Find(ps, P_ID), MissingPayload(MissId));
      var sa :- ParseSa(saiB);
      var chosen :- OkOr(SelectFrom(sa.proposals), NoProposalChosen);
      if |gxi| != PublicLen(chosen.group) then Err(BadKeyExchange(GroupId(chosen.group), |gxi|))
      else
        var gxr := Public(c, chosen.group, d.private);
        var gxy :- Shared(c, chosen.group, d.private, gxi);
        var st := DeriveState(c, chosen.prf, chosen.group, cfg.psk, hdr.initCookie, d.cookie, gxi, gxr, gxy, ni,
                              d.nonce, saiB, idiiB);
        var idir := IdBytes(cfg.ourId);
        var hashR := HashR(c, chosen.prf, st.skeyid, gxr, gxi, d.cookie, hdr.initCookie, saiB, idir);
        var authMethod := match Attr(chosen.transform.attributes, ATTR_AUTH_METHOD) case Some(v) => v case None => 0;
        Ok((BuildMessage(AggressiveHeader(hdr.initCookie, d.cookie),
                         Message2(EchoSa(sa, chosen.transform), gxr, d.nonce, idir, hashR, authMethod)), st))
  }

  /**
   What an accepted message 1 leaves behind: keys of the configured pre-shared key and of one
   Diffie-Hellman secret.
   */
  lemma StateFromPsk(c: Crypto, cfg: ResponderConfig, msg1: Bytes, d: Draw) returns (gxy: Bytes)
    requires DrawOk(d) && RespondAggressive(c, cfg, msg1, d).Ok?
    ensures var st := RespondAggressive(c, cfg, msg1, d).value.1;
      && st.skeyid == st.prf.Mac(c, cfg.psk, st.ni + st.nr)
      && Shared(c, st.group, d.private, st.gxi) == Ok(gxy)
      && st.skeyidA == SkeyidNumber(c, st.prf, st.skeyid, gxy + st.ckyI + st.ckyR, 1)
      && st.skeyidD == SkeyidNumber(c, st.prf, st.skeyid, gxy + st.ckyI + st.ckyR, 0)
      && st.skeyidE == SkeyidNumber(c, st.prf, st.skeyid, gxy + st.ckyI + st.ckyR, 2)
      && st.phase1Iv == st.prf.Hash(c, st.gxi + st.gxr)[..16] && st.encKey == DeriveCipherKey(c, st.prf, st.skeyidE, 32)
      && st.ckyR == d.cookie && st.nr == d.nonce && st.gxr == Public(c, st.group, d.private)
  {
    hide ParseHeader, ParsePayloads, Find, ParseSa, SelectFrom, Shared, Public, BuildMessage, HashR, Message2, Attr,
         DeriveCipherKey, SkeyidNumber, IdBytes, GroupId, PublicLen;
    var st := RespondAggressive(c, cfg, msg1, d).value.1;
    gxy := Shared(c, st.group, d.private, st.gxi).value;
    SkeyidChain(c, st.prf, cfg.psk, st.ni, st.nr, gxy, st.ckyI, st.ckyR);
  }

  /** Check the initiator's HASH_I, in the clear or encrypted under the Phase 1 IV. */
  function VerifyHashI(c: Crypto, st: Phase1State, msg3: Bytes): Result<()> {
    var hdr :- ParseHeader(msg3);
    var body := msg3[HEADER_LEN..];
    var plain :- if Encrypted(hdr) then CbcDecrypt(c, st.encKey, st.phase1Iv, body) else Ok(body);
    var ps :- ParsePayloads(hdr.nextPayload, plain);
    var got :- OkOr(Find(ps, P_HASH), MissingPayload(MissHash));
    if got == HashI(c, st.prf, st.skeyid, st.gxi, st.gxr, st.ckyI, st.ckyR, st.saiB, st.idiiB) then Ok(())
    else Err(AuthFailed)
  }

  /**
   Message 1 is accepted exactly when it is an Aggressive Mode message that parses with its four payloads,
   its SA parses and offers a usable transform, and its share is one the group of that transform accepts.
   */
  lemma RespondExactly(c: Crypto, cfg: ResponderConfig, msg1: Bytes, d: Draw)
    requires DrawOk(d)
    ensures RespondAggressive(c, cfg, msg1, d).Ok? <==>
      && var h := ParseHeader(msg1);
      && h.Ok? && |msg1| >= 28 && h.value.exchange == 4
      && var ps := ParsePayloads(h.value.nextPayload, msg1[28..]);
      && ps.Ok? && Find(ps.value, P_SA).Some? && Find(ps.value, P_KE).Some?
      && Find(ps.value, P_NONCE).Some? && Find(ps.value, P_ID).Some?
      && var sa := ParseSa(Find(ps.value, P_SA).value);
      && sa.Ok? && SelectFrom(sa.value.proposals).Some?
      && ValidShare(SelectFrom(sa.value.proposals).value.group, Find(ps.value, P_KE).value)
  {
    hide ParsePayloads, Find, ParseSa, SelectFrom, Shared, Public, BuildMessage, HashR, Message2, Attr, DeriveState,
         IdBytes, GroupId, ModpValid, Prime;
  }

  /** The plain payload octets of message 3: as they are, or decrypted under the Phase 1 IV when the flag says so. */
  function Opened3(c: Crypto, st: Phase1State, hdr: IsakmpHeader, body: Bytes): Result<Bytes> {
    if hdr.flags % 2 == 1 then CbcDecrypt(c, st.encKey, st.phase1Iv, body) else Ok(body)
  }

  /** Message 3 carries, in the clear or encrypted, HASH_I of section 5 of RFC 2409, written out. */
  predicate ProvesHashI(c: Crypto, st: Phase1State, msg3: Bytes) {
    var h := ParseHeader(msg3);
    && h.Ok? && |msg3| >= 28
    && var plain := Opened3(c, st, h.value, msg3[28..]);
    && plain.Ok?
    && var ps := ParsePayloads(h.value.nextPayload, plain.value);
    && ps.Ok?
    && Find(ps.value, P_HASH)
       == Some(st.prf.Mac(c, st.skeyid, st.gxi + st.gxr + st.ckyI + st.ckyR + st.saiB + st.idiiB))
  }

  /** Message 3 is accepted exactly when it proves HASH_I. */
  lemma HashIExactly(c: Crypto, st: Phase1State, msg3: Bytes)
    ensures VerifyHashI(c, st, msg3).Ok? <==> ProvesHashI(c, st, msg3)
  {
    hide ParsePayloads, Find, CbcDecrypt;
  }

  // ----- the initiator -----

  datatype InitiatorConfig = InitiatorConfig(psk: Bytes, ourId: Id, group: DhGroup, xauth: bool)

  function OfferAttributes(group: DhGroup, xauth: bool): seq<Attribute> {
    [Attribute(ATTR_ENCRYPTION, Short(ENC_AES_CBC)), Attribute(ATTR_KEY_LENGTH, Short(256)),
     Attribute(ATTR_HASH, Short(HASH_SHA2_256)),
     Attribute(ATTR_GROUP_DESC, Short(GroupId(group))),
     Attribute(ATTR_AUTH_METHOD, Short(if xauth then AUTH_XAUTH_INIT_PSK else AUTH_PSK)),
     Attribute(ATTR_LIFE_TYPE, Short(1)), LongU32(ATTR_LIFE_DURATION, 28800)]
  }

  function OfferTransform(group: DhGroup, xauth: bool): Transform {
    Transform(1, 1, OfferAttributes(group, xauth))
  }

  function InitiatorSa(group: DhGroup, xauth: bool): SaPayload {
    SaPayload(IPSEC_DOI, SIT_IDENTITY_ONLY, [Proposal(1, PROTO_ISAKMP, [], [OfferTransform(group, xauth)])])
  }

  datatype AggressiveInitiator = AggressiveInitiator(
    prf: Prf, group: DhGroup, psk: Bytes, ckyI: Cookie, private: Bytes, gxi: Bytes, ni: Bytes, idiB: Bytes, saiB: Bytes)

  function Message1(saB: Bytes, gxi: Bytes, ni: Bytes, idB: Bytes): seq<Payload> {
    [Payload(P_SA, saB), Payload(P_KE, gxi), Payload(P_NONCE, ni), Payload(P_ID, idB)]
  }

  function InitiateAggressive(c: Crypto, cfg: InitiatorConfig, d: Draw): (Bytes, AggressiveInitiator)
    requires DrawOk(d)
  {
    var gxi, saiB := Public(c, cfg.group, d.private), SaBytes(InitiatorSa(cfg.group, cfg.xauth));
    var idiB := IdBytes(cfg.ourId);
    (BuildMessage(AggressiveHeader(d.cookie, Zeros(8)), Message1(saiB, gxi, d.nonce, idiB)),
     AggressiveInitiator(Sha256, cfg.group, cfg.psk, d.cookie, d.private, gxi, d.nonce, idiB, saiB))
  }

  function CompleteAggressive(c: Crypto, ai: AggressiveInitiator, msg2: Bytes): Result<(Bytes, Phase1State)>
    requires |ai.private| == 32
  {
    var hdr :- ParseHeader(msg2);
    if hdr.exchange != EX_AGGRESSIVE then Err(CryptoError(NotAggressive))
    else
      var ps :- ParsePayloads(hdr.nextPayload, msg2[HEADER_LEN..]);
      var gxr :- OkOr(Find(ps, P_KE), MissingPayload(MissKe));
      var nr :- OkOr(Find(ps, P_NONCE), MissingPayload(MissNonce));
      var hashR :- OkOr(Find(ps, P_HASH), MissingPayload(MissHash));
      var idrB :- OkOr(Find(ps, P_ID), MissingPayload(MissId));
      if |gxr| != PublicLen(ai.group) then Err(BadKeyExchange(GroupId(ai.group), |gxr|))
      else
        var gxy :- Shared(c, ai.group, ai.private, gxr);
        var st := DeriveState(c, ai.prf, ai.group, ai.psk, ai.ckyI, hdr.respCookie, ai.gxi, gxr, gxy, ai.ni, nr,
                              ai.saiB, ai.idiB);
        if hashR != HashR(c, ai.prf, st.skeyid, gxr, ai.gxi, hdr.respCookie, ai.ckyI, ai.saiB, idrB) then
          Err(AuthFailed)
        else
          var hashI := HashI(c, ai.prf, st.skeyid, ai.gxi, gxr, ai.ckyI, hdr.respCookie, ai.saiB, ai.idiB);
          Ok((BuildMessage(AggressiveHeader(ai.ckyI, hdr.respCookie), [Payload(P_HASH, hashI)]), st))
  }

  /** An Aggressive Mode message that parses and carries a key exchange, a nonce and an identity. */
  predicate ReadsAs(m: Bytes, ke: Bytes, nonce: Bytes, id: Bytes) {
    var h := ParseHeader(m);
    && h.Ok? && |m| >= 28 && h.value.exchange == 4
    && var ps := ParsePayloads(h.value.nextPayload, m[28..]);
    && ps.Ok? && Find(ps.value, P_KE) == Some(ke) && Find(ps.value, P_NONCE) == Some(nonce)
    && Find(ps.value, P_ID) == Some(id)
  }

  /** The HASH payload of a message that parses. */
  function HashOf(m: Bytes): Option<Bytes> {
    match ParseHeader(m)
    case Err(_) => None
    case Ok(h) =>
      if |m| < 28 then None
      else match ParsePayloads(h.nextPayload, m[28..])
        case Err(_) => None
        case Ok(ps) => Find(ps, P_HASH)
  }

  function ResponderCookie(m: Bytes): Cookie {
    match ParseHeader(m)
    case Ok(h) => h.respCookie
    case Err(_) => Zeros(8)
  }

  /** Message 2 is acceptable: HASH_R of section 5 of RFC 2409, written out, under a valid share. */
  predicate ProvesHashR(c: Crypto, ai: AggressiveInitiator, msg2: Bytes, gxr: Bytes, nr: Bytes, idrB: Bytes) {
    && ReadsAs(msg2, gxr, nr, idrB) && ValidShare(ai.group, gxr)
    && HashOf(msg2) == Some(ai.prf.Mac(c, ai.prf.Mac(c, ai.psk, ai.ni + nr),
                                       gxr + ai.gxi + ResponderCookie(msg2) + ai.ckyI + ai.saiB + idrB))
  }

  /**
   The initiator completes exactly when message 2 parses with its four payloads, its share is valid and
   its HASH is HASH_R under the configured pre-shared key. Its state then has that SKEYID, the values of
   message 2 and its own, and the keys of the secret of the two shares; and message 3 carries HASH_I.
   */
  lemma CompleteExactly(c: Crypto, ai: AggressiveInitiator, msg2: Bytes)
    requires |ai.private| == 32
    ensures CompleteAggressive(c, ai, msg2).Ok? <==> exists gxr, nr, idrB :: ProvesHashR(c, ai, msg2, gxr, nr, idrB)
    ensures forall gxr, nr, idrB :: ProvesHashR(c, ai, msg2, gxr, nr, idrB) && CompleteAggressive(c, ai, msg2).Ok? ==>
      Completed(c, ai, CompleteAggressive(c, ai, msg2).value.1, ResponderCookie(msg2), gxr, nr)
      && ProvesHashI(c, CompleteAggressive(c, ai, msg2).value.1, CompleteAggressive(c, ai, msg2).value.0)
  {
    hide ParsePayloads, Find, Shared, ValidShare, BuildMessage, HashI, DeriveState, ProvesHashI, Completed, PublicLen;
    var r := CompleteAggressive(c, ai, msg2);
    forall gxr, nr, idrB | ProvesHashR(c, ai, msg2, gxr, nr, idrB)
      ensures r.Ok? && Completed(c, ai, r.value.1, ResponderCookie(msg2), gxr, nr)
      ensures ProvesHashI(c, r.value.1, r.value.0)
    {
      ShareLength(ai.group, gxr);
      CompletesWith(c, ai, msg2, gxr, nr, idrB);
    }
    if r.Ok? {
      ProvedBy(c, ai, msg2);
    }
  }

  lemma ShareLength(g: DhGroup, peer: Bytes)
    requires ValidShare(g, peer)
    ensures |peer| == PublicLen(g)
  {
  }

  /** What a completed initiator holds. */
  ghost predicate Completed(c: Crypto, ai: AggressiveInitiator, st: Phase1State, ckyR: Cookie, gxr: Bytes, nr: Bytes)
    requires |ai.private| == 32
  {
    && st.skeyid == ai.prf.Mac(c, ai.psk, ai.ni + nr)
    && st.prf == ai.prf && st.group == ai.group && st.ckyI == ai.ckyI && st.ckyR == ckyR
    && st.gxi == ai.gxi && st.gxr == gxr && st.ni == ai.ni && st.nr == nr && st.saiB == ai.saiB && st.idiiB == ai.idiB
    && var gxy := Shared(c, ai.group, ai.private, gxr);
    && gxy.Ok?
    && st.skeyidD == SkeyidNumber(c, st.prf, st.skeyid, gxy.value + st.ckyI + st.ckyR, 0)
    && st.skeyidA == SkeyidNumber(c, st.prf, st.skeyid, gxy.value + st.ckyI + st.ckyR, 1)
    && st.skeyidE == SkeyidNumber(c, st.prf, st.skeyid, gxy.value + st.ckyI + st.ckyR, 2)
    && st.phase1Iv == st.prf.Hash(c, st.gxi + st.gxr)[..16] && st.encKey == DeriveCipherKey(c, st.prf, st.skeyidE, 32)
  }

  lemma CompletesWith(c: Crypto, ai: AggressiveInitiator, msg2: Bytes, gxr: Bytes, nr: Bytes, idrB: Bytes)
    requires |ai.private| == 32 && ProvesHashR(c, ai, msg2, gxr, nr, idrB)
    ensures var r := CompleteAggressive(c, ai, msg2);
      r.Ok? && Completed(c, ai, r.value.1, ResponderCookie(msg2), gxr, nr) && ProvesHashI(c, r.value.1, r.value.0)
  {
    hide ParsePayloads, Find, Shared, BuildMessage, HashI, DeriveCipherKey, SkeyidNumber, ProvesHashI, ModpValid, Prime;
    var gxy := Shared(c, ai.group, ai.private, gxr).value;
    var st := DeriveState(c, ai.prf, ai.group, ai.psk, ai.ckyI, ResponderCookie(msg2), ai.gxi, gxr, gxy, ai.ni, nr,
                          ai.saiB, ai.idiB);
    SkeyidChain(c, ai.prf, ai.psk, ai.ni, nr, gxy, ai.ckyI, ResponderCookie(msg2));
    HashIReads(c, st);
    HashIExactly(c, st, CompleteAggressive(c, ai, msg2).value.0);
  }

  lemma ProvedBy(c: Crypto, ai: AggressiveInitiator, msg2: Bytes)
    requires |ai.private| == 32 && CompleteAggressive(c, ai, msg2).Ok?
    ensures exists gxr, nr, idrB :: ProvesHashR(c, ai, msg2, gxr, nr, idrB)
  {
    hide ParsePayloads, Find, Shared, BuildMessage, HashI, DeriveCipherKey, ModpValid, Prime, Phase1Iv;
    var ps := ParsePayloads(ParseHeader(msg2).value.nextPayload, msg2[28..]).value;
    var gxr, nr, idrB := Find(ps, P_KE).value, Find(ps, P_NONCE).value, Find(ps, P_ID).value;
    assert ProvesHashR(c, ai, msg2, gxr, nr, idrB);
  }

  // ----- agreement -----

  lemma OfferAttrs(group: DhGroup, xauth: bool)
    ensures var attrs := OfferAttributes(group, xauth);
      && Attr(attrs, ATTR_ENCRYPTION) == Some(ENC_AES_CBC) && Attr(attrs, ATTR_KEY_LENGTH) == Some(256)
      && Attr(attrs, ATTR_HASH) == Some(HASH_SHA2_256) && Attr(attrs, ATTR_GROUP_DESC) == Some(GroupId(group))
      && Attr(attrs, ATTR_AUTH_METHOD) == Some(if xauth then AUTH_XAUTH_INIT_PSK else AUTH_PSK)
  {
    hide Attr;
    var attrs := OfferAttributes(group, xauth);
    AttrAt(attrs, ATTR_ENCRYPTION, 0);
    AttrAt(attrs, ATTR_KEY_LENGTH, 1);
    AttrAt(attrs, ATTR_HASH, 2);
    AttrAt(attrs, ATTR_GROUP_DESC, 3);
    AttrAt(attrs, ATTR_AUTH_METHOD, 4);
  }

  /** Our own offer is usable exactly when its group is one of the two MODP groups. */
  lemma OfferSelected(group: DhGroup, xauth: bool)
    ensures SelectFrom(InitiatorSa(group, xauth).proposals)
         == if group.GroupX25519? then None else Some(Chosen(OfferTransform(group, xauth), Sha256, group))
  {
    hide Attr, OfferAttributes;
    OfferAttrs(group, xauth);
    var t := OfferTransform(group, xauth);
    assert Usable(t) == if group.GroupX25519? then None else Some(Chosen(t, Sha256, group));
    var ps := InitiatorSa(group, xauth).proposals;
    assert ps[1..] == [] && ps[0].transforms[1..] == [];
    assert SelectFrom(ps[1..]) == None && FirstUsable(ps[0].transforms[1..]) == None;
    assert FirstUsable(ps[0].transforms) == Usable(t);
  }

  lemma {:induction false} AttributesLength(attrs: seq<Attribute>, bound: nat)
    requires forall i :: 0 <= i < |attrs| ==> AttributeSize(attrs[i]) <= bound
    ensures |AttributesBytes(attrs)| <= bound * |attrs|
  {
    hide AttributeBytes;
    if attrs != [] {
      AttributesLength(attrs[1..], bound);
      assert bound * |attrs| == bound * |attrs[1..]| + bound;
    }
  }

  /** A tree of one proposal with one transform of at most a handful of small attributes fits, and prints small. */
  lemma SmallSa(doi: U32, situation: U32, protocol: Byte, spi: Bytes, t: Transform)
    requires |spi| <= 8 && |t.attributes| <= 8
    requires forall i :: 0 <= i < |t.attributes| ==>
      AttributeFits(t.attributes[i]) && AttributeSize(t.attributes[i]) <= 8
    ensures var sa := SaPayload(doi, situation, [Proposal(1, protocol, spi, [t])]);
      SaFits(sa) && NonEmptyTree(sa) && |SaBytes(sa)| <= 100 && ParseSa(SaBytes(sa)) == Ok(sa)
  {
    hide AttributesBytes, ParseSa, AttributeFits, AttributeSize;
    AttributesLength(t.attributes, 8);
    var p := Proposal(1, protocol, spi, [t]);
    var sa := SaPayload(doi, situation, [p]);
    OneFrame(P_TRANSFORM, TransformBytes(t));
    assert TransformPayloads([t]) == [Payload(P_TRANSFORM, TransformBytes(t))];
    assert |ProposalBytes(p)| == 8 + |spi| + |TransformBytes(t)|;
    OneFrame(P_PROPOSAL, ProposalBytes(p));
    assert ProposalPayloads([p]) == [Payload(P_PROPOSAL, ProposalBytes(p))];
    SaRoundTrip(sa);
  }

  lemma OneFrame(t: Byte, data: Bytes)
    ensures |Encode([Payload(t, data)])| == 4 + |data|
  {
    var ps := [Payload(t, data)];
    assert ps[1..] == [];
  }

  lemma OfferReads(group: DhGroup, xauth: bool)
    ensures var sa := InitiatorSa(group, xauth);
      |SaBytes(sa)| <= 100 && ParseSa(SaBytes(sa)) == Ok(sa) && EchoSa(sa, OfferTransform(group, xauth)) == sa
  {
    hide SaBytes, ParseSa;
    SmallSa(IPSEC_DOI, SIT_IDENTITY_ONLY, PROTO_ISAKMP, [], OfferTransform(group, xauth));
  }

  lemma Message1Found(saB: Bytes, gxi: Bytes, ni: Bytes, idB: Bytes)
    ensures var ps := Message1(saB, gxi, ni, idB);
      Find(ps, P_SA) == Some(saB) && Find(ps, P_KE) == Some(gxi) && Find(ps, P_NONCE) == Some(ni)
      && Find(ps, P_ID) == Some(idB)
  {
    hide Find;
    var ps := Message1(saB, gxi, ni, idB);
    FindAt(ps, P_SA, 0);
    FindAt(ps, P_KE, 1);
    FindAt(ps, P_NONCE, 2);
    FindAt(ps, P_ID, 3);
  }

  lemma Message2Found(saR: SaPayload, gxr: Bytes, nr: Bytes, idir: Bytes, hashR: Bytes, authMethod: U16)
    ensures var ps := Message2(saR, gxr, nr, idir, hashR, authMethod);
      Find(ps, P_KE) == Some(gxr) && Find(ps, P_NONCE) == Some(nr) && Find(ps, P_ID) == Some(idir)
      && Find(ps, P_HASH) == Some(hashR)
  {
    hide Find, SaBytes;
    var ps := Message2(saR, gxr, nr, idir, hashR, authMethod);
    FindAt(ps, P_KE, 1);
    FindAt(ps, P_NONCE, 2);
    FindAt(ps, P_ID, 3);
    FindAt(ps, P_HASH, 4);
  }

  /** The XAUTH vendor ID is sent exactly for the XAUTH methods, 65001 to 65010, and the SA echoes the one transform. */
  lemma Message2Says(sa: SaPayload, t: Transform, gxr: Bytes, nr: Bytes, idir: Bytes, hashR: Bytes, authMethod: U16)
    ensures var ps := Message2(EchoSa(sa, t), gxr, nr, idir, hashR, authMethod);
      && Find(ps, P_VENDOR_ID) == (if 65001 <= authMethod <= 65010
                                   then Some([0x09, 0x00, 0x26, 0x89, 0xdf, 0xd6, 0xb7, 0x12]) else None)
      && Find(ps, P_SA) == Some(SaBytes(SaPayload(sa.doi, sa.situation, [Proposal(1, 1, [], [t])])))
  {
    hide Find, SaBytes;
    var ps := Message2(EchoSa(sa, t), gxr, nr, idir, hashR, authMethod);
    FindAt(ps, P_SA, 0);
    if IsXauth(authMethod) {
      FindAt(ps, P_VENDOR_ID, 5);
    } else {
      FindNone(ps, P_VENDOR_ID);
    }
  }

  /** The identities fit their payloads. */
  predicate IdsFit(ci: InitiatorConfig, cr: ResponderConfig) {
    FrameFits(IdBytes(ci.ourId)) && FrameFits(IdBytes(cr.ourId))
  }

  /** What the responder sends, for the offer of an initiator with a MODP group. */
  function Answer2(c: Crypto, ci: InitiatorConfig, cr: ResponderConfig, di: Draw, dr: Draw,
                   st: Phase1State): seq<Payload>
    requires DrawOk(dr)
  {
    Message2(InitiatorSa(ci.group, ci.xauth), Public(c, ci.group, dr.private), dr.nonce, IdBytes(cr.ourId),
             HashR(c, Sha256, st.skeyid, Public(c, ci.group, dr.private), st.gxi, dr.cookie, di.cookie, st.saiB,
                   IdBytes(cr.ourId)),
             if ci.xauth then AUTH_XAUTH_INIT_PSK else AUTH_PSK)
  }

  /** The state both sides should end in. */
  function Expected(c: Crypto, psk: Bytes, ci: InitiatorConfig, di: Draw, dr: Draw, gxy: Bytes): Phase1State
    requires DrawOk(di) && DrawOk(dr)
  {
    DeriveState(c, Sha256, ci.group, psk, di.cookie, dr.cookie, Public(c, ci.group, di.private),
                Public(c, ci.group, dr.private), gxy,
                di.nonce, dr.nonce, SaBytes(InitiatorSa(ci.group, ci.xauth)), IdBytes(ci.ourId))
  }

  lemma ResponderReads(c: Crypto, ci: InitiatorConfig, cr: ResponderConfig, di: Draw, dr: Draw)
    requires DrawOk(di) && DrawOk(dr) && IdsFit(ci, cr)
    ensures var gxi := Public(c, ci.group, di.private);
      RespondAggressive(c, cr, InitiateAggressive(c, ci, di).0, dr)
      == if ci.group.GroupX25519? then Err(NoProposalChosen)
         else if !ValidShare(ci.group, gxi) then Err(BadKeyExchange(GroupId(ci.group), |gxi|))
         else
           var st := Expected(c, cr.psk, ci, di, dr, Shared(c, ci.group, dr.private, gxi).value);
           Ok((BuildMessage(AggressiveHeader(di.cookie, dr.cookie), Answer2(c, ci, cr, di, dr, st)), st))
  {
    hide ParseHeader, ParsePayloads, Find, ParseSa, SaBytes, BuildMessage, Public, Shared, ValidShare, DeriveSkeyids,
         IdBytes, Attr, HashR, DeriveCipherKey, Phase1Iv, SelectFrom, OfferTransform;
    var gxi, saB, idB := Public(c, ci.group, di.private), SaBytes(InitiatorSa(ci.group, ci.xauth)), IdBytes(ci.ourId);
    var ps := Message1(saB, gxi, di.nonce, idB);
    OfferReads(ci.group, ci.xauth);
    OfferSelected(ci.group, ci.xauth);
    OfferMethod(ci.group, ci.xauth);
    MessageRoundTrip(AggressiveHeader(di.cookie, Zeros(8)), ps);
    Message1Found(saB, gxi, di.nonce, idB);
  }

  lemma OfferMethod(group: DhGroup, xauth: bool)
    ensures Attr(OfferTransform(group, xauth).attributes, ATTR_AUTH_METHOD)
      == Some(if xauth then AUTH_XAUTH_INIT_PSK else AUTH_PSK)
  {
    hide Attr;
    OfferAttrs(group, xauth);
  }

  lemma InitiatorReads(c: Crypto, ci: InitiatorConfig, cr: ResponderConfig, di: Draw, dr: Draw, st: Phase1State)
    requires DrawOk(di) && DrawOk(dr) && IdsFit(ci, cr) && ci.psk == cr.psk
    requires ValidShare(ci.group, Public(c, ci.group, dr.private))
    requires st == Expected(c, cr.psk, ci, di, dr,
                            Shared(c, ci.group, di.private, Public(c, ci.group, dr.private)).value)
    ensures CompleteAggressive(c, InitiateAggressive(c, ci, di).1,
                               BuildMessage(AggressiveHeader(di.cookie, dr.cookie), Answer2(c, ci, cr, di, dr, st)))
         == Ok((BuildMessage(AggressiveHeader(di.cookie, dr.cookie),
                             [Payload(P_HASH, HashI(c, Sha256, st.skeyid, st.gxi, st.gxr, di.cookie, dr.cookie, st.saiB,
                                                    st.idiiB))]), st))
  {
    hide ParseHeader, ParsePayloads, Find, ParseSa, SaBytes, BuildMessage, Public, Shared, ValidShare, DeriveSkeyids,
         IdBytes, Attr, HashR, HashI, DeriveCipherKey, Phase1Iv, SelectFrom, OfferTransform;
    var gxr, idir := Public(c, ci.group, dr.private), IdBytes(cr.ourId);
    var hashR := HashR(c, Sha256, st.skeyid, gxr, st.gxi, dr.cookie, di.cookie, st.saiB, idir);
    var authMethod := if ci.xauth then AUTH_XAUTH_INIT_PSK else AUTH_PSK;
    OfferReads(ci.group, ci.xauth);
    MessageRoundTrip(AggressiveHeader(di.cookie, dr.cookie), Answer2(c, ci, cr, di, dr, st));
    Message2Found(InitiatorSa(ci.group, ci.xauth), gxr, dr.nonce, idir, hashR, authMethod);
  }

  lemma HashIReads(c: Crypto, st: Phase1State)
    ensures VerifyHashI(c, st, BuildMessage(AggressiveHeader(st.ckyI, st.ckyR),
              [Payload(P_HASH, HashI(c, st.prf, st.skeyid, st.gxi, st.gxr, st.ckyI, st.ckyR, st.saiB, st.idiiB))]))
                  == Ok(())
  {
    hide ParseHeader, ParsePayloads, Find, BuildMessage, HashI, CbcDecrypt;
    var ps := [Payload(P_HASH, HashI(c, st.prf, st.skeyid, st.gxi, st.gxr, st.ckyI, st.ckyR, st.saiB, st.idiiB))];
    MessageRoundTrip(AggressiveHeader(st.ckyI, st.ckyR), ps);
    FindAt(ps, P_HASH, 0);
  }

  /**
   Aggressive Mode lockstep. For every pre-shared key, identity, cookie, nonce and exponent, the
   responder accepts message 1 exactly when the offered group is a MODP group and the initiator's
   share is valid; then the initiator accepts message 2 exactly when the responder's share is
   valid, the two Phase 1 states are equal in every field, and message 3 verifies.
   */
  lemma AggressiveLockstep(c: Crypto, ci: InitiatorConfig, cr: ResponderConfig, di: Draw, dr: Draw)
    requires DrawOk(di) && DrawOk(dr) && IdsFit(ci, cr) && ci.psk == cr.psk
    ensures var (m1, ai) := InitiateAggressive(c, ci, di);
      var gxi, gxr := Public(c, ci.group, di.private), Public(c, ci.group, dr.private);
      var responded := RespondAggressive(c, cr, m1, dr);
      && (responded.Ok? <==> !ci.group.GroupX25519? && ValidShare(ci.group, gxi))
      && (responded.Ok? ==>
            var (m2, sr) := responded.value;
            var completed := CompleteAggressive(c, ai, m2);
            && (completed.Ok? <==> ValidShare(ci.group, gxr))
            && (completed.Ok? ==>
                  var (m3, si) := completed.value;
                  && si == sr && VerifyHashI(c, sr, m3) == Ok(())
                  && |si.encKey| == 32 && si.ckyI == di.cookie && si.ckyR == dr.cookie))
  {
    hide InitiateAggressive, RespondAggressive, CompleteAggressive, VerifyHashI, Public, Shared, ValidShare,
         BuildMessage, HashI, IdBytes, SaBytes, Answer2, DeriveSkeyids, Phase1Iv, DeriveCipherKey;
    var gxi, gxr := Public(c, ci.group, di.private), Public(c, ci.group, dr.private);
    ResponderReads(c, ci, cr, di, dr);
    if !ci.group.GroupX25519? && ValidShare(ci.group, gxi) {
      if ValidShare(ci.group, gxr) {
        SharedAgreement(c, ci.group, di.private, dr.private);
        var st := Expected(c, cr.psk, ci, di, dr, Shared(c, ci.group, dr.private, gxi).value);
        InitiatorReads(c, ci, cr, di, dr, st);
        HashIReads(c, st);
      } else {
        InitiatorRefuses(c, ci, cr, di, dr);
      }
    }
  }

  lemma InitiatorRefuses(c: Crypto, ci: InitiatorConfig, cr: ResponderConfig, di: Draw, dr: Draw)
    requires DrawOk(di) && DrawOk(dr) && IdsFit(ci, cr)
    requires !ValidShare(ci.group, Public(c, ci.group, dr.private))
    requires RespondAggressive(c, cr, InitiateAggressive(c, ci, di).0, dr).Ok?
    ensures CompleteAggressive(c, InitiateAggressive(c, ci, di).1,
                               RespondAggressive(c, cr, InitiateAggressive(c, ci, di).0, dr).value.0).Err?
  {
    hide ParseHeader, ParsePayloads, Find, ParseSa, SaBytes, BuildMessage, Public, Shared, ValidShare, DeriveSkeyids,
         IdBytes, Attr, HashR, HashI, DeriveCipherKey, Phase1Iv, SelectFrom, OfferTransform, RespondAggressive;
    ResponderReads(c, ci, cr, di, dr);
    var gxr, idir := Public(c, ci.group, dr.private), IdBytes(cr.ourId);
    var st := RespondAggressive(c, cr, InitiateAggressive(c, ci, di).0, dr).value.1;
    var hashR := HashR(c, Sha256, st.skeyid, gxr, st.gxi, dr.cookie, di.cookie, st.saiB, idir);
    OfferReads(ci.group, ci.xauth);
    MessageRoundTrip(AggressiveHeader(di.cookie, dr.cookie), Answer2(c, ci, cr, di, dr, st));
    var authMethod := if ci.xauth then AUTH_XAUTH_INIT_PSK else AUTH_PSK;
    Message2Found(InitiatorSa(ci.group, ci.xauth), gxr, dr.nonce, idir, hashR, authMethod);
  }
}
