/**
 The `IKE_AUTH` exchange for both roles (src/ikev2/ike_auth.rs, src/ikev2/auth.rs).
 */
module IkeAuth {
  import opened Common
  import opened Primitives
  import opened Message
  import opened Sk
  import opened PayloadBodies
  import opened KeySchedule
  import opened SaInit
  import opened CertPath

  // ----- AUTH values (section 2.15 of RFC 7296) -----

  /** "Key Pad for IKEv2", without a terminating NUL. */
  const KEY_PAD: Bytes := [75, 101, 121, 32, 80, 97, 100, 32, 102, 111, 114, 32, 73, 75, 69, 118, 50]

  function SignedOctets(c: Crypto, realMessage: Bytes, peerNonce: Bytes, skP: Bytes, idBody: Bytes): Bytes {
    realMessage + peerNonce + Prf(c, skP, idBody)
  }

  function InitiatorOctets(c: Crypto, sa: CompletedSaInit, idBody: Bytes): Bytes {
    SignedOctets(c, sa.initMessage, sa.nr, sa.keys.skPi, idBody)
  }

  function ResponderOctets(c: Crypto, sa: CompletedSaInit, idBody: Bytes): Bytes {
    SignedOctets(c, sa.respMessage, sa.ni, sa.keys.skPr, idBody)
  }

  /**
   What an AUTH binds: two ends sign equal octets exactly when they saw the same first message, the
   same nonce of the other side, and hold the same code of the identity under SK_p. The lengths of
   the nonces must agree, because no length field separates the message from the nonce.
   */
  lemma OctetsBind(c: Crypto, sa: CompletedSaInit, sa': CompletedSaInit, idBody: Bytes, idBody': Bytes)
    ensures |sa.nr| == |sa'.nr| ==>
      (InitiatorOctets(c, sa, idBody) == InitiatorOctets(c, sa', idBody') <==>
         && sa.initMessage == sa'.initMessage && sa.nr == sa'.nr
         && Prf(c, sa.keys.skPi, idBody) == Prf(c, sa'.keys.skPi, idBody'))
    ensures |sa.ni| == |sa'.ni| ==>
      (ResponderOctets(c, sa, idBody) == ResponderOctets(c, sa', idBody') <==>
         && sa.respMessage == sa'.respMessage && sa.ni == sa'.ni
         && Prf(c, sa.keys.skPr, idBody) == Prf(c, sa'.keys.skPr, idBody'))
  {
    hide Prf;
    if |sa.nr| == |sa'.nr| {
      Separates(sa.initMessage, sa.nr, Prf(c, sa.keys.skPi, idBody), sa'.initMessage, sa'.nr,
                Prf(c, sa'.keys.skPi, idBody'));
    }
    if |sa.ni| == |sa'.ni| {
      Separates(sa.respMessage, sa.ni, Prf(c, sa.keys.skPr, idBody), sa'.respMessage, sa'.ni,
                Prf(c, sa'.keys.skPr, idBody'));
    }
  }

  /** A concatenation determines its parts when the last two have known lengths. */
  lemma Separates(a: Bytes, b: Bytes, d: Bytes, a': Bytes, b': Bytes, d': Bytes)
    requires |b| == |b'| && |d| == |d'|
    ensures a + b + d == a' + b' + d' <==> a == a' && b == b' && d == d'
  {
    if a + b + d == a' + b' + d' {
      assert |a| == |a'|;
      assert (a + b + d)[..|a|] == a && (a' + b' + d')[..|a|] == a';
      SliceMiddle(a, b, d);
      SliceMiddle(a', b', d');
    }
  }

  function PskAuth(c: Crypto, psk: Bytes, octets: Bytes): (mac: Bytes)
    ensures |mac| == 32
  {
    Prf(c, Prf(c, psk, KEY_PAD), octets)
  }

  // ----- constant-time comparison -----

  /** The low `n` bits of `x ^ y`. */
  function Xor(x: nat, y: nat, n: nat): nat {
    if n == 0 then 0 else 2 * Xor(x / 2, y / 2, n - 1) + (x + y) % 2
  }

  /** The low `n` bits of `x | y`. */
  function Or(x: nat, y: nat, n: nat): nat {
    if n == 0 then 0 else 2 * Or(x / 2, y / 2, n - 1) + (if x % 2 + y % 2 > 0 then 1 else 0)
  }

  function PowerOf2(n: nat): nat {
    if n == 0 then 1 else 2 * PowerOf2(n - 1)
  }

  lemma WidthZero(x: nat, y: nat)
    ensures PowerOf2(0) == 1 && Xor(x, y, 0) == 0 && Or(x, y, 0) == 0
  {
  }

  lemma UnfoldBits(x: nat, y: nat, n: nat)
    requires n > 0
    ensures PowerOf2(n) == 2 * PowerOf2(n - 1)
    ensures Xor(x, y, n) == 2 * Xor(x / 2, y / 2, n - 1) + (x + y) % 2
    ensures Or(x, y, n) == 2 * Or(x / 2, y / 2, n - 1) + (if x % 2 + y % 2 > 0 then 1 else 0)
  {
  }

  lemma Halves(x: nat, bound: nat)
    ensures x == 2 * (x / 2) + x % 2 && (x < 2 * bound ==> x / 2 < bound)
  {
  }

  lemma LowBits(x: nat, y: nat)
    ensures (x + y) % 2 == 0 <==> x % 2 == y % 2
  {
  }

  lemma {:induction false} XorZero(x: nat, y: nat, n: nat)
    requires x < PowerOf2(n) && y < PowerOf2(n)
    ensures Xor(x, y, n) < PowerOf2(n)
    ensures Xor(x, y, n) == 0 <==> x == y
  {
    hide Xor, PowerOf2;
    if n == 0 {
      WidthZero(x, y);
    } else {
      UnfoldBits(x, y, n);
      Halves(x, PowerOf2(n - 1));
      Halves(y, PowerOf2(n - 1));
      XorZero(x / 2, y / 2, n - 1);
      LowBits(x, y);
    }
  }

  lemma {:induction false} OrZero(x: nat, y: nat, n: nat)
    requires x < PowerOf2(n) && y < PowerOf2(n)
    ensures Or(x, y, n) < PowerOf2(n)
    ensures Or(x, y, n) == 0 <==> x == 0 && y == 0
  {
    hide Or, PowerOf2;
    if n == 0 {
      WidthZero(x, y);
    } else {
      UnfoldBits(x, y, n);
      Halves(x, PowerOf2(n - 1));
      Halves(y, PowerOf2(n - 1));
      OrZero(x / 2, y / 2, n - 1);
    }
  }

  lemma OctetWidth()
    ensures PowerOf2(8) == 0x100
  {
    assert PowerOf2(4) == 16;
  }

  /** The XOR/OR loop decides exactly equality of the two strings. */
  method CtEq(a: Bytes, b: Bytes) returns (eq: bool)
    ensures eq <==> a == b
  {
    hide Xor, Or, PowerOf2;
    if |a| != |b| {
      return false;
    }
    var diff: Byte := 0;
    OctetWidth();
    for i := 0 to |a|
      invariant diff == 0 <==> a[..i] == b[..i]
    {
      XorZero(a[i], b[i], 8);
      OrZero(diff, Xor(a[i], b[i], 8), 8);
      assert a[..i + 1] == a[..i] + [a[i]] && b[..i + 1] == b[..i] + [b[i]];
      diff := Or(diff, Xor(a[i], b[i], 8), 8);
    }
    assert a[..|a|] == a && b[..|b|] == b;
    return diff == 0;
  }

  // ----- configuration -----

  /** A signing key is known only by what it signs: RFC 7427 data, and the raw ECDSA form. */
  datatype SigningKey = SigningKey(signAuthData: Bytes -> Option<Bytes>, signEcdsaRaw: Bytes -> Option<Bytes>)

  datatype LocalAuth = LocalPsk(psk: Bytes) | LocalCert(key: SigningKey, chain: seq<Bytes>)
  datatype PeerAuth = PeerPsk(psk: Bytes) | PeerCert(cas: seq<Bytes>, expectedDns: Option<string>, now: nat)
  datatype AuthConfig = AuthConfig(id: Identification, local: LocalAuth, peer: PeerAuth)
  datatype AssignedConfig = AssignedConfig(ip: Ipv4, dns: seq<Ipv4>)

  function AuthHeader(sa: CompletedSaInit, isResponse: bool): IkeHeader {
    IkeHeader(sa.spiI, sa.spiR, PtNone, 2, 0, ExAuth, Flags(!isResponse, false, isResponse), 1, 0)
  }

  // ----- reading the inner payloads -----

  datatype AuthSeen = AuthSeen(
    idBody: Option<Bytes>, auth: Option<Authentication>, certs: seq<Bytes>,
    childSpi: Option<U32>, assignedIp: Option<Ipv4>)

  datatype AuthPayloads = AuthPayloads(
    idBody: Bytes, auth: Authentication, certs: seq<Bytes>, childSpi: Option<U32>, assignedIp: Option<Ipv4>)

  const NO_AUTH_SEEN: AuthSeen := AuthSeen(None, None, [], None, None)

  function SeeAuth(seen: AuthSeen, p: RawPayload): Result<AuthSeen> {
    match p.ptype
    case PtIdi => Ok(seen.(idBody := Some(p.data)))
    case PtIdr => Ok(seen.(idBody := Some(p.data)))
    case PtAuth =>
      var a :- ParseAuth(p.data);
      Ok(seen.(auth := Some(a)))
    case PtCert =>
      (match ParseCert(p.data)
       case Ok(x) => Ok(seen.(certs := seen.certs + [x.data]))
       case Err(_) => Ok(seen))
    case PtSa => Ok(seen.(childSpi := SpiAtFixedOffset(p.data)))
    case PtCp =>
      (match ParseCp(p.data)
       case Ok(cp) => Ok(seen.(assignedIp := AssignedIpv4(cp.attrs)))
       case Err(_) => Ok(seen))
    case _ => Ok(seen)
  }

  function SeeAuths(seen: AuthSeen, items: seq<RawPayload>): Result<AuthSeen>
    decreases |items|
  {
    if items == [] then Ok(seen)
    else
      var next :- SeeAuth(seen, items[0]);
      SeeAuths(next, items[1..])
  }

  function FinishAuth(seen: AuthSeen): Result<AuthPayloads> {
    var idBody :- OkOr(seen.idBody, MissingPayload(MissId));
    var auth :- OkOr(seen.auth, MissingPayload(MissAuth));
    Ok(AuthPayloads(idBody, auth, seen.certs, seen.childSpi, seen.assignedIp))
  }

  function ParseAuthInner(w: Walked): Result<AuthPayloads> {
    var seen :- SeeAuths(NO_AUTH_SEEN, w.items);
    if w.error.Some? then Err(w.error.value) else FinishAuth(seen)
  }

  /** The source's loop over the payload iterator. */
  method ParseAuthLoop(first: PayloadType, inner: Bytes) returns (r: Result<AuthPayloads>)
    ensures r == ParseAuthInner(Walk(first, inner))
  {
    hide SeeAuth, Walk;
    var iter := new PayloadIter(first, inner);
    var seen := NO_AUTH_SEEN;
    ghost var all := Walk(first, inner);
    while true
      invariant SeeAuths(NO_AUTH_SEEN, all.items) == SeeAuths(seen, iter.Remaining().items)
      invariant all.error == iter.Remaining().error
      decreases |iter.rest|
    {
      ghost var left := iter.Remaining();
      var item := iter.Next();
      match item {
        case None =>
          return FinishAuth(seen);
        case Some(Err(e)) =>
          return Err(e);
        case Some(Ok(p)) =>
          assert left.items[1..] == iter.Remaining().items;
          var step := SeeAuth(seen, p);
          if step.Err? {
            return Err(step.error);
          }
          seen := step.value;
      }
    }
  }

  lemma SeeAuthStep(items: seq<RawPayload>, k: nat, s: AuthSeen, s': AuthSeen)
    requires k < |items| && SeeAuth(s, items[k]) == Ok(s')
    ensures SeeAuths(s, items[k..]) == SeeAuths(s', items[k + 1..])
  {
    hide SeeAuth;
    assert items[k..][0] == items[k] && items[k..][1..] == items[k + 1..];
  }

  // ----- proving and checking identities -----

  function CertAuth(key: SigningKey, hashes: seq<U16>, octets: Bytes): Result<Authentication> {
    if SHA2_256 in hashes then
      var d :- OkOr(key.signAuthData(octets), CryptoError(SigningFailed));
      Ok(Authentication(DIGITAL_SIGNATURE, d))
    else
      var d :- OkOr(key.signEcdsaRaw(octets), CryptoError(SigningFailed));
      Ok(Authentication(ECDSA_SHA256_P256, d))
  }

  function CertPayloads(chain: seq<Bytes>): (ps: seq<Payload>)
    ensures |ps| == |chain|
    ensures forall i :: 0 <= i < |chain| ==> ps[i] == Payload(PtCert, CertBytes(Certificate(X509_SIGNATURE, chain[i])))
  {
    seq(|chain|, i requires 0 <= i < |chain| => Payload(PtCert, CertBytes(Certificate(X509_SIGNATURE, chain[i]))))
  }

  function BuildLocalAuth(c: Crypto, cfg: AuthConfig, sa: CompletedSaInit,
                          octets: Bytes): Result<(Authentication, seq<Payload>)> {
    match cfg.local
    case LocalPsk(psk) => Ok((Authentication(SHARED_KEY, PskAuth(c, psk, octets)), []))
    case LocalCert(key, chain) =>
      var auth :- CertAuth(key, sa.peerSignatureHashes, octets);
      Ok((auth, CertPayloads(chain)))
  }

  function VerifyPsk(c: Crypto, auth: Authentication, psk: Bytes, octets: Bytes): Result<()> {
    if auth.authMethod == SHARED_KEY && auth.data == PskAuth(c, psk, octets) then Ok(()) else Err(AuthFailed)
  }

  function VerifyPeerAuth(c: Crypto, pki: Pki, cfg: AuthConfig, got: AuthPayloads, octets: Bytes): Result<()> {
    match cfg.peer
    case PeerPsk(psk) => VerifyPsk(c, got.auth, psk, octets)
    case PeerCert(cas, dns, now) =>
      if got.auth.authMethod != DIGITAL_SIGNATURE then Err(AuthFailed)
      else if got.certs == [] then Err(MissingPayload(MissCert))
      else VerifyCertAuth(pki, got.certs[0], got.certs[1..], cas, dns, now, got.auth.data, octets)
  }

  // ----- the three steps -----

  function CaHashes(pki: Pki, cas: seq<Bytes>): Bytes {
    if cas == [] then []
    else (match pki.caKeyHash(cas[0]) case Some(h) => h case None => []) + CaHashes(pki, cas[1..])
  }

  /** IDi, any CERTs, a CERTREQ when the peer is checked by certificate, AUTH, SAi2, TSi, TSr. */
  function RequestChain(pki: Pki, cfg: AuthConfig, auth: Authentication, certs: seq<Payload>,
                        childSpi: U32): seq<Payload> {
    [Payload(PtIdi, IdBytes(cfg.id))] + certs
    + (if cfg.peer.PeerCert? then [Payload(PtCertReq, [X509_SIGNATURE] + CaHashes(pki, cfg.peer.cas))] else [])
    + [Payload(PtAuth, AuthBytes(auth)), Payload(PtSa, SaBytes(EspOffer(childSpi))),
       Payload(PtTsi, FullTunnelTs()), Payload(PtTsr, FullTunnelTs())]
  }

  function InitiatorAuthRequest(c: Crypto, pki: Pki, sa: CompletedSaInit, cfg: AuthConfig, childSpi: U32,
                                iv: Iv): Result<Bytes> {
    var (auth, certs) :- BuildLocalAuth(c, cfg, sa, InitiatorOctets(c, sa, IdBytes(cfg.id)));
    SealChain(c, AuthHeader(sa, false), RequestChain(pki, cfg, auth, certs, childSpi), sa.keys.skEi, iv)
  }

  /** The address assignment: a CFG_REPLY payload, and the selector narrowed to the assigned host. */
  function AssignPayloads(assign: Option<AssignedConfig>): seq<Payload> {
    match assign
    case None => []
    case Some(a) => [Payload(PtCp, CpBytes(ReplyIpv4(a.ip, None, if a.dns == [] then None else Some(a.dns[0]))))]
  }

  function AssignedTs(assign: Option<AssignedConfig>): Bytes {
    match assign
    case None => FullTunnelTs()
    case Some(a) => HostTs(a.ip)
  }

  /** IDr, any CERTs, AUTH, the assignment, SAr2, TSi, TSr and MOBIKE_SUPPORTED. */
  function ResponseChain(cfg: AuthConfig, auth: Authentication, certs: seq<Payload>, childSpi: U32,
                         assign: Option<AssignedConfig>): seq<Payload> {
    [Payload(PtIdr, IdBytes(cfg.id))] + certs + [Payload(PtAuth, AuthBytes(auth))] + AssignPayloads(assign)
    + [Payload(PtSa, SaBytes(EspOffer(childSpi))), Payload(PtTsi, AssignedTs(assign)), Payload(PtTsr, FullTunnelTs()),
       Payload(PtNotify, NotifyBytes(Status(MOBIKE_SUPPORTED, [])))]
  }

  function ResponderProcessAuth(c: Crypto, pki: Pki, sa: CompletedSaInit, request: Bytes, cfg: AuthConfig,
                                childSpi: U32, iv: Iv,
                                assign: Option<AssignedConfig>): Result<(Bytes, Identification, U32)> {
    var w :- OpenWalk(c, request, sa.keys.skEi);
    var got :- ParseAuthInner(w);
    var _ :- VerifyPeerAuth(c, pki, cfg, got, InitiatorOctets(c, sa, got.idBody));
    var peerId :- ParseId(got.idBody);
    var peerSpi :- OkOr(got.childSpi, MissingPayload(MissSa));
    var (auth, certs) :- BuildLocalAuth(c, cfg, sa, ResponderOctets(c, sa, IdBytes(cfg.id)));
    var response :- SealChain(c, AuthHeader(sa, true), ResponseChain(cfg, auth, certs, childSpi, assign), sa.keys.skEr,
                              iv);
    Ok((response, peerId, peerSpi))
  }

  function InitiatorVerifyAuth(c: Crypto, pki: Pki, sa: CompletedSaInit, response: Bytes,
                               cfg: AuthConfig): Result<(Identification, U32, Option<Ipv4>)> {
    var w :- OpenWalk(c, response, sa.keys.skEr);
    var got :- ParseAuthInner(w);
    var _ :- VerifyPeerAuth(c, pki, cfg, got, ResponderOctets(c, sa, got.idBody));
    var peerSpi :- OkOr(got.childSpi, MissingPayload(MissSa));
    var id :- ParseId(got.idBody);
    Ok((id, peerSpi, got.assignedIp))
  }
}
