/**
 What `IKE_AUTH` accepts, exactly and for every message (src/ikev2/ike_auth.rs): which payloads are
 read, and what the AUTH payload has to be.
 */
module IkeAuthExact {
  import opened Common
  import opened Primitives
  import opened Message
  import opened Sk
  import opened PayloadBodies
  import opened SaInit
  import opened CertPath
  import opened IkeAuth

  // ----- reading the inner payloads -----

  /** The body of the last identification payload, of either side. */
  function LastId(items: seq<RawPayload>): Option<Bytes> {
    if items == [] then None
    else
      var p := items[|items| - 1];
      if p.ptype == PtIdi || p.ptype == PtIdr then Some(p.data) else LastId(items[..|items| - 1])
  }

  /** Every certificate that parses, in order. */
  function Certificates(items: seq<RawPayload>): seq<Bytes> {
    if items == [] then []
    else
      var p, before := items[|items| - 1], Certificates(items[..|items| - 1]);
      if p.ptype == PtCert && ParseCert(p.data).Ok? then before + [ParseCert(p.data).value.data] else before
  }

  /** The SPI of the last SA payload. */
  function OfferedSpi(items: seq<RawPayload>): Option<U32> {
    match FindLast(items, PtSa)
    case None => None
    case Some(sa) => SpiAtFixedOffset(sa)
  }

  /** The address in the last configuration payload that parses. */
  function Assignment(items: seq<RawPayload>): Option<Ipv4> {
    if items == [] then None
    else
      var p := items[|items| - 1];
      if p.ptype == PtCp && ParseCp(p.data).Ok? then AssignedIpv4(ParseCp(p.data).value.attrs)
      else Assignment(items[..|items| - 1])
  }

  predicate AuthsParse(items: seq<RawPayload>) {
    forall i :: 0 <= i < |items| && items[i].ptype == PtAuth ==> ParseAuth(items[i].data).Ok?
  }

  /** The AUTH of the last AUTH payload. */
  function LastAuth(items: seq<RawPayload>): Option<Authentication> {
    match FindLast(items, PtAuth)
    case None => None
    case Some(b) => match ParseAuth(b)
      case Ok(a) => Some(a)
      case Err(_) => None
  }

  lemma {:induction false} SeeAuthsSnoc(seen: AuthSeen, items: seq<RawPayload>, p: RawPayload)
    ensures SeeAuths(seen, items + [p]) ==
      if SeeAuths(seen, items).Err? then SeeAuths(seen, items) else SeeAuth(SeeAuths(seen, items).value, p)
    decreases |items|
  {
    hide SeeAuth;
    if items == [] {
      assert (items + [p])[1..] == [];
      Nothing(seen, p);
    } else {
      assert (items + [p])[1..] == items[1..] + [p];
      var next := SeeAuth(seen, items[0]);
      if next.Ok? {
        SeeAuthsSnoc(next.value, items[1..], p);
      }
    }
  }

  lemma Nothing(seen: AuthSeen, p: RawPayload)
    ensures SeeAuths(seen, [p]) == SeeAuth(seen, p)
  {
    hide SeeAuth;
    assert [p][1..] == [];
    var next := SeeAuth(seen, p);
    assert next.Ok? ==> SeeAuths(next.value, []) == next;
  }

  /** What one payload adds to what was seen. */
  lemma SeeOne(s: AuthSeen, p: RawPayload)
    ensures var r := SeeAuth(s, p);
      && (r.Err? <==> p.ptype == PtAuth && ParseAuth(p.data).Err?)
      && (r.Ok? ==>
            && r.value.idBody == (if p.ptype == PtIdi || p.ptype == PtIdr then Some(p.data) else s.idBody)
            && r.value.auth == (if p.ptype == PtAuth then Some(ParseAuth(p.data).value) else s.auth)
            && r.value.certs
               == (if p.ptype == PtCert && ParseCert(p.data).Ok? then s.certs + [ParseCert(p.data).value.data]
               else s.certs)
            && r.value.childSpi == (if p.ptype == PtSa then SpiAtFixedOffset(p.data) else s.childSpi)
            && r.value.assignedIp
               == (if p.ptype == PtCp && ParseCp(p.data).Ok? then AssignedIpv4(ParseCp(p.data).value.attrs)
                   else s.assignedIp))
  {
    hide ParseAuth, ParseCert, ParseCp, AssignedIpv4, SpiAtFixedOffset;
  }

  /** What the scan has seen after all payloads, in terms of the list. */
  lemma {:induction false} SeenExactly(items: seq<RawPayload>)
    ensures var r := SeeAuths(NO_AUTH_SEEN, items);
      && (r.Ok? <==> AuthsParse(items))
      && (r.Ok? ==>
            && r.value.idBody == LastId(items) && r.value.auth == LastAuth(items)
            && r.value.certs == Certificates(items) && r.value.childSpi == OfferedSpi(items)
            && r.value.assignedIp == Assignment(items))
    decreases |items|
  {
    hide ParseAuth, ParseCert, ParseCp, AssignedIpv4, SpiAtFixedOffset, SeeAuths, SeeAuth;
    if items == [] {
      Start();
    } else {
      var n := |items| - 1;
      var before, p := items[..n], items[n];
      SeenExactly(before);
      SeeAuthsSnoc(NO_AUTH_SEEN, before, p);
      if SeeAuths(NO_AUTH_SEEN, before).Ok? {
        SeeOne(SeeAuths(NO_AUTH_SEEN, before).value, p);
      }
      assert items == before + [p];
      assert AuthsParse(items) <==> AuthsParse(before) && (p.ptype == PtAuth ==> ParseAuth(p.data).Ok?);
    }
  }

  lemma Start()
    ensures SeeAuths(NO_AUTH_SEEN, []) == Ok(NO_AUTH_SEEN)
  {
  }

  /** A walk is readable: it has no error, every AUTH parses, and there are an ID and an AUTH. */
  predicate Readable(w: Walked) {
    w.error.None? && AuthsParse(w.items) && LastId(w.items).Some? && LastAuth(w.items).Some?
  }

  lemma ReadsExactly(w: Walked)
    ensures ParseAuthInner(w).Ok? <==> Readable(w)
    ensures ParseAuthInner(w).Ok? ==>
      var got := ParseAuthInner(w).value;
      && got.idBody == LastId(w.items).value && got.auth == LastAuth(w.items).value
      && got.certs == Certificates(w.items) && got.childSpi == OfferedSpi(w.items)
      && got.assignedIp == Assignment(w.items)
  {
    hide SeeAuths, Assignment, LastId, LastAuth, Certificates, OfferedSpi, AuthsParse;
    SeenExactly(w.items);
  }

  // ----- what proves a peer -----

  /** The 17 octets of the ASCII string, without a terminating zero. */
  lemma KeyPadSpells()
    ensures |KEY_PAD| == |"Key Pad for IKEv2"|
    ensures forall i :: 0 <= i < |KEY_PAD| ==> KEY_PAD[i] == "Key Pad for IKEv2"[i] as int
  {
  }

  /** The shared-key AUTH of section 2.15 of RFC 7296, written out. */
  predicate PskProof(c: Crypto, a: Authentication, psk: Bytes, firstMessage: Bytes, nonce: Bytes, skP: Bytes,
                     idBody: Bytes) {
    && a.authMethod == 2
    && a.data == c.hmacSha256(c.hmacSha256(psk, KEY_PAD), firstMessage + nonce + c.hmacSha256(skP, idBody))
  }

  /** What the configuration asks of the peer's AUTH over its first message, our nonce and its identity. */
  ghost predicate PeerProof(c: Crypto, pki: Pki, peer: PeerAuth, items: seq<RawPayload>, firstMessage: Bytes,
                            nonce: Bytes, skP: Bytes)
    requires LastId(items).Some? && LastAuth(items).Some?
  {
    var a, idBody, certs := LastAuth(items).value, LastId(items).value, Certificates(items);
    match peer
    case PeerPsk(psk) => PskProof(c, a, psk, firstMessage, nonce, skP, idBody)
    case PeerCert(cas, dns, now) =>
      && a.authMethod == 14 && certs != []
      && Trusted(pki, certs[0], certs[1..], cas, now)
      && (dns.Some? ==> pki.hasDns(certs[0], dns.value))
      && pki.verifyAuth(certs[0], a.data, firstMessage + nonce + c.hmacSha256(skP, idBody))
  }

  lemma VerifyExactly(c: Crypto, pki: Pki, cfg: AuthConfig, w: Walked, firstMessage: Bytes, nonce: Bytes, skP: Bytes)
    requires Readable(w) && ParseAuthInner(w).Ok?
    ensures VerifyPeerAuth(c, pki, cfg, ParseAuthInner(w).value,
                           SignedOctets(c, firstMessage, nonce, skP, LastId(w.items).value)).Ok?
      <==> PeerProof(c, pki, cfg.peer, w.items, firstMessage, nonce, skP)
  {
    hide ParseAuthInner, LastId, LastAuth, Certificates, Trusted, VerifyCertAuth, AuthsParse;
    ReadsExactly(w);
    var got := ParseAuthInner(w).value;
    if cfg.peer.PeerCert? && got.certs != [] {
      CertAuthExactly(pki, got.certs[0], got.certs[1..], cfg.peer.cas, cfg.peer.expectedDns, cfg.peer.now,
                      got.auth.data,
                      SignedOctets(c, firstMessage, nonce, skP, got.idBody));
    }
  }

  /** The comparison as the source makes it, in constant time. */
  method VerifyPskByOctets(c: Crypto, auth: Authentication, psk: Bytes, octets: Bytes) returns (r: Result<()>)
    ensures r == VerifyPsk(c, auth, psk, octets)
  {
    hide PskAuth;
    var same := CtEq(auth.data, PskAuth(c, psk, octets));
    return if auth.authMethod == SHARED_KEY && same then Ok(()) else Err(AuthFailed);
  }

  // ----- the two steps -----

  /** The request opens, and proves the peer with this identity, which asks for a child under this SPI. */
  ghost predicate AuthenticRequest(c: Crypto, pki: Pki, peer: PeerAuth, sa: CompletedSaInit, request: Bytes,
                                   id: Identification, spi: U32) {
    var w := OpenWalk(c, request, sa.keys.skEi);
    && w.Ok? && Readable(w.value) && PeerProof(c, pki, peer, w.value.items, sa.initMessage, sa.nr, sa.keys.skPi)
    && var b := LastId(w.value.items).value;
    |b| >= 4 && id == Identification(b[0], b[4..]) && OfferedSpi(w.value.items) == Some(spi)
  }

  /**
   The responder accepts an IKE_AUTH request if and only if it opens under SK_ei and reads, its AUTH
   proves the configured peer over the first message as received, the responder's nonce and the
   identity under SK_pi, the identity and the SPI are there, and the responder can prove itself and seal.
   */
  lemma ResponderAuthExactly(c: Crypto, pki: Pki, sa: CompletedSaInit, request: Bytes, cfg: AuthConfig, childSpi: U32,
                             iv: Iv, assign: Option<AssignedConfig>)
    ensures var r := ResponderProcessAuth(c, pki, sa, request, cfg, childSpi, iv, assign);
      var w := OpenWalk(c, request, sa.keys.skEi);
      && (r.Ok? <==>
            && w.Ok? && Readable(w.value)
            && PeerProof(c, pki, cfg.peer, w.value.items, sa.initMessage, sa.nr, sa.keys.skPi)
            && |LastId(w.value.items).value| >= 4 && OfferedSpi(w.value.items).Some?
            && BuildLocalAuth(c, cfg, sa, ResponderOctets(c, sa, IdBytes(cfg.id))).Ok? && |sa.keys.skEr| == 36)
      && (r.Ok? ==> AuthenticRequest(c, pki, cfg.peer, sa, request, r.value.1, r.value.2))
  {
    hide OpenWalk, ParseAuthInner, VerifyPeerAuth, SealChain, ResponseChain, BuildLocalAuth, LastId, LastAuth,
         OfferedSpi, AuthsParse, PeerProof, SignedOctets, Readable;
    var w := OpenWalk(c, request, sa.keys.skEi);
    if w.Ok? {
      ReadsExactly(w.value);
      if Readable(w.value) {
        ReadableMeans(w.value);
        VerifyExactly(c, pki, cfg, w.value, sa.initMessage, sa.nr, sa.keys.skPi);
      }
    }
    forall ps ensures SealChain(c, AuthHeader(sa, true), ps, sa.keys.skEr, iv).Ok? <==> |sa.keys.skEr| == 36 {
      SealsExactly(c, AuthHeader(sa, true), ps, sa.keys.skEr, iv);
    }
  }

  lemma ReadableMeans(w: Walked)
    requires Readable(w)
    ensures LastId(w.items).Some? && LastAuth(w.items).Some?
  {
  }

  lemma SealsExactly(c: Crypto, h: IkeHeader, ps: seq<Payload>, skE: Bytes, iv: Iv)
    ensures SealChain(c, h, ps, skE, iv).Ok? <==> |skE| == 36
  {
    hide SkAad, EncodeChain;
  }

  /** The initiator's side: the response proves the peer over the second message, the initiator's nonce and SK_pr. */
  lemma InitiatorAuthExactly(c: Crypto, pki: Pki, sa: CompletedSaInit, response: Bytes, cfg: AuthConfig)
    ensures var r := InitiatorVerifyAuth(c, pki, sa, response, cfg);
      var w := OpenWalk(c, response, sa.keys.skEr);
      && (r.Ok? <==>
            && w.Ok? && Readable(w.value)
            && PeerProof(c, pki, cfg.peer, w.value.items, sa.respMessage, sa.ni, sa.keys.skPr)
            && |LastId(w.value.items).value| >= 4 && OfferedSpi(w.value.items).Some?)
      && (r.Ok? ==>
            && var id := LastId(w.value.items).value;
            && r.value.0 == Identification(id[0], id[4..]) && r.value.1 == OfferedSpi(w.value.items).value
            && r.value.2 == Assignment(w.value.items))
  {
    hide OpenWalk, ParseAuthInner, VerifyPeerAuth, LastId, LastAuth, OfferedSpi, AuthsParse, PeerProof, SignedOctets,
         Readable;
    var w := OpenWalk(c, response, sa.keys.skEr);
    if w.Ok? {
      ReadsExactly(w.value);
      if Readable(w.value) {
        ReadableMeans(w.value);
        VerifyExactly(c, pki, cfg, w.value, sa.respMessage, sa.ni, sa.keys.skPr);
      }
    }
  }
}
