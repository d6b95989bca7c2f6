/**
 What `IKE_SA_INIT` accepts and answers, exactly and for every message (src/ikev2/exchange.rs).
 */
module SaInitExact {
  import opened Common
  import opened Primitives
  import opened Framing
  import opened Message
  import opened PayloadBodies
  import opened KeySchedule
  import opened Dh
  import opened Negotiate
  import opened SaInit
  import opened SaInitAgreement

  // ----- what a message says -----

  predicate SasParse(items: seq<RawPayload>) {
    forall i :: 0 <= i < |items| && items[i].ptype == PtSa ==> ParseSa(items[i].data).Ok?
  }

  predicate KesParse(items: seq<RawPayload>) {
    forall i :: 0 <= i < |items| && items[i].ptype == PtKe ==> ParseKe(items[i].data).Ok?
  }

  function LastSa(items: seq<RawPayload>): Option<SecurityAssociation> {
    match FindLast(items, PtSa)
    case None => None
    case Some(b) => Value(ParseSa(b))
  }

  function LastKe(items: seq<RawPayload>): Option<KeyExchange> {
    match FindLast(items, PtKe)
    case None => None
    case Some(b) => Value(ParseKe(b))
  }

  function Value<T>(r: Result<T>): Option<T> {
    if r.Ok? then Some(r.value) else None
  }

  /** The payload is a notify of the type; one that does not parse is none. */
  predicate IsNotify(p: RawPayload, t: U16) {
    p.ptype == PtNotify && ParseNotify(p.data).Ok? && ParseNotify(p.data).value.notifyType == t
  }

  /** The data of the last notify of the type. */
  function LastNotify(items: seq<RawPayload>, t: U16): Option<Bytes> {
    if items == [] then None
    else
      var p := items[|items| - 1];
      if IsNotify(p, t) then Some(ParseNotify(p.data).value.data) else LastNotify(items[..|items| - 1], t)
  }

  /** The 16-bit identifiers of a list, a trailing odd octet left aside. */
  function Identifiers(data: Bytes): seq<U16> {
    seq(|data| / 2, i requires 0 <= i < |data| / 2 => GetU16(data, 2 * i))
  }

  /** The hash algorithms the peer announces: those of its last announcement, none without one. */
  function Announced(items: seq<RawPayload>): seq<U16> {
    match LastNotify(items, SIGNATURE_HASH_ALGORITHMS)
    case None => []
    case Some(d) => Identifiers(d)
  }

  /** What a message says, when it says anything: the last SA, KE and nonce of a chain without an error. */
  function Reading(m: Bytes): Option<SaInitPayloads> {
    if |m| < HEADER_LEN || ParseHeader(m).Err? then None
    else ReadingOf(Walk(ParseHeader(m).value.nextPayload, m[HEADER_LEN..]))
  }

  function ReadingOf(w: Walked): Option<SaInitPayloads> {
    if && w.error.None? && SasParse(w.items) && KesParse(w.items)
       && LastSa(w.items).Some? && LastKe(w.items).Some? && FindLast(w.items, PtNonce).Some?
    then
      Some(SaInitPayloads(LastSa(w.items).value, LastKe(w.items).value, FindLast(w.items, PtNonce).value,
                          Announced(w.items), LastNotify(w.items, COOKIE)))
    else None
  }

  // ----- the scan reads exactly that -----

  lemma {:induction false} IdentifiersRead(data: Bytes)
    ensures SignatureHashes(data) == Identifiers(data)
    decreases |data|
  {
    if |data| >= 2 {
      IdentifiersRead(data[2..]);
      forall i | 0 <= i < |data| / 2 ensures SignatureHashes(data)[i] == GetU16(data, 2 * i) {
        assert i > 0 ==> GetU16(data[2..], 2 * (i - 1)) == GetU16(data, 2 * i);
      }
    }
  }

  lemma {:induction false} SeeAllSnoc(seen: Seen, items: seq<RawPayload>, p: RawPayload)
    ensures SeeAll(seen, items + [p])
         == if SeeAll(seen, items).Err? then SeeAll(seen, items) else See(SeeAll(seen, items).value, p)
    decreases |items|
  {
    hide See;
    if items == [] {
      var next := See(seen, p);
      assert (items + [p])[1..] == [] && (items + [p])[0] == p;
      assert next.Ok? ==> SeeAll(next.value, []) == next;
    } else {
      assert (items + [p])[1..] == items[1..] + [p];
      var next := See(seen, items[0]);
      if next.Ok? {
        SeeAllSnoc(next.value, items[1..], p);
      }
    }
  }

  /** What one payload adds to what was seen. */
  lemma SeeOne(s: Seen, p: RawPayload)
    ensures var r := See(s, p);
      && (r.Err? <==> (p.ptype == PtSa && ParseSa(p.data).Err?) || (p.ptype == PtKe && ParseKe(p.data).Err?))
      && (r.Ok? ==>
            && r.value.sa == (if p.ptype == PtSa then Value(ParseSa(p.data)) else s.sa)
            && r.value.ke == (if p.ptype == PtKe then Value(ParseKe(p.data)) else s.ke)
            && r.value.nonce == (if p.ptype == PtNonce then Some(p.data) else s.nonce)
            && r.value.cookie == (if IsNotify(p, COOKIE) then Some(ParseNotify(p.data).value.data) else s.cookie)
            && r.value.signatureHashes
               == (if IsNotify(p, SIGNATURE_HASH_ALGORITHMS) then Identifiers(ParseNotify(p.data).value.data)
                   else s.signatureHashes))
  {
    hide ParseSa, ParseKe, ParseNotify, Identifiers, SignatureHashes;
    if IsNotify(p, SIGNATURE_HASH_ALGORITHMS) {
      IdentifiersRead(ParseNotify(p.data).value.data);
    }
  }

  /** What the scan has seen after all payloads, in terms of the list. */
  lemma {:induction false} SeenExactly(items: seq<RawPayload>)
    ensures var r := SeeAll(NOTHING_SEEN, items);
      && (r.Ok? <==> SasParse(items) && KesParse(items))
      && (r.Ok? ==>
            && r.value.sa == LastSa(items) && r.value.ke == LastKe(items) && r.value.nonce == FindLast(items, PtNonce)
            && r.value.signatureHashes == Announced(items) && r.value.cookie == LastNotify(items, COOKIE))
    decreases |items|
  {
    hide ParseSa, ParseKe, ParseNotify, Identifiers, SeeAll, See;
    if items == [] {
      NothingYet();
    } else {
      var n := |items| - 1;
      var before, p := items[..n], items[n];
      SeenExactly(before);
      SeeAllSnoc(NOTHING_SEEN, before, p);
      if SeeAll(NOTHING_SEEN, before).Ok? {
        SeeOne(SeeAll(NOTHING_SEEN, before).value, p);
      }
      assert items == before + [p];
      assert SasParse(items) <==> SasParse(before) && (p.ptype == PtSa ==> ParseSa(p.data).Ok?);
      assert KesParse(items) <==> KesParse(before) && (p.ptype == PtKe ==> ParseKe(p.data).Ok?);
    }
  }

  lemma NothingYet()
    ensures SeeAll(NOTHING_SEEN, []) == Ok(NOTHING_SEEN)
  {
  }

  /** The scan of a walk succeeds exactly when the walk says something, and gives what it says. */
  lemma WalkedExactly(w: Walked)
    ensures Value(ParseWalked(w)) == ReadingOf(w)
  {
    hide SeeAll, SasParse, KesParse, LastSa, LastKe, FindLast, Announced, LastNotify;
    SeenExactly(w.items);
  }

  /** Both ends read every message in this way. */
  lemma ReadsExactly(m: Bytes)
    ensures |m| >= HEADER_LEN && ParseHeader(m).Ok? ==>
      Value(ParseSaInit(ParseHeader(m).value, m[HEADER_LEN..])) == Reading(m)
  {
    hide ParseHeader, ParseWalked, ReadingOf, Walk;
    if |m| >= HEADER_LEN && ParseHeader(m).Ok? {
      WalkedExactly(Walk(ParseHeader(m).value.nextPayload, m[HEADER_LEN..]));
    }
  }

  // ----- the responder -----

  /** The cookie gate lets the request pass. */
  predicate CookieHolds(c: Crypto, policy: Option<CookiePolicy>, spiI: U64, ps: SaInitPayloads) {
    policy.Some? && policy.value.required ==>
      ps.cookie == Some(c.sha256(policy.value.secret + U64Bytes(spiI) + ps.nonce + policy.value.peer))
  }

  /** The group of the suite that is selected from an offer. */
  function SelectedGroupId(ps: SaInitPayloads): Option<U16> {
    if Select(ps.sa).Some? then Some(Select(ps.sa).value.dhId) else None
  }

  /** A suite can be selected and the share is for its group and one that the group accepts. */
  predicate Agreeable(ps: SaInitPayloads) {
    && SelectedGroupId(ps) == Some(ps.ke.dhGroup) && GroupFromId(ps.ke.dhGroup).Some?
    && ValidShare(GroupFromId(ps.ke.dhGroup).value, ps.ke.data)
  }

  /** The keys of section 2.14 of RFC 7296 for a share that was received. */
  predicate KeyedBy(c: Crypto, sa: CompletedSaInit, private: Scalar, ke: KeyExchange)
    requires GroupFromId(ke.dhGroup).Some?
  {
    var secret := Shared(c, GroupFromId(ke.dhGroup).value, private, ke.data);
    && secret.Ok?
    && AllKeys(sa.keys) == PrfPlus(c, c.hmacSha256(sa.ni + sa.nr, secret.value),
                                   sa.ni + sa.nr + U64Bytes(sa.spiI) + U64Bytes(sa.spiR), |AllKeys(sa.keys)|)
    && KeySizes(sa.keys, sa.suite.encrId == AES_GCM_16)
  }

  /** AES-GCM takes 36 octets for each cipher key and no integrity keys, AES-CBC with HMAC 32 and 32. */
  predicate KeySizes(k: SessionKeys, gcm: bool) {
    && |k.skD| == |k.skPi| == |k.skPr| == 32
    && |k.skEi| == |k.skEr| == (if gcm then 36 else 32) && |k.skAi| == |k.skAr| == (if gcm then 0 else 32)
  }

  /** The state a responder keeps after it has established. */
  predicate RespondedWith(c: Crypto, sa: CompletedSaInit, request: Bytes, ps: SaInitPayloads, local: LocalSecret,
                          response: Bytes)
    requires |request| >= HEADER_LEN && GroupFromId(ps.ke.dhGroup).Some?
  {
    && sa.role == Responder && sa.spiI == GetU64(request, 0) && sa.spiR == local.spi && Select(ps.sa) == Some(sa.suite)
    && sa.ni == ps.nonce && sa.nr == local.nonce && sa.initMessage == request && sa.respMessage == response
    && sa.peerSignatureHashes == ps.signatureHashes && KeyedBy(c, sa, local.dhPrivate, ps.ke)
  }

  lemma EstablishExactly(c: Crypto, request: Bytes, spiI: U64, ps: SaInitPayloads, suite: ChosenSuite, g: DhGroup,
                         local: LocalSecret, natt: Option<(Endpoint, Endpoint)>)
    requires GroupFromId(suite.dhId) == Some(g) && ps.ke.dhGroup == suite.dhId && Select(ps.sa) == Some(suite)
    requires |request| >= HEADER_LEN && spiI == GetU64(request, 0)
    ensures var r := Establish(c, request, spiI, ps, suite, g, local, natt);
      && (r.Ok? <==> ValidShare(g, ps.ke.data))
      && (r.Ok? ==> r.value.Established? && RespondedWith(c, r.value.sa, request, ps, local, r.value.response))
  {
    hide Shared, ValidShare, PrfPlus, DeriveSessionKeys, BuildSaInit, NatNotifies, ToProposal, Public, KeyLengthsOf,
         Select, GetU64, AllKeys, KeySizes;
    assert GroupId(g) == suite.dhId;
    if ValidShare(g, ps.ke.data) {
      ShareLength(g, ps.ke.data);
      var secret := Shared(c, g, local.dhPrivate, ps.ke.data).value;
      KeysTile(c, secret, ps.nonce, local.nonce, spiI, local.spi, KeyLengthsOf(suite));
      SizesOf(ps.sa);
    } else {
      assert Shared(c, g, local.dhPrivate, ps.ke.data).Err?;
    }
  }

  lemma ShareLength(g: DhGroup, share: Bytes)
    requires ValidShare(g, share)
    ensures |share| == PublicLen(g)
  {
    hide ModpValid;
  }

  lemma KeysTile(c: Crypto, secret: Bytes, ni: Bytes, nr: Bytes, spiI: U64, spiR: U64, l: KeyLengths)
    ensures var keys := DeriveSessionKeys(c, secret, ni, nr, spiI, spiR, l);
      AllKeys(keys) == PrfPlus(c, c.hmacSha256(ni + nr, secret), ni + nr + U64Bytes(spiI) + U64Bytes(spiR),
                               |AllKeys(keys)|)
    ensures l == KeyLengths(32, 0, 36) ==> KeySizes(DeriveSessionKeys(c, secret, ni, nr, spiI, spiR, l), true)
    ensures l == KeyLengths(32, 32, 32) ==> KeySizes(DeriveSessionKeys(c, secret, ni, nr, spiI, spiR, l), false)
  {
    hide DeriveSessionKeys, PrfPlus;
    SessionKeysTileStream(c, secret, ni, nr, spiI, spiR, l);
  }

  lemma SizesOf(sa: SecurityAssociation)
    requires Select(sa).Some?
    ensures KeyLengthsOf(Select(sa).value)
      == if Select(sa).value.encrId == AES_GCM_16 then KeyLengths(32, 0, 36) else KeyLengths(32, 32, 32)
  {
    hide Select;
    SelectedSuite(sa);
    SuiteLengths(Select(sa).value);
  }

  /**
   The responder on every octet string. It establishes exactly when the message says something, the
   cookie holds where one is demanded, a suite of the offer is acceptable, and the share is for its
   group and valid; then the state holds the selected suite, the values of the message and the keys of
   the secret. It asks for a cookie or for another group exactly when that is what is missing, and
   otherwise fails.
   */
  lemma RespondExactly(c: Crypto, request: Bytes, local: LocalSecret, natt: Option<(Endpoint, Endpoint)>,
                       policy: Option<CookiePolicy>)
    ensures var r, said := Respond(c, request, local, natt, policy), Reading(request);
      && (said.None? ==> r.Err?)
      && (said.Some? ==>
            var ps := said.value;
            var holds := CookieHolds(c, policy, GetU64(request, 0), ps);
            var other := SelectedGroupId(ps).Some? && SelectedGroupId(ps) != Some(ps.ke.dhGroup);
            && (r.Ok? && r.value.CookieRequired? <==> !holds)
            && (r.Ok? && r.value.InvalidKe? <==> holds && other && natt.Some?)
            && (r.Ok? && r.value.InvalidKe? ==> Some(r.value.group) == SelectedGroupId(ps))
            && (r.Ok? && r.value.Established? <==> holds && Agreeable(ps))
            && (r.Ok? && r.value.Established? ==> RespondedWith(c, r.value.sa, request, ps, local, r.value.response)))
  {
    hide ParseSaInit, Reading, Select, Establish, NotifyResponse, GroupFromId, GroupId, GetU64, ValidShare,
         RespondedWith, SelectedGroupId;
    ReadsExactly(request);
    ShortSaysNothing(request);
    if Reading(request).Some? {
      var ps := Reading(request).value;
      GroupOf(ps);
      if Select(ps.sa).Some? && ps.ke.dhGroup == Select(ps.sa).value.dhId {
        var suite := Select(ps.sa).value;
        EstablishExactly(c, request, GetU64(request, 0), ps, suite, GroupFromId(suite.dhId).value, local, natt);
      }
    }
  }

  lemma ShortSaysNothing(m: Bytes)
    ensures |m| < HEADER_LEN ==> Reading(m).None?
    ensures |m| >= HEADER_LEN ==> ParseHeader(m).Ok? && ParseHeader(m).value.initiatorSpi == GetU64(m, 0)
    ensures |m| >= HEADER_LEN ==> ParseHeader(m).value.responderSpi == GetU64(m, 8)
  {
    hide GetU64;
  }

  /** Every suite that is selected names a group of the library. */
  lemma GroupOf(ps: SaInitPayloads)
    ensures SelectedGroupId(ps) == if Select(ps.sa).Some? then Some(Select(ps.sa).value.dhId) else None
    ensures Select(ps.sa).Some? ==>
      && GroupFromId(Select(ps.sa).value.dhId).Some?
      && GroupId(GroupFromId(Select(ps.sa).value.dhId).value) == Select(ps.sa).value.dhId
  {
    hide Select;
    if Select(ps.sa).Some? {
      SelectedGroup(ps.sa);
    }
  }

  // ----- the initiator -----

  /** The state an initiator keeps after it has completed. */
  predicate CompletedWith(c: Crypto, sa: CompletedSaInit, request: Bytes, ps: SaInitPayloads, local: LocalSecret,
                          response: Bytes)
    requires |response| >= HEADER_LEN && GroupFromId(ps.ke.dhGroup).Some?
  {
    && sa.role == Initiator && sa.spiI == local.spi && sa.spiR == GetU64(response, 8) && Select(ps.sa) == Some(sa.suite)
    && sa.ni == local.nonce && sa.nr == ps.nonce && sa.initMessage == request && sa.respMessage == response
    && sa.peerSignatureHashes == ps.signatureHashes && KeyedBy(c, sa, local.dhPrivate, ps.ke)
  }

  /** The initiator on every octet string, in the same way; the cookie plays no part. */
  lemma CompleteExactly(c: Crypto, local: LocalSecret, request: Bytes, response: Bytes)
    ensures var r, said := InitiatorComplete(c, local, request, response), Reading(response);
      && (r.Ok? <==> said.Some? && Agreeable(said.value))
      && (r.Ok? ==> |response| >= HEADER_LEN && CompletedWith(c, r.value, request, said.value, local, response))
  {
    hide ParseSaInit, Reading, Select, FinishInitiator, GroupFromId, GetU64, ValidShare, CompletedWith,
         SelectedGroupId;
    ReadsExactly(response);
    ShortSaysNothing(response);
    if Reading(response).Some? {
      FinishExactly(c, local, request, response, Reading(response).value);
    }
  }

  lemma FinishExactly(c: Crypto, local: LocalSecret, request: Bytes, response: Bytes, ps: SaInitPayloads)
    requires |response| >= HEADER_LEN
    ensures var r := FinishInitiator(c, local, request, response, GetU64(response, 8), ps);
      && (r.Ok? <==> Agreeable(ps))
      && (r.Ok? ==> CompletedWith(c, r.value, request, ps, local, response))
  {
    hide Shared, ValidShare, PrfPlus, DeriveSessionKeys, KeyLengthsOf, Select, GetU64, AllKeys, GroupFromId, GroupId,
         SelectedGroupId, KeySizes;
    GroupOf(ps);
    if Select(ps.sa).Some? && ps.ke.dhGroup == Select(ps.sa).value.dhId {
      var g := GroupFromId(ps.ke.dhGroup).value;
      if ValidShare(g, ps.ke.data) {
        ShareLength(g, ps.ke.data);
        var secret := Shared(c, g, local.dhPrivate, ps.ke.data).value;
        KeysTile(c, secret, local.nonce, ps.nonce, local.spi, GetU64(response, 8), KeyLengthsOf(Select(ps.sa).value));
        SizesOf(ps.sa);
      } else {
        assert Shared(c, g, local.dhPrivate, ps.ke.data).Err?;
      }
    }
  }
}
