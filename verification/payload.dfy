/**
 Typed IKEv2 payload bodies (src/ikev2/payload.rs): the Security Association tree,
 Key Exchange, Identification, Authentication, Traffic Selectors, Configuration,
 Notify and Certificate, each with its parser and its printer.
 */
module PayloadBodies {
  import opened Common
  import opened Message

  const ENCR: Byte := 1
  const PRF: Byte := 2
  const INTEG: Byte := 3
  const DH: Byte := 4
  const ESN: Byte := 5

  const AES_CBC: U16 := 12
  const AES_GCM_16: U16 := 20
  const PRF_HMAC_SHA2_256: U16 := 5
  const AUTH_HMAC_SHA2_256_128: U16 := 12
  const MODP_1024: U16 := 2
  const MODP_2048: U16 := 14
  const X25519: U16 := 31
  const ESN_NONE: U16 := 0

  const PROTO_IKE: Byte := 1
  const PROTO_ESP: Byte := 3

  const ATTR_KEY_LENGTH: U16 := 14

  type Ipv4 = a: Bytes | |a| == 4 witness [0, 0, 0, 0]

  // ----- transforms -----

  datatype Transform = Transform(ttype: Byte, tid: U16, keyLength: Option<U16>)

  /** The last Key Length attribute among `attrs`, or `found` when there is none. */
  function FindKeyLength(attrs: Bytes, found: Option<U16>): Result<Option<U16>>
    decreases |attrs|
  {
    if |attrs| < 4 then Ok(found)
    else
      var header := GetU16(attrs, 0);
      if header >= 0x8000 then
        FindKeyLength(attrs[4..], if header % 0x8000 == ATTR_KEY_LENGTH then Some(GetU16(attrs, 2)) else found)
      else
        var len := GetU16(attrs, 2);
        if 4 + len > |attrs| then Err(BadLength(4 + len, |attrs|))
        else FindKeyLength(attrs[4 + len..], found)
  }

  /** The source's loop over a shrinking attribute slice. */
  method ScanKeyLength(all: Bytes) returns (r: Result<Option<U16>>)
    ensures r == FindKeyLength(all, None)
  {
    var attrs, keyLength := all, None;
    while |attrs| >= 4
      invariant FindKeyLength(attrs, keyLength) == FindKeyLength(all, None)
      decreases |attrs|
    {
      var header := GetU16(attrs, 0);
      if header >= 0x8000 {
        if header % 0x8000 == ATTR_KEY_LENGTH {
          keyLength := Some(GetU16(attrs, 2));
        }
        attrs := attrs[4..];
      } else {
        var len := GetU16(attrs, 2);
        if 4 + len > |attrs| {
          return Err(BadLength(4 + len, |attrs|));
        }
        attrs := attrs[4 + len..];
      }
    }
    return Ok(keyLength);
  }

  function ParseTransform(buf: Bytes): (r: Result<(Transform, nat)>)
    ensures r.Ok? ==> 8 <= r.value.1 <= |buf|
  {
    if |buf| < 8 then Err(Truncated(8, |buf|))
    else
      var length := GetU16(buf, 2);
      if length < 8 then Err(ShortPayload(length))
      else if length > |buf| then Err(BadLength(length, |buf|))
      else
        var keyLength :- FindKeyLength(buf[8..length], None);
        Ok((Transform(buf[4], GetU16(buf, 6), keyLength), length))
  }

  function KeyLengthAttr(k: Option<U16>): (a: Bytes)
    ensures |a| == (if k.Some? then 4 else 0)
  {
    match k
    case Some(bits) => U16Bytes(0x8000 + ATTR_KEY_LENGTH) + U16Bytes(bits)
    case None => []
  }

  function TransformBytes(t: Transform, last: bool): (b: Bytes)
    ensures |b| == TransformSize(t)
  {
    var attrs := KeyLengthAttr(t.keyLength);
    [if last then 0 else 3, 0] + U16Bytes(8 + |attrs|) + [t.ttype, 0] + U16Bytes(t.tid) + attrs
  }

  function TransformSize(t: Transform): nat {
    if t.keyLength.Some? then 12 else 8
  }

  lemma KeyLengthReads(k: Option<U16>)
    ensures FindKeyLength(KeyLengthAttr(k), None) == Ok(k)
  {
    if k.Some? {
      var a := KeyLengthAttr(k);
      assert a[0..2] == U16Bytes(0x8000 + ATTR_KEY_LENGTH) && a[2..4] == U16Bytes(k.value);
      U16At(a, 0, 0x8000 + ATTR_KEY_LENGTH);
      U16At(a, 2, k.value);
      assert |a[4..]| == 0;
    }
  }

  lemma TransformRoundTrip(t: Transform, last: bool, rest: Bytes)
    ensures ParseTransform(TransformBytes(t, last) + rest) == Ok((t, TransformSize(t)))
  {
    hide FindKeyLength;
    var attrs := KeyLengthAttr(t.keyLength);
    var b := TransformBytes(t, last) + rest;
    assert b[2..4] == U16Bytes(8 + |attrs|);
    assert b[6..8] == U16Bytes(t.tid);
    U16At(b, 2, 8 + |attrs|);
    U16At(b, 6, t.tid);
    assert b[8..8 + |attrs|] == attrs;
    KeyLengthReads(t.keyLength);
  }

  // ----- proposals -----

  datatype Proposal = Proposal(num: Byte, protocolId: Byte, spi: Bytes, transforms: seq<Transform>)

  /** `count` transforms from the front of `buf`. */
  function ParseTransforms(buf: Bytes, count: nat): (r: Result<seq<Transform>>)
    ensures r.Ok? ==> |r.value| == count
  {
    if count == 0 then Ok([])
    else
      var (t, used) :- ParseTransform(buf);
      Prepend([t], ParseTransforms(buf[used..], count - 1))
  }

  method ParseTransformList(buf: Bytes, count: nat) returns (r: Result<seq<Transform>>)
    ensures r == ParseTransforms(buf, count)
  {
    hide ParseTransform;
    var off, out: seq<Transform> := 0, [];
    assert buf[0..] == buf;
    PrependNothing(ParseTransforms(buf, count));
    for i := 0 to count
      invariant 0 <= off <= |buf|
      invariant ParseTransforms(buf, count) == Prepend(out, ParseTransforms(buf[off..], count - i))
    {
      var one := ParseTransform(buf[off..]);
      if one.Err? {
        return Err(one.error);
      }
      assert buf[off..][one.value.1..] == buf[off + one.value.1..];
      PrependTwice(out, [one.value.0], ParseTransforms(buf[off + one.value.1..], count - i - 1));
      out := out + [one.value.0];
      off := off + one.value.1;
    }
    assert out + [] == out;
    return Ok(out);
  }

  function ParseProposal(buf: Bytes): (r: Result<(Proposal, nat)>)
    ensures r.Ok? ==> 8 <= r.value.1 <= |buf|
  {
    if |buf| < 8 then Err(Truncated(8, |buf|))
    else
      var length := GetU16(buf, 2);
      if length < 8 then Err(ShortPayload(length))
      else if length > |buf| then Err(BadLength(length, |buf|))
      else
        var spiSize := buf[6];
        if 8 + spiSize > length then Err(BadLength(8 + spiSize, length))
        else
          var transforms :- ParseTransforms(buf[8 + spiSize..length], buf[7]);
          Ok((Proposal(buf[4], buf[5], buf[8..8 + spiSize], transforms), length))
  }

  function TransformListBytes(ts: seq<Transform>): Bytes {
    if ts == [] then [] else TransformBytes(ts[0], |ts| == 1) + TransformListBytes(ts[1..])
  }

  function ProposalBytes(p: Proposal, last: bool): Bytes {
    var body := TransformListBytes(p.transforms);
    [if last then 0 else 2, 0] + U16Bytes(AsU16(8 + |p.spi| + |body|))
    + [p.num, p.protocolId, AsU8(|p.spi|), AsU8(|p.transforms|)] + p.spi + body
  }

  function ProposalSize(p: Proposal): nat {
    8 + |p.spi| + |TransformListBytes(p.transforms)|
  }

  /** The counts and lengths of a proposal fit their one- and two-octet fields. */
  predicate ProposalFits(p: Proposal) {
    |p.spi| < 0x100 && |p.transforms| < 0x100 && ProposalSize(p) < 0x1_0000
  }

  lemma {:induction false} TransformListRoundTrip(ts: seq<Transform>)
    ensures ParseTransforms(TransformListBytes(ts), |ts|) == Ok(ts)
  {
    hide TransformBytes, ParseTransform;
    if ts != [] {
      var rest := TransformListBytes(ts[1..]);
      TransformRoundTrip(ts[0], |ts| == 1, rest);
      TransformListRoundTrip(ts[1..]);
      assert ts == [ts[0]] + ts[1..];
      assert TransformListBytes(ts)[TransformSize(ts[0])..] == rest;
    }
  }

  lemma ProposalRoundTrip(p: Proposal, last: bool, rest: Bytes)
    requires ProposalFits(p)
    ensures |ProposalBytes(p, last)| == ProposalSize(p)
    ensures ParseProposal(ProposalBytes(p, last) + rest) == Ok((p, ProposalSize(p)))
  {
    hide TransformListBytes, ParseTransforms, U16Bytes, GetU16;
    var body := TransformListBytes(p.transforms);
    var b := ProposalBytes(p, last) + rest;
    assert b[2..4] == U16Bytes(ProposalSize(p));
    U16At(b, 2, ProposalSize(p));
    assert b[8..8 + |p.spi|] == p.spi;
    assert b[8 + |p.spi|..ProposalSize(p)] == body;
    assert b[4..8] == [p.num, p.protocolId, AsU8(|p.spi|), AsU8(|p.transforms|)];
    assert b[4] == b[4..8][0] && b[5] == b[4..8][1] && b[6] == b[4..8][2] && b[7] == b[4..8][3];
    TransformListRoundTrip(p.transforms);
  }

  // ----- the security association -----

  datatype SecurityAssociation = SecurityAssociation(proposals: seq<Proposal>)

  function ParseProposals(body: Bytes): (r: Result<seq<Proposal>>)
    decreases |body|
  {
    if body == [] then Ok([])
    else
      var (p, used) :- ParseProposal(body);
      Prepend([p], ParseProposals(body[used..]))
  }

  function ParseSa(body: Bytes): Result<SecurityAssociation> {
    var ps :- ParseProposals(body);
    Ok(SecurityAssociation(ps))
  }

  method ParseSaBody(body: Bytes) returns (r: Result<SecurityAssociation>)
    ensures r == ParseSa(body)
  {
    hide ParseProposal;
    var off, out: seq<Proposal> := 0, [];
    assert body[0..] == body;
    PrependNothing(ParseProposals(body));
    while off < |body|
      invariant 0 <= off <= |body|
      invariant ParseProposals(body) == Prepend(out, ParseProposals(body[off..]))
    {
      var one := ParseProposal(body[off..]);
      if one.Err? {
        return Err(one.error);
      }
      assert body[off..][one.value.1..] == body[off + one.value.1..];
      PrependTwice(out, [one.value.0], ParseProposals(body[off + one.value.1..]));
      out := out + [one.value.0];
      off := off + one.value.1;
    }
    assert body[off..] == [];
    assert out + [] == out;
    return Ok(SecurityAssociation(out));
  }

  function ProposalListBytes(ps: seq<Proposal>): Bytes {
    if ps == [] then [] else ProposalBytes(ps[0], |ps| == 1) + ProposalListBytes(ps[1..])
  }

  function SaBytes(sa: SecurityAssociation): Bytes {
    ProposalListBytes(sa.proposals)
  }

  predicate SaFits(sa: SecurityAssociation) {
    forall i :: 0 <= i < |sa.proposals| ==> ProposalFits(sa.proposals[i])
  }

  lemma {:induction false} ProposalListRoundTrip(ps: seq<Proposal>)
    requires forall i :: 0 <= i < |ps| ==> ProposalFits(ps[i])
    ensures ParseProposals(ProposalListBytes(ps)) == Ok(ps)
  {
    hide ProposalFits, ProposalBytes, ParseProposal;
    if ps != [] {
      var rest := ProposalListBytes(ps[1..]);
      ProposalRoundTrip(ps[0], |ps| == 1, rest);
      ProposalListRoundTrip(ps[1..]);
      assert ps == [ps[0]] + ps[1..];
      assert ProposalListBytes(ps)[ProposalSize(ps[0])..] == rest;
    }
  }

  /** Every security association whose parts fit their length fields survives printing and parsing. */
  lemma SaRoundTrip(sa: SecurityAssociation)
    requires SaFits(sa)
    ensures ParseSa(SaBytes(sa)) == Ok(sa)
  {
    ProposalListRoundTrip(sa.proposals);
  }

  // ----- the markers of section 3.3 of RFC 7296 -----

  /** Transforms as a reader finds them that goes by the markers: 3 while more follow, 0 on the last. */
  function FollowTransforms(buf: Bytes): Option<seq<Transform>>
    decreases |buf|
  {
    match ParseTransform(buf)
    case Err(_) => None
    case Ok((t, used)) =>
      if buf[0] == 0 && used == |buf| then Some([t])
      else if buf[0] != 3 then None
      else match FollowTransforms(buf[used..])
        case None => None
        case Some(ts) => Some([t] + ts)
  }

  /** Proposals in the same way, with 2 in place of 3, and their transforms by the markers too. */
  function FollowProposals(buf: Bytes): Option<seq<Proposal>>
    decreases |buf|
  {
    match ParseProposal(buf)
    case Err(_) => None
    case Ok((p, used)) =>
      if 8 + |p.spi| > used || FollowTransforms(buf[8 + |p.spi|..used]) != Some(p.transforms) then None
      else if buf[0] == 0 && used == |buf| then Some([p])
      else if buf[0] != 2 then None
      else match FollowProposals(buf[used..])
        case None => None
        case Some(ps) => Some([p] + ps)
  }

  lemma {:induction false} TransformMarkers(ts: seq<Transform>)
    requires ts != []
    ensures FollowTransforms(TransformListBytes(ts)) == Some(ts)
  {
    hide ParseTransform;
    var b, first, rest := TransformListBytes(ts), TransformBytes(ts[0], |ts| == 1), TransformListBytes(ts[1..]);
    TransformRoundTrip(ts[0], |ts| == 1, rest);
    assert b == first + rest && b[0] == first[0];
    if |ts| == 1 {
      assert rest == [] && ts == [ts[0]] && b == first;
    } else {
      TransformMarkers(ts[1..]);
      assert b[TransformSize(ts[0])..] == rest;
      assert ts == [ts[0]] + ts[1..];
    }
  }

  /** A proposal with at least one transform whose counts and lengths fit. */
  predicate Markable(p: Proposal) {
    ProposalFits(p) && p.transforms != []
  }

  /** A reader that goes by the markers reads what was printed: each list ends where its marker says. */
  lemma {:induction false} MarkersAgree(ps: seq<Proposal>)
    requires ps != [] && forall i :: 0 <= i < |ps| ==> Markable(ps[i])
    ensures FollowProposals(ProposalListBytes(ps)) == Some(ps)
  {
    hide ParseProposal, FollowTransforms, TransformListBytes, ProposalFits, U16Bytes;
    var p := ps[0];
    var b, first, rest := ProposalListBytes(ps), ProposalBytes(p, |ps| == 1), ProposalListBytes(ps[1..]);
    assert Markable(p);
    ProposalRoundTrip(p, |ps| == 1, rest);
    assert b == first + rest && b[0] == first[0];
    TransformMarkers(p.transforms);
    assert b[8 + |p.spi|..ProposalSize(p)] == TransformListBytes(p.transforms);
    if |ps| == 1 {
      assert rest == [] && ps == [p] && b == first;
    } else {
      MarkersAgree(ps[1..]);
      assert b[ProposalSize(p)..] == rest;
      assert ps == [p] + ps[1..];
    }
  }

  // ----- the two readers of a CHILD SA SPI -----

  /** The fixed-offset reader (src/ikev2/ike_auth.rs). */
  function SpiAtFixedOffset(sa: Bytes): Option<U32> {
    if |sa| >= 12 && sa[6] == 4 then Some(GetU32(sa, 8)) else None
  }

  /** The parsing reader (src/ikev2/rekey.rs). */
  function SpiByParsing(saBytes: Bytes): Result<U32> {
    var sa :- ParseSa(saBytes);
    if sa.proposals == [] then Err(NoProposalChosen)
    else if |sa.proposals[0].spi| != 4 then Err(CryptoError(BadEspSpi))
    else Ok(GetU32(sa.proposals[0].spi, 0))
  }

  /** On every byte string that parses, the two readers return an SPI together, and the same one. */
  lemma SpiReadersAgree(b: Bytes)
    requires ParseSa(b).Ok?
    ensures SpiAtFixedOffset(b).Some? <==> SpiByParsing(b).Ok?
    ensures SpiByParsing(b).Ok? ==> SpiAtFixedOffset(b) == Some(SpiByParsing(b).value)
  {
    hide ParseTransforms;
    if b != [] {
      var p := ParseProposal(b).value.0;
      assert ParseSa(b).value.proposals[0] == p;
      if |p.spi| == 4 {
        assert b[8..12] == p.spi;
        assert b[8] == p.spi[0] && b[9] == p.spi[1] && b[10] == p.spi[2] && b[11] == p.spi[3];
      }
    }
  }

  /**
   Exactly when the readers agree on whether there is an SPI, for every byte string: when it parses, or
   when it is too short or its SPI size octet is not 4. The fixed offset ignores the declared lengths.
   */
  lemma SpiReadersExactly(b: Bytes)
    ensures (SpiAtFixedOffset(b).Some? <==> SpiByParsing(b).Ok?) <==> ParseSa(b).Ok? || |b| < 12 || b[6] != 4
  {
    hide ParseSa;
    if ParseSa(b).Ok? {
      SpiReadersAgree(b);
    }
  }

  /** A string on which they part. */
  lemma SpiReadersPart()
    ensures var b := [0, 0, 0, 7, 1, PROTO_ESP, 4, 0, 1, 2, 3, 4]; SpiAtFixedOffset(b).Some? && SpiByParsing(b).Err?
  {
    assert GetU16([0, 0, 0, 7, 1, PROTO_ESP, 4, 0, 1, 2, 3, 4], 2) == 7;
  }

  /** The default CHILD SA offer: AES-GCM-16-256 without extended sequence numbers. */
  function EspOffer(spi: U32): SecurityAssociation {
    SecurityAssociation([Proposal(1, PROTO_ESP, U32Bytes(spi),
      [Transform(ENCR, AES_GCM_16, Some(256)), Transform(ESN, ESN_NONE, None)])])
  }

  /** Both readers recover the SPI that was offered; the offer is AES-GCM-16-256 without extended sequence numbers. */
  lemma EspOfferReads(spi: U32)
    ensures |SaBytes(EspOffer(spi))| == 32
    ensures SpiByParsing(SaBytes(EspOffer(spi))) == Ok(spi)
    ensures SpiAtFixedOffset(SaBytes(EspOffer(spi))) == Some(spi)
    ensures ParseSa(SaBytes(EspOffer(spi))) == Ok(SecurityAssociation([Proposal(1, 3, U32Bytes(spi),
      [Transform(1, 20, Some(256)), Transform(5, 0, None)])]))
  {
    hide ParseSa, ProposalBytes, TransformBytes;
    var sa := EspOffer(spi);
    var p := sa.proposals[0];
    var ts := p.transforms;
    assert ts[1..] == [ts[1]] && ts[1..][1..] == [];
    assert TransformListBytes(ts[1..]) == TransformBytes(ts[1], true) + TransformListBytes([]);
    assert |TransformListBytes(ts)| == 20;
    SaRoundTrip(sa);
    ProposalRoundTrip(p, true, []);
    assert sa.proposals[1..] == [];
    assert ProposalListBytes(sa.proposals[1..]) == [];
    assert SaBytes(sa) == ProposalBytes(p, true);
    SpiReadersAgree(SaBytes(sa));
  }

  // ----- flat bodies -----

  datatype KeyExchange = KeyExchange(dhGroup: U16, data: Bytes)

  function ParseKe(body: Bytes): Result<KeyExchange> {
    if |body| < 4 then Err(Truncated(4, |body|)) else Ok(KeyExchange(GetU16(body, 0), body[4..]))
  }

  function KeBytes(ke: KeyExchange): (b: Bytes)
    ensures |b| == 4 + |ke.data|
    ensures ParseKe(b) == Ok(ke)
  {
    var b := U16Bytes(ke.dhGroup) + U16Bytes(0) + ke.data;
    assert b[4..] == ke.data && b[0..2] == U16Bytes(ke.dhGroup);
    b
  }

  datatype Identification = Identification(idType: Byte, data: Bytes)

  function ParseId(body: Bytes): Result<Identification> {
    if |body| < 4 then Err(Truncated(4, |body|)) else Ok(Identification(body[0], body[4..]))
  }

  function IdBytes(id: Identification): (b: Bytes)
    ensures |b| == 4 + |id.data|
    ensures ParseId(b) == Ok(id)
  {
    var b := [id.idType, 0, 0, 0] + id.data;
    assert b[4..] == id.data;
    b
  }

  const SHARED_KEY: Byte := 2
  const ECDSA_SHA256_P256: Byte := 9
  const DIGITAL_SIGNATURE: Byte := 14

  datatype Authentication = Authentication(authMethod: Byte, data: Bytes)

  function ParseAuth(body: Bytes): Result<Authentication> {
    if |body| < 4 then Err(Truncated(4, |body|)) else Ok(Authentication(body[0], body[4..]))
  }

  function AuthBytes(a: Authentication): (b: Bytes)
    ensures |b| == 4 + |a.data|
    ensures ParseAuth(b) == Ok(a)
  {
    var b := [a.authMethod, 0, 0, 0] + a.data;
    assert b[4..] == a.data;
    b
  }

  datatype Notify = Notify(protocolId: Byte, spi: Bytes, notifyType: U16, data: Bytes)

  const INVALID_KE_PAYLOAD: U16 := 17
  const NAT_DETECTION_SOURCE_IP: U16 := 16388
  const NAT_DETECTION_DESTINATION_IP: U16 := 16389
  const COOKIE: U16 := 16390
  const REKEY_SA: U16 := 16393
  const MOBIKE_SUPPORTED: U16 := 16396
  const SIGNATURE_HASH_ALGORITHMS: U16 := 16431
  const SHA2_256: U16 := 2

  function Status(notifyType: U16, data: Bytes): Notify {
    Notify(0, [], notifyType, data)
  }

  function ParseNotify(body: Bytes): Result<Notify> {
    if |body| < 4 then Err(Truncated(4, |body|))
    else
      var spiSize := body[1];
      if 4 + spiSize > |body| then Err(BadLength(4 + spiSize, |body|))
      else Ok(Notify(body[0], body[4..4 + spiSize], GetU16(body, 2), body[4 + spiSize..]))
  }

  function NotifyBytes(n: Notify): (b: Bytes)
    ensures |b| == 4 + |n.spi| + |n.data|
  {
    [n.protocolId, AsU8(|n.spi|)] + U16Bytes(n.notifyType) + n.spi + n.data
  }

  lemma NotifyRoundTrip(n: Notify)
    requires |n.spi| < 0x100
    ensures ParseNotify(NotifyBytes(n)) == Ok(n)
  {
    var b := NotifyBytes(n);
    assert b[2..4] == U16Bytes(n.notifyType);
    U16At(b, 2, n.notifyType);
    assert b[4..4 + |n.spi|] == n.spi && b[4 + |n.spi|..] == n.data;
  }

  datatype Certificate = Certificate(encoding: Byte, data: Bytes)

  const X509_SIGNATURE: Byte := 4

  function ParseCert(body: Bytes): Result<Certificate> {
    if body == [] then Err(Truncated(1, 0)) else Ok(Certificate(body[0], body[1..]))
  }

  function CertBytes(x: Certificate): (b: Bytes)
    ensures ParseCert(b) == Ok(x)
  {
    var b := [x.encoding] + x.data;
    assert b[1..] == x.data;
    b
  }

  // ----- traffic selectors -----

  datatype TrafficSelector = TrafficSelector(
    tsType: Byte, ipProtocol: Byte, startPort: U16, endPort: U16, startAddr: Bytes, endAddr: Bytes)

  function Ipv4Any(): TrafficSelector {
    TrafficSelector(7, 0, 0, 65535, [0, 0, 0, 0], [255, 255, 255, 255])
  }

  function Ipv4Host(addr: Ipv4): TrafficSelector {
    TrafficSelector(7, 0, 0, 65535, addr, addr)
  }

  function ParseSelector(buf: Bytes): (r: Result<(TrafficSelector, nat)>)
    ensures r.Ok? ==> 8 <= r.value.1 <= |buf|
  {
    if |buf| < 8 then Err(Truncated(8, |buf|))
    else
      var length := GetU16(buf, 2);
      if length < 8 || length > |buf| || (length - 8) % 2 != 0 then Err(BadLength(length, |buf|))
      else
        var n := (length - 8) / 2;
        Ok((TrafficSelector(buf[0], buf[1], GetU16(buf, 4), GetU16(buf, 6), buf[8..8 + n], buf[8 + n..8 + 2 * n]),
            length))
  }

  function SelectorSize(ts: TrafficSelector): nat {
    8 + |ts.startAddr| + |ts.endAddr|
  }

  function SelectorBytes(ts: TrafficSelector): (b: Bytes)
    ensures |b| == SelectorSize(ts)
  {
    [ts.tsType, ts.ipProtocol] + U16Bytes(AsU16(SelectorSize(ts))) + U16Bytes(ts.startPort) + U16Bytes(ts.endPort)
    + ts.startAddr + ts.endAddr
  }

  /** Both addresses have one width, and the selector fits its length field. */
  predicate SelectorFits(ts: TrafficSelector) {
    |ts.startAddr| == |ts.endAddr| && SelectorSize(ts) < 0x1_0000
  }

  lemma SelectorRoundTrip(ts: TrafficSelector, rest: Bytes)
    requires SelectorFits(ts)
    ensures ParseSelector(SelectorBytes(ts) + rest) == Ok((ts, SelectorSize(ts)))
  {
    hide U16Bytes, GetU16;
    var b, n := SelectorBytes(ts) + rest, |ts.startAddr|;
    assert b[2..4] == U16Bytes(SelectorSize(ts));
    assert b[4..6] == U16Bytes(ts.startPort) && b[6..8] == U16Bytes(ts.endPort);
    U16At(b, 2, SelectorSize(ts));
    U16At(b, 4, ts.startPort);
    U16At(b, 6, ts.endPort);
    assert b[8..8 + n] == ts.startAddr && b[8 + n..8 + 2 * n] == ts.endAddr;
  }

  datatype TrafficSelectors = TrafficSelectors(selectors: seq<TrafficSelector>)

  function ParseSelectors(buf: Bytes, count: nat): Result<seq<TrafficSelector>> {
    if count == 0 then Ok([])
    else
      var (ts, used) :- ParseSelector(buf);
      Prepend([ts], ParseSelectors(buf[used..], count - 1))
  }

  function ParseTs(body: Bytes): Result<TrafficSelectors> {
    if |body| < 4 then Err(Truncated(4, |body|))
    else
      var selectors :- ParseSelectors(body[4..], body[0]);
      Ok(TrafficSelectors(selectors))
  }

  function SelectorListBytes(ss: seq<TrafficSelector>): Bytes {
    if ss == [] then [] else SelectorBytes(ss[0]) + SelectorListBytes(ss[1..])
  }

  function TsBytes(ts: TrafficSelectors): Bytes {
    [AsU8(|ts.selectors|), 0, 0, 0] + SelectorListBytes(ts.selectors)
  }

  predicate TsFits(ts: TrafficSelectors) {
    |ts.selectors| < 0x100 && forall i :: 0 <= i < |ts.selectors| ==> SelectorFits(ts.selectors[i])
  }

  lemma {:induction false} SelectorListRoundTrip(ss: seq<TrafficSelector>)
    requires forall i :: 0 <= i < |ss| ==> SelectorFits(ss[i])
    ensures ParseSelectors(SelectorListBytes(ss), |ss|) == Ok(ss)
  {
    hide SelectorFits, SelectorBytes, ParseSelector;
    if ss != [] {
      var rest := SelectorListBytes(ss[1..]);
      SelectorRoundTrip(ss[0], rest);
      SelectorListRoundTrip(ss[1..]);
      assert ss == [ss[0]] + ss[1..];
      assert SelectorListBytes(ss)[SelectorSize(ss[0])..] == rest;
    }
  }

  lemma TsRoundTrip(ts: TrafficSelectors)
    requires TsFits(ts)
    ensures ParseTs(TsBytes(ts)) == Ok(ts)
  {
    hide ParseSelectors, SelectorListBytes, SelectorFits;
    SelectorListRoundTrip(ts.selectors);
    assert TsBytes(ts)[4..] == SelectorListBytes(ts.selectors);
  }

  function FullTunnelTs(): Bytes {
    TsBytes(TrafficSelectors([Ipv4Any()]))
  }

  function HostTs(addr: Ipv4): Bytes {
    TsBytes(TrafficSelectors([Ipv4Host(addr)]))
  }

  lemma TsLengths(addr: Ipv4)
    ensures |FullTunnelTs()| == 20 && |HostTs(addr)| == 20
  {
    assert [Ipv4Any()][1..] == [] && [Ipv4Host(addr)][1..] == [];
  }

  /** What the two selectors the library sends mean: every IPv4 address, and one host; any protocol and port. */
  lemma SelectorsMean(addr: Ipv4)
    ensures ParseTs(FullTunnelTs())
      == Ok(TrafficSelectors([TrafficSelector(7, 0, 0, 65535, [0, 0, 0, 0], [255, 255, 255, 255])]))
    ensures ParseTs(HostTs(addr)) == Ok(TrafficSelectors([TrafficSelector(7, 0, 0, 65535, addr, addr)]))
  {
    hide ParseTs, TsBytes;
    TsRoundTrip(TrafficSelectors([Ipv4Any()]));
    TsRoundTrip(TrafficSelectors([Ipv4Host(addr)]));
  }

  // ----- configuration -----

  datatype ConfigAttr = ConfigAttr(attrType: U16, value: Bytes)
  datatype Configuration = Configuration(cfgType: Byte, attrs: seq<ConfigAttr>)

  const CFG_REPLY: Byte := 2
  const INTERNAL_IP4_ADDRESS: U16 := 1
  const INTERNAL_IP4_NETMASK: U16 := 2
  const INTERNAL_IP4_DNS: U16 := 3

  function ParseAttr(buf: Bytes): (r: Result<(ConfigAttr, nat)>)
    ensures r.Ok? ==> 4 <= r.value.1 <= |buf|
  {
    if |buf| < 4 then Err(Truncated(4, |buf|))
    else
      var len := GetU16(buf, 2);
      if 4 + len > |buf| then Err(BadLength(4 + len, |buf|))
      else Ok((ConfigAttr(GetU16(buf, 0) % 0x8000, buf[4..4 + len]), 4 + len))
  }

  function ParseAttrs(buf: Bytes): Result<seq<ConfigAttr>>
    decreases |buf|
  {
    if buf == [] then Ok([])
    else
      var (a, used) :- ParseAttr(buf);
      Prepend([a], ParseAttrs(buf[used..]))
  }

  function ParseCp(body: Bytes): Result<Configuration> {
    if |body| < 4 then Err(Truncated(4, |body|))
    else
      var attrs :- ParseAttrs(body[4..]);
      Ok(Configuration(body[0], attrs))
  }

  function AttrBytes(a: ConfigAttr): (b: Bytes)
    ensures |b| == 4 + |a.value|
  {
    U16Bytes(a.attrType % 0x8000) + U16Bytes(AsU16(|a.value|)) + a.value
  }

  function AttrListBytes(attrs: seq<ConfigAttr>): Bytes {
    if attrs == [] then [] else AttrBytes(attrs[0]) + AttrListBytes(attrs[1..])
  }

  function CpBytes(cp: Configuration): Bytes {
    [cp.cfgType, 0, 0, 0] + AttrListBytes(cp.attrs)
  }

  predicate AttrFits(a: ConfigAttr) {
    a.attrType < 0x8000 && |a.value| < 0x1_0000
  }

  predicate CpFits(cp: Configuration) {
    forall i :: 0 <= i < |cp.attrs| ==> AttrFits(cp.attrs[i])
  }

  lemma AttrRoundTrip(a: ConfigAttr, rest: Bytes)
    requires AttrFits(a)
    ensures ParseAttr(AttrBytes(a) + rest) == Ok((a, 4 + |a.value|))
  {
    hide U16Bytes, GetU16;
    var b := AttrBytes(a) + rest;
    assert b[0..2] == U16Bytes(a.attrType) && b[2..4] == U16Bytes(|a.value|) && b[4..4 + |a.value|] == a.value;
    U16At(b, 0, a.attrType);
    U16At(b, 2, |a.value|);
  }

  lemma {:induction false} AttrListRoundTrip(attrs: seq<ConfigAttr>)
    requires forall i :: 0 <= i < |attrs| ==> AttrFits(attrs[i])
    ensures ParseAttrs(AttrListBytes(attrs)) == Ok(attrs)
  {
    hide AttrFits, AttrBytes, ParseAttr;
    if attrs != [] {
      var rest := AttrListBytes(attrs[1..]);
      AttrRoundTrip(attrs[0], rest);
      AttrListRoundTrip(attrs[1..]);
      assert attrs == [attrs[0]] + attrs[1..];
      assert AttrListBytes(attrs)[4 + |attrs[0].value|..] == rest;
    }
  }

  lemma CpRoundTrip(cp: Configuration)
    requires CpFits(cp)
    ensures ParseCp(CpBytes(cp)) == Ok(cp)
  {
    hide ParseAttrs, AttrListBytes, AttrFits;
    AttrListRoundTrip(cp.attrs);
    assert CpBytes(cp)[4..] == AttrListBytes(cp.attrs);
  }

  /** The address of the first well-formed INTERNAL_IP4_ADDRESS attribute. */
  function AssignedIpv4(attrs: seq<ConfigAttr>): Option<Ipv4> {
    if attrs == [] then None
    else if attrs[0].attrType == INTERNAL_IP4_ADDRESS && |attrs[0].value| == 4 then Some(attrs[0].value)
    else AssignedIpv4(attrs[1..])
  }

  function OptionalAttr(attrType: U16, addr: Option<Ipv4>): seq<ConfigAttr> {
    match addr
    case Some(a) => [ConfigAttr(attrType, a)]
    case None => []
  }

  /** A CFG_REPLY: an address, and a netmask and a resolver when there are any. */
  function ReplyIpv4(addr: Ipv4, netmask: Option<Ipv4>, dns: Option<Ipv4>): Configuration {
    Configuration(CFG_REPLY,
      [ConfigAttr(INTERNAL_IP4_ADDRESS, addr)] + OptionalAttr(INTERNAL_IP4_NETMASK, netmask)
          + OptionalAttr(INTERNAL_IP4_DNS, dns))
  }

  lemma ReplyReads(addr: Ipv4, netmask: Option<Ipv4>, dns: Option<Ipv4>)
    ensures ParseCp(CpBytes(ReplyIpv4(addr, netmask, dns))) == Ok(ReplyIpv4(addr, netmask, dns))
    ensures AssignedIpv4(ReplyIpv4(addr, netmask, dns).attrs) == Some(addr)
  {
    hide ParseCp, CpBytes;
    CpRoundTrip(ReplyIpv4(addr, netmask, dns));
  }
}
