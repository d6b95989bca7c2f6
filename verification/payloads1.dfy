/**
 IKEv1 payload bodies (src/ikev1/payloads.rs): the SA tree of proposals,
 transforms and TV/TLV attributes, and the Identification payload.
 */
module Payloads1 {
  import opened Common
  import opened Framing
  import opened Isakmp

  const IPSEC_DOI: U32 := 1
  const SIT_IDENTITY_ONLY: U32 := 1

  const ATTR_ENCRYPTION: U16 := 1
  const ATTR_HASH: U16 := 2
  const ATTR_AUTH_METHOD: U16 := 3
  const ATTR_GROUP_DESC: U16 := 4
  const ATTR_LIFE_TYPE: U16 := 11
  const ATTR_LIFE_DURATION: U16 := 12
  const ATTR_KEY_LENGTH: U16 := 14

  const ENC_AES_CBC: U16 := 7
  const HASH_SHA1: U16 := 2
  const HASH_SHA2_256: U16 := 4
  const AUTH_PSK: U16 := 1
  const AUTH_XAUTH_INIT_PSK: U16 := 65001
  const PROTO_ISAKMP: Byte := 1
  const PROTO_ESP: Byte := 3
  const ID_IPV4_ADDR_SUBNET: Byte := 4

  // ----- attributes -----

  datatype AttrValue = Short(v: U16) | Long(data: Bytes)
  datatype Attribute = Attribute(attrType: U16, value: AttrValue)

  function LongU32(attrType: U16, v: U32): Attribute {
    Attribute(attrType, Long(U32Bytes(v)))
  }

  function ParseAttribute(b: Bytes): (r: Result<(Attribute, nat)>)
    ensures r.Ok? ==> 4 <= r.value.1 <= |b|
  {
    if |b| < 4 then Err(Truncated(4, |b|))
    else
      var typeAf, second := GetU16(b, 0), GetU16(b, 2);
      if typeAf >= 0x8000 then Ok((Attribute(typeAf % 0x8000, Short(second)), 4))
      else if 4 + second > |b| then Err(BadLength(4 + second, |b|))
      else Ok((Attribute(typeAf % 0x8000, Long(b[4..4 + second])), 4 + second))
  }

  function AttributeBytes(a: Attribute): (b: Bytes)
    ensures |b| == AttributeSize(a)
  {
    match a.value
    case Short(v) => U16Bytes(if a.attrType >= 0x8000 then a.attrType else a.attrType + 0x8000) + U16Bytes(v)
    case Long(d) => U16Bytes(a.attrType) + U16Bytes(AsU16(|d|)) + d
  }

  function AttributeSize(a: Attribute): nat {
    match a.value
    case Short(_) => 4
    case Long(d) => 4 + |d|
  }

  /** The type has 15 bits and a long value fits its length field. */
  predicate AttributeFits(a: Attribute) {
    a.attrType < 0x8000 && (a.value.Long? ==> |a.value.data| < 0x1_0000)
  }

  lemma AttributeRoundTrip(a: Attribute, rest: Bytes)
    requires AttributeFits(a)
    ensures ParseAttribute(AttributeBytes(a) + rest) == Ok((a, AttributeSize(a)))
  {
    hide U16Bytes, GetU16;
    var b := AttributeBytes(a) + rest;
    match a.value {
      case Short(v) =>
        assert b[0..2] == U16Bytes(a.attrType + 0x8000) && b[2..4] == U16Bytes(v);
        U16At(b, 0, a.attrType + 0x8000);
        U16At(b, 2, v);
      case Long(d) =>
        assert b[0..2] == U16Bytes(a.attrType) && b[2..4] == U16Bytes(|d|) && b[4..4 + |d|] == d;
        U16At(b, 0, a.attrType);
        U16At(b, 2, |d|);
    }
  }

  /** The value as 16 bits: the short form, or a long form of two octets. */
  function AttributeU16(a: Attribute): Option<U16> {
    match a.value
    case Short(v) => Some(v)
    case Long(d) => if |d| == 2 then Some(GetU16(d, 0)) else None
  }

  function ParseAttributes(b: Bytes): Result<seq<Attribute>>
    decreases |b|
  {
    if b == [] then Ok([])
    else
      var (a, used) :- ParseAttribute(b);
      Prepend([a], ParseAttributes(b[used..]))
  }

  /** The source's loop over a shrinking slice. */
  method ParseAttributeList(all: Bytes) returns (r: Result<seq<Attribute>>)
    ensures r == ParseAttributes(all)
  {
    hide ParseAttribute;
    var out: seq<Attribute>, b := [], all;
    PrependNothing(ParseAttributes(all));
    while b != []
      invariant ParseAttributes(all) == Prepend(out, ParseAttributes(b))
      decreases |b|
    {
      var one := ParseAttribute(b);
      if one.Err? {
        return Err(one.error);
      }
      PrependTwice(out, [one.value.0], ParseAttributes(b[one.value.1..]));
      out := out + [one.value.0];
      b := b[one.value.1..];
    }
    assert out + [] == out;
    return Ok(out);
  }

  function AttributesBytes(attrs: seq<Attribute>): Bytes {
    if attrs == [] then [] else AttributeBytes(attrs[0]) + AttributesBytes(attrs[1..])
  }

  lemma {:induction false} AttributesRoundTrip(attrs: seq<Attribute>)
    requires forall i :: 0 <= i < |attrs| ==> AttributeFits(attrs[i])
    ensures ParseAttributes(AttributesBytes(attrs)) == Ok(attrs)
  {
    hide ParseAttribute, AttributeBytes;
    if attrs != [] {
      var rest := AttributesBytes(attrs[1..]);
      AttributeRoundTrip(attrs[0], rest);
      AttributesRoundTrip(attrs[1..]);
      assert AttributesBytes(attrs)[AttributeSize(attrs[0])..] == rest;
      assert attrs == [attrs[0]] + attrs[1..];
    }
  }

  // ----- transforms -----

  datatype Transform = Transform(num: Byte, tid: Byte, attributes: seq<Attribute>)

  function ParseTransform(body: Bytes): Result<Transform> {
    if |body| < 4 then Err(Truncated(4, |body|))
    else
      var attrs :- ParseAttributes(body[4..]);
      Ok(Transform(body[0], body[1], attrs))
  }

  function TransformBytes(t: Transform): Bytes {
    [t.num, t.tid, 0, 0] + AttributesBytes(t.attributes)
  }

  predicate TransformFits(t: Transform) {
    (forall i :: 0 <= i < |t.attributes| ==> AttributeFits(t.attributes[i])) && FrameFits(TransformBytes(t))
  }

  lemma TransformRoundTrip(t: Transform)
    requires TransformFits(t)
    ensures ParseTransform(TransformBytes(t)) == Ok(t)
  {
    hide AttributesBytes, ParseAttributes;
    AttributesRoundTrip(t.attributes);
    assert TransformBytes(t)[4..] == AttributesBytes(t.attributes);
  }

  /** The 16-bit value of the first attribute of a type. */
  function Attr(attrs: seq<Attribute>, attrType: U16): Option<U16> {
    if attrs == [] then None
    else if attrs[0].attrType == attrType then AttributeU16(attrs[0])
    else Attr(attrs[1..], attrType)
  }

  lemma {:induction false} AttrAt(attrs: seq<Attribute>, attrType: U16, k: nat)
    requires k < |attrs| && attrs[k].attrType == attrType
    requires forall j :: 0 <= j < k ==> attrs[j].attrType != attrType
    ensures Attr(attrs, attrType) == AttributeU16(attrs[k])
  {
    if k > 0 {
      AttrAt(attrs[1..], attrType, k - 1);
    }
  }

  /** The attribute stands for the 16-bit number: in the short form, or as the two octets of a long one. */
  predicate StandsFor(a: Attribute, v: U16) {
    a.value == Short(v) || a.value == Long(U16Bytes(v))
  }

  /** The first attribute of the type stands for the number. */
  predicate Offers(attrs: seq<Attribute>, attrType: U16, v: U16) {
    exists k ::
      && 0 <= k < |attrs| && attrs[k].attrType == attrType && StandsFor(attrs[k], v)
      && forall j :: 0 <= j < k ==> attrs[j].attrType != attrType
  }

  lemma OctetsOf(d: Bytes, v: U16)
    ensures |d| == 2 ==> (GetU16(d, 0) == v <==> d == U16Bytes(v))
  {
    if |d| == 2 {
      assert GetU16(U16Bytes(v), 0) == v;
      assert d == [d[0], d[1]];
      assert U16Bytes(GetU16(d, 0)) == d;
    }
  }

  /** Looking up a type gives a number exactly when the attributes offer it. */
  lemma {:induction false} AttrExactly(attrs: seq<Attribute>, attrType: U16, v: U16)
    ensures Attr(attrs, attrType) == Some(v) <==> Offers(attrs, attrType, v)
  {
    hide GetU16, U16Bytes;
    if attrs != [] {
      var rest := attrs[1..];
      if attrs[0].attrType == attrType {
        if attrs[0].value.Long? {
          OctetsOf(attrs[0].value.data, v);
        }
      } else {
        AttrExactly(rest, attrType, v);
        OffersTail(attrs, attrType, v);
      }
    }
  }

  lemma OffersTail(attrs: seq<Attribute>, attrType: U16, v: U16)
    requires attrs != [] && attrs[0].attrType != attrType
    ensures Offers(attrs, attrType, v) <==> Offers(attrs[1..], attrType, v)
  {
    hide StandsFor;
    var rest := attrs[1..];
    if k :|
      && 0 <= k < |attrs| && attrs[k].attrType == attrType && StandsFor(attrs[k], v)
      && forall j :: 0 <= j < k ==> attrs[j].attrType != attrType {
      assert rest[k - 1] == attrs[k];
    }
    if k :|
      && 0 <= k < |rest| && rest[k].attrType == attrType && StandsFor(rest[k], v)
      && forall j :: 0 <= j < k ==> rest[j].attrType != attrType {
      assert attrs[k + 1] == rest[k];
    }
  }

  // ----- proposals -----

  datatype Proposal = Proposal(num: Byte, protocolId: Byte, spi: Bytes, transforms: seq<Transform>)

  function TransformsOf(ps: seq<Payload>): Result<seq<Transform>> {
    if ps == [] then Ok([])
    else
      var t :- ParseTransform(ps[0].data);
      Prepend([t], TransformsOf(ps[1..]))
  }

  function TransformPayloads(ts: seq<Transform>): (ps: seq<Payload>)
    ensures |ps| == |ts|
    ensures forall i :: 0 <= i < |ts| ==> ps[i] == Payload(P_TRANSFORM, TransformBytes(ts[i]))
  {
    seq(|ts|, i requires 0 <= i < |ts| => Payload(P_TRANSFORM, TransformBytes(ts[i])))
  }

  function ParseProposal(body: Bytes): Result<Proposal> {
    if |body| < 4 then Err(Truncated(4, |body|))
    else
      var spiSize := body[2];
      if 4 + spiSize > |body| then Err(BadLength(4 + spiSize, |body|))
      else
        var ps :- ParsePayloads(P_TRANSFORM, body[4 + spiSize..]);
        var ts :- TransformsOf(ps);
        Ok(Proposal(body[0], body[1], body[4..4 + spiSize], ts))
  }

  function ProposalBytes(p: Proposal): Bytes {
    [p.num, p.protocolId, AsU8(|p.spi|), AsU8(|p.transforms|)] + p.spi + Encode(TransformPayloads(p.transforms))
  }

  predicate ProposalFits(p: Proposal) {
    && |p.spi| < 0x100
    && (forall i :: 0 <= i < |p.transforms| ==> TransformFits(p.transforms[i]))
    && FrameFits(ProposalBytes(p))
  }

  lemma {:induction false} TransformsRoundTrip(ts: seq<Transform>)
    requires forall i :: 0 <= i < |ts| ==> TransformFits(ts[i])
    ensures TransformsOf(TransformPayloads(ts)) == Ok(ts)
  {
    hide TransformFits, TransformBytes, ParseTransform;
    if ts != [] {
      TransformRoundTrip(ts[0]);
      TransformsRoundTrip(ts[1..]);
      assert TransformPayloads(ts)[1..] == TransformPayloads(ts[1..]);
      assert ts == [ts[0]] + ts[1..];
    }
  }

  lemma ProposalReads(p: Proposal)
    requires |p.spi| < 0x100
    ensures var b := ProposalBytes(p);
      && |b| >= 4 + |p.spi| && b[0] == p.num && b[1] == p.protocolId && b[2] == |p.spi|
      && b[4..4 + |p.spi|] == p.spi && b[4 + |p.spi|..] == Encode(TransformPayloads(p.transforms))
  {
    hide Encode, TransformPayloads;
  }

  /**
   A proposal parses back exactly when it has a transform: an empty list prints as nothing, where a
   transform must follow.
   */
  lemma ProposalRoundTrip(p: Proposal)
    requires ProposalFits(p)
    ensures ParseProposal(ProposalBytes(p)) == if p.transforms == [] then Err(Truncated(4, 0)) else Ok(p)
  {
    hide TransformFits, TransformBytes, ParsePayloads, Encode, TransformsOf, ProposalBytes;
    var ps := TransformPayloads(p.transforms);
    ProposalReads(p);
    TransformsRoundTrip(p.transforms);
    if p.transforms == [] {
      EmptyList(P_TRANSFORM);
      assert ps == [];
    } else {
      forall i | 0 <= i < |ps| ensures PayloadOk(ps[i]) {
        TransformFramed(p.transforms[i]);
      }
      ChainRoundTrip(ps, []);
      assert Encode(ps) + [] == Encode(ps);
    }
  }

  lemma TransformFramed(t: Transform)
    requires TransformFits(t)
    ensures FrameFits(TransformBytes(t))
  {
  }

  lemma EmptyList(t: Byte)
    requires t != P_NONE
    ensures ParsePayloads(t, Encode([])) == Err(Truncated(4, 0))
  {
  }

  // ----- the SA payload -----

  datatype SaPayload = SaPayload(doi: U32, situation: U32, proposals: seq<Proposal>)

  function ProposalsOf(ps: seq<Payload>): Result<seq<Proposal>> {
    if ps == [] then Ok([])
    else
      var p :- ParseProposal(ps[0].data);
      Prepend([p], ProposalsOf(ps[1..]))
  }

  function ProposalPayloads(ps: seq<Proposal>): (r: seq<Payload>)
    ensures |r| == |ps|
    ensures forall i :: 0 <= i < |ps| ==> r[i] == Payload(P_PROPOSAL, ProposalBytes(ps[i]))
  {
    seq(|ps|, i requires 0 <= i < |ps| => Payload(P_PROPOSAL, ProposalBytes(ps[i])))
  }

  function ParseSa(body: Bytes): Result<SaPayload> {
    if |body| < 8 then Err(Truncated(8, |body|))
    else
      var ps :- ParsePayloads(P_PROPOSAL, body[8..]);
      var proposals :- ProposalsOf(ps);
      Ok(SaPayload(GetU32(body, 0), GetU32(body, 4), proposals))
  }

  function SaBytes(sa: SaPayload): Bytes {
    U32Bytes(sa.doi) + U32Bytes(sa.situation) + Encode(ProposalPayloads(sa.proposals))
  }

  predicate SaFits(sa: SaPayload) {
    forall i :: 0 <= i < |sa.proposals| ==> ProposalFits(sa.proposals[i])
  }

  /** Every list of the tree has an element. */
  predicate NonEmptyTree(sa: SaPayload) {
    sa.proposals != [] && AllHaveTransforms(sa.proposals)
  }

  predicate AllHaveTransforms(ps: seq<Proposal>) {
    forall i :: 0 <= i < |ps| ==> ps[i].transforms != []
  }

  lemma {:induction false} ProposalsRoundTrip(ps: seq<Proposal>)
    requires forall i :: 0 <= i < |ps| ==> ProposalFits(ps[i])
    ensures ProposalsOf(ProposalPayloads(ps)) == Ok(ps) <==> AllHaveTransforms(ps)
    ensures ProposalsOf(ProposalPayloads(ps)).Ok? ==> AllHaveTransforms(ps)
  {
    hide ProposalFits, ProposalBytes, ParseProposal;
    if ps != [] {
      ProposalRoundTrip(ps[0]);
      ProposalsRoundTrip(ps[1..]);
      assert ProposalPayloads(ps)[1..] == ProposalPayloads(ps[1..]);
      assert ps == [ps[0]] + ps[1..];
      assert AllHaveTransforms(ps) <==> ps[0].transforms != [] && AllHaveTransforms(ps[1..]);
    }
  }

  lemma ProposalFramed(p: Proposal)
    requires ProposalFits(p)
    ensures FrameFits(ProposalBytes(p))
  {
  }

  lemma SaReads(sa: SaPayload)
    ensures var b := SaBytes(sa);
      && |b| >= 8 && GetU32(b, 0) == sa.doi && GetU32(b, 4) == sa.situation
      && b[8..] == Encode(ProposalPayloads(sa.proposals))
  {
    hide Encode, ProposalPayloads;
    var b := SaBytes(sa);
    assert b[0..4] == U32Bytes(sa.doi) && b[4..8] == U32Bytes(sa.situation);
    U32At(b, 0, sa.doi);
    U32At(b, 4, sa.situation);
  }

  /** An SA tree whose parts fit their fields survives printing and parsing exactly when none of its lists is empty. */
  lemma SaRoundTrip(sa: SaPayload)
    requires SaFits(sa)
    ensures ParseSa(SaBytes(sa)) == Ok(sa) <==> NonEmptyTree(sa)
    ensures ParseSa(SaBytes(sa)).Ok? ==> NonEmptyTree(sa)
  {
    hide ProposalFits, ProposalBytes, ParsePayloads, Encode, ProposalsOf, SaBytes, AllHaveTransforms;
    var ps := ProposalPayloads(sa.proposals);
    SaReads(sa);
    ProposalsRoundTrip(sa.proposals);
    if ps == [] {
      EmptyList(P_PROPOSAL);
    } else {
      forall i | 0 <= i < |ps| ensures PayloadOk(ps[i]) {
        ProposalFramed(sa.proposals[i]);
      }
      ChainRoundTrip(ps, []);
      assert Encode(ps) + [] == Encode(ps);
    }
  }

  // ----- identification -----

  datatype Id = Id(idType: Byte, protocol: Byte, port: U16, data: Bytes)

  function ParseId(body: Bytes): Result<Id> {
    if |body| < 4 then Err(Truncated(4, |body|)) else Ok(Id(body[0], body[1], GetU16(body, 2), body[4..]))
  }

  function IdBytes(id: Id): (b: Bytes)
    ensures |b| == 4 + |id.data|
    ensures ParseId(b) == Ok(id)
  {
    var b := [id.idType, id.protocol] + U16Bytes(id.port) + id.data;
    assert b[2..4] == U16Bytes(id.port) && b[4..] == id.data;
    U16At(b, 2, id.port);
    b
  }
}
