/**
 ISAKMP message framing for IKEv1 (src/ikev1/isakmp.rs): the 28-byte header and
 the generic payload chain.
 */
module Isakmp {
  import opened Common
  import opened Framing

  const EX_AGGRESSIVE: Byte := 4
  const EX_QUICK: Byte := 32

  const P_NONE: Byte := 0
  const P_SA: Byte := 1
  const P_PROPOSAL: Byte := 2
  const P_TRANSFORM: Byte := 3
  const P_KE: Byte := 4
  const P_ID: Byte := 5
  const P_HASH: Byte := 8
  const P_NONCE: Byte := 10
  const P_VENDOR_ID: Byte := 13

  const VERSION_1_0: Byte := 0x10

  type Cookie = b: Bytes | |b| == 8 witness [0, 0, 0, 0, 0, 0, 0, 0]

  datatype IsakmpHeader = IsakmpHeader(
    initCookie: Cookie, respCookie: Cookie, nextPayload: Byte, version: Byte,
    exchange: Byte, flags: Byte, messageId: U32, length: U32)

  const HEADER_LEN: nat := 28

  function ParseHeader(b: Bytes): Result<IsakmpHeader> {
    if |b| < HEADER_LEN then Err(Truncated(HEADER_LEN, |b|))
    else Ok(IsakmpHeader(b[0..8], b[8..16], b[16], b[17], b[18], b[19], GetU32(b, 20), GetU32(b, 24)))
  }

  function HeaderBytes(h: IsakmpHeader): (b: Bytes)
    ensures |b| == HEADER_LEN
  {
    h.initCookie + h.respCookie + [h.nextPayload, h.version, h.exchange, h.flags] + U32Bytes(h.messageId)
        + U32Bytes(h.length)
  }

  /** Every header survives printing and parsing, whatever follows it. */
  lemma HeaderRoundTrip(h: IsakmpHeader, rest: Bytes)
    ensures ParseHeader(HeaderBytes(h) + rest) == Ok(h)
  {
    var b := HeaderBytes(h) + rest;
    assert b[0..8] == h.initCookie && b[8..16] == h.respCookie;
    assert b[16..20] == [h.nextPayload, h.version, h.exchange, h.flags];
    assert b[16] == b[16..20][0] && b[17] == b[16..20][1] && b[18] == b[16..20][2] && b[19] == b[16..20][3];
    assert b[20..24] == U32Bytes(h.messageId) && b[24..28] == U32Bytes(h.length);
    U32At(b, 20, h.messageId);
    U32At(b, 24, h.length);
  }

  /** The ENCRYPTION flag. */
  predicate Encrypted(h: IsakmpHeader) {
    h.flags % 2 == 1
  }

  function WithEncryption(flags: Byte): (f: Byte)
    ensures f % 2 == 1 && f / 2 == flags / 2
  {
    if flags % 2 == 1 then flags else flags + 1
  }

  // ----- the payload chain -----

  datatype Payload = Payload(ptype: Byte, data: Bytes)

  /** The payloads from offset `off` on, the first of which has type `next`. */
  function ParseFrom(next: Byte, body: Bytes, off: nat): Result<seq<Payload>>
    decreases |body| - off
  {
    if next == P_NONE then Ok([])
    else if off + 4 > |body| then Err(Truncated(off + 4, |body|))
    else
      var len := GetU16(body, off + 2);
      if len < 4 || off + len > |body| then Err(BadLength(len, |body| - off))
      else Prepend([Payload(next, body[off + 4..off + len])], ParseFrom(body[off], body, off + len))
  }

  function ParsePayloads(first: Byte, body: Bytes): Result<seq<Payload>> {
    ParseFrom(first, body, 0)
  }

  /** The source's loop on `next`, `off` and `out`. */
  method ParsePayloadsLoop(first: Byte, body: Bytes) returns (r: Result<seq<Payload>>)
    ensures r == ParsePayloads(first, body)
  {
    var out: seq<Payload>, next, off := [], first, 0;
    PrependNothing(ParseFrom(first, body, 0));
    while next != P_NONE
      invariant 0 <= off <= |body|
      invariant ParseFrom(first, body, 0) == Prepend(out, ParseFrom(next, body, off))
      decreases |body| - off
    {
      if off + 4 > |body| {
        return Err(Truncated(off + 4, |body|));
      }
      var thisNext, len := body[off], GetU16(body, off + 2);
      if len < 4 || off + len > |body| {
        return Err(BadLength(len, |body| - off));
      }
      PrependTwice(out, [Payload(next, body[off + 4..off + len])], ParseFrom(thisNext, body, off + len));
      out := out + [Payload(next, body[off + 4..off + len])];
      next := thisNext;
      off := off + len;
    }
    assert out + [] == out;
    return Ok(out);
  }

  function FirstType(ps: seq<Payload>): Byte {
    if ps == [] then P_NONE else ps[0].ptype
  }

  function Encode(ps: seq<Payload>): Bytes {
    if ps == [] then [] else Frame(FirstType(ps[1..]), ps[0].data) + Encode(ps[1..])
  }

  /** The source's loop. */
  method EncodePayloads(ps: seq<Payload>) returns (first: Byte, out: Bytes)
    ensures first == FirstType(ps) && out == Encode(ps)
  {
    if ps == [] {
      return P_NONE, [];
    }
    hide Encode;
    first, out := ps[0].ptype, [];
    assert ps[0..] == ps && [] + Encode(ps) == Encode(ps);
    for i := 0 to |ps|
      invariant out + Encode(ps[i..]) == Encode(ps)
    {
      var next := if i + 1 < |ps| then ps[i + 1].ptype else P_NONE;
      var frame := [next, 0] + U16Bytes(AsU16(4 + |ps[i].data|)) + ps[i].data;
      EncodeAt(ps, i);
      Associates(out, frame, Encode(ps[i + 1..]));
      out := out + frame;
    }
    assert ps[|ps|..] == [];
    EncodeNothing();
  }

  lemma EncodeAt(ps: seq<Payload>, i: nat)
    requires i < |ps|
    ensures Encode(ps[i..]) == Frame(if i + 1 < |ps| then ps[i + 1].ptype else P_NONE, ps[i].data) + Encode(ps[i + 1..])
  {
    hide Frame;
    assert ps[i..][1..] == ps[i + 1..];
  }

  lemma EncodeNothing()
    ensures Encode([]) == []
    ensures forall b: Bytes {:trigger b + Encode([])} :: b + Encode([]) == b
  {
  }

  lemma Associates(a: Bytes, b: Bytes, d: Bytes)
    ensures a + (b + d) == a + b + d
  {
  }

  predicate PayloadOk(p: Payload) {
    p.ptype != P_NONE && FrameFits(p.data)
  }

  predicate ChainOk(ps: seq<Payload>) {
    forall i :: 0 <= i < |ps| ==> PayloadOk(ps[i])
  }

  /** Reading past a prefix. */
  lemma ReadPast(prefix: Bytes, m: Bytes, n: nat)
    requires 4 <= n <= |m|
    ensures var body := prefix + m;
      && body[|prefix|] == m[0] && GetU16(body, |prefix| + 2) == GetU16(m, 2)
      && body[|prefix| + 4..|prefix| + n] == m[4..n]
  {
  }

  /** One turn of the parser over a framed payload. */
  lemma ParseFrame(ptype: Byte, following: Byte, data: Bytes, prefix: Bytes, rest: Bytes)
    requires ptype != P_NONE && FrameFits(data)
    ensures var body := prefix + (Frame(following, data) + rest);
      ParseFrom(ptype, body, |prefix|)
          == Prepend([Payload(ptype, data)], ParseFrom(following, body, |prefix| + 4 + |data|))
  {
    hide Frame;
    var m := Frame(following, data) + rest;
    ReadFrame(following, data, rest);
    hide GetU16;
    ReadPast(prefix, m, 4 + |data|);
  }

  lemma {:induction false} ChainRoundTripAt(ps: seq<Payload>, prefix: Bytes, suffix: Bytes)
    requires ChainOk(ps)
    ensures ParseFrom(FirstType(ps), prefix + (Encode(ps) + suffix), |prefix|) == Ok(ps)
    decreases |ps|
  {
    hide Frame, FrameFits, ParseFrom;
    if ps == [] {
      NothingToParse(prefix + (Encode(ps) + suffix), |prefix|);
    } else {
      assert PayloadOk(ps[0]);
      var f, rest := Frame(FirstType(ps[1..]), ps[0].data), Encode(ps[1..]);
      ParseFrame(ps[0].ptype, FirstType(ps[1..]), ps[0].data, prefix, rest + suffix);
      ChainRoundTripAt(ps[1..], prefix + f, suffix);
      Associates(f, rest, suffix);
      Associates(prefix, f, rest + suffix);
      assert ps == [ps[0]] + ps[1..];
    }
  }

  lemma NothingToParse(body: Bytes, off: nat)
    ensures ParseFrom(P_NONE, body, off) == Ok([])
  {
  }

  /** Parsing a printed chain gives it back, and ignores whatever follows the last payload. */
  lemma ChainRoundTrip(ps: seq<Payload>, suffix: Bytes)
    requires ChainOk(ps)
    ensures ParsePayloads(FirstType(ps), Encode(ps) + suffix) == Ok(ps)
  {
    hide Encode, ParseFrom;
    ChainRoundTripAt(ps, [], suffix);
    assert [] + (Encode(ps) + suffix) == Encode(ps) + suffix;
  }

  /** What `build_message` writes; it overwrites two fields of the header it is given. */
  function BuildMessage(h: IsakmpHeader, ps: seq<Payload>): Bytes {
    HeaderBytes(h.(nextPayload := FirstType(ps), length := AsU32(HEADER_LEN + |Encode(ps)|))) + Encode(ps)
  }

  lemma MessageRoundTrip(h: IsakmpHeader, ps: seq<Payload>)
    requires ChainOk(ps)
    ensures var m := BuildMessage(h, ps);
      && |m| >= HEADER_LEN
      && ParseHeader(m) == Ok(h.(nextPayload := FirstType(ps), length := AsU32(|m|)))
      && ParsePayloads(FirstType(ps), m[HEADER_LEN..]) == Ok(ps)
  {
    hide HeaderBytes, ParseHeader, ParsePayloads, Encode;
    HeaderRoundTrip(h.(nextPayload := FirstType(ps), length := AsU32(HEADER_LEN + |Encode(ps)|)), Encode(ps));
    ChainRoundTrip(ps, []);
    assert Encode(ps) + [] == Encode(ps);
    assert BuildMessage(h, ps)[HEADER_LEN..] == Encode(ps);
  }

  // ----- looking payloads up -----

  function Find(ps: seq<Payload>, want: Byte): Option<Bytes> {
    if ps == [] then None else if ps[0].ptype == want then Some(ps[0].data) else Find(ps[1..], want)
  }

  lemma {:induction false} FindAt(ps: seq<Payload>, want: Byte, k: nat)
    requires k < |ps| && ps[k].ptype == want
    requires forall j :: 0 <= j < k ==> ps[j].ptype != want
    ensures Find(ps, want) == Some(ps[k].data)
  {
    if k > 0 {
      FindAt(ps[1..], want, k - 1);
    }
  }

  lemma {:induction false} FindNone(ps: seq<Payload>, want: Byte)
    requires forall i :: 0 <= i < |ps| ==> ps[i].ptype != want
    ensures Find(ps, want) == None
  {
    if ps != [] {
      FindNone(ps[1..], want);
    }
  }

  /** The payloads of other types than `t`, in order. */
  function Without(ps: seq<Payload>, t: Byte): seq<Payload> {
    if ps == [] then [] else if ps[0].ptype == t then Without(ps[1..], t) else [ps[0]] + Without(ps[1..], t)
  }

  lemma {:induction false} WithoutNothing(ps: seq<Payload>, t: Byte)
    requires forall i :: 0 <= i < |ps| ==> ps[i].ptype != t
    ensures Without(ps, t) == ps
  {
    if ps != [] {
      WithoutNothing(ps[1..], t);
      assert ps == [ps[0]] + ps[1..];
    }
  }

  /** The payloads of type `t`, in order. */
  function Only(ps: seq<Payload>, t: Byte): (r: seq<Payload>)
    ensures forall i :: 0 <= i < |r| ==> r[i].ptype == t && r[i] in ps
  {
    if ps == [] then [] else if ps[0].ptype == t then [ps[0]] + Only(ps[1..], t) else Only(ps[1..], t)
  }
}
