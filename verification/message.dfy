/**
 IKEv2 message framing (src/ikev2/message.rs): the 28-byte header and the
 generic payload chain.
 */
module Message {
  import opened Common
  import opened Framing

  datatype ExchangeType = ExSaInit | ExAuth | ExCreateChild | ExInformational | ExOther(value: Byte)

  datatype PayloadType =
    | PtNone | PtSa | PtKe | PtIdi | PtIdr | PtCert | PtCertReq | PtAuth | PtNonce | PtNotify
    | PtDelete | PtVendor | PtTsi | PtTsr | PtSk | PtCp | PtEap | PtSkf | PtOther(value: Byte)

  function ExchangeFromU8(v: Byte): ExchangeType {
    if v == 34 then ExSaInit else if v == 35 then ExAuth
    else if v == 36 then ExCreateChild else if v == 37 then ExInformational
    else ExOther(v)
  }

  function ExchangeToU8(x: ExchangeType): Byte {
    match x
    case ExSaInit => 34
    case ExAuth => 35
    case ExCreateChild => 36
    case ExInformational => 37
    case ExOther(v) => v
  }

  function TypeFromU8(v: Byte): PayloadType {
    if v == 0 then PtNone else if v == 33 then PtSa else if v == 34 then PtKe
    else if v == 35 then PtIdi else if v == 36 then PtIdr else if v == 37 then PtCert
    else if v == 38 then PtCertReq else if v == 39 then PtAuth else if v == 40 then PtNonce
    else if v == 41 then PtNotify else if v == 42 then PtDelete else if v == 43 then PtVendor
    else if v == 44 then PtTsi else if v == 45 then PtTsr else if v == 46 then PtSk
    else if v == 47 then PtCp else if v == 48 then PtEap else if v == 53 then PtSkf
    else PtOther(v)
  }

  function TypeToU8(t: PayloadType): Byte {
    match t
    case PtNone => 0
    case PtSa => 33
    case PtKe => 34
    case PtIdi => 35
    case PtIdr => 36
    case PtCert => 37
    case PtCertReq => 38
    case PtAuth => 39
    case PtNonce => 40
    case PtNotify => 41
    case PtDelete => 42
    case PtVendor => 43
    case PtTsi => 44
    case PtTsr => 45
    case PtSk => 46
    case PtCp => 47
    case PtEap => 48
    case PtSkf => 53
    case PtOther(v) => v
  }

  /** `Other(v)` only stands for codes that have no constructor of their own. */
  predicate CanonicalType(t: PayloadType) {
    t.PtOther? ==> !(t.value == 0 || 33 <= t.value <= 48 || t.value == 53)
  }

  predicate CanonicalExchange(x: ExchangeType) {
    x.ExOther? ==> !(34 <= x.value <= 37)
  }

  lemma TypeCodes(t: PayloadType)
    ensures TypeFromU8(TypeToU8(t)) == t <==> CanonicalType(t)
  {
  }

  lemma ExchangeCodes(x: ExchangeType)
    ensures ExchangeFromU8(ExchangeToU8(x)) == x <==> CanonicalExchange(x)
  {
  }

  datatype Flags = Flags(initiator: bool, version: bool, response: bool)

  function FlagsFromU8(v: Byte): Flags {
    Flags(v / 0x08 % 2 == 1, v / 0x10 % 2 == 1, v / 0x20 % 2 == 1)
  }

  function FlagsToU8(f: Flags): (v: Byte)
    ensures FlagsFromU8(v) == f
  {
    (if f.initiator then 0x08 else 0) + (if f.version then 0x10 else 0) + (if f.response then 0x20 else 0)
  }

  datatype IkeHeader = IkeHeader(
    initiatorSpi: U64, responderSpi: U64, nextPayload: PayloadType,
    major: Byte, minor: Byte, exchange: ExchangeType, flags: Flags,
    messageId: U32, length: U32)

  const HEADER_LEN: nat := 28

  function ParseHeader(b: Bytes): Result<IkeHeader> {
    if |b| < HEADER_LEN then Err(Truncated(HEADER_LEN, |b|))
    else Ok(IkeHeader(
      GetU64(b, 0), GetU64(b, 8), TypeFromU8(b[16]), b[17] / 16, b[17] % 16,
      ExchangeFromU8(b[18]), FlagsFromU8(b[19]), GetU32(b, 20), GetU32(b, 24)))
  }

  function HeaderBytes(h: IkeHeader): (b: Bytes)
    ensures |b| == HEADER_LEN
  {
    U64Bytes(h.initiatorSpi) + U64Bytes(h.responderSpi)
    + [TypeToU8(h.nextPayload), AsU8(h.major * 16) + h.minor % 16, ExchangeToU8(h.exchange), FlagsToU8(h.flags)]
    + U32Bytes(h.messageId) + U32Bytes(h.length)
  }

  predicate CanonicalHeader(h: IkeHeader) {
    CanonicalType(h.nextPayload) && CanonicalExchange(h.exchange) && h.major < 16 && h.minor < 16
  }

  lemma VersionNibbles(major: Byte, minor: Byte)
    ensures var v: Byte := AsU8(major * 16) + minor % 16; v / 16 == major % 16 && v % 16 == minor % 16
  {
    var v := AsU8(major * 16) + minor % 16;
    assert major * 16 == major / 16 * 256 + major % 16 * 16;
    assert AsU8(major * 16) == major % 16 * 16;
  }

  /** What parsing finds in a printed header, whatever follows it. */
  lemma HeaderFields(h: IkeHeader, rest: Bytes)
    ensures ParseHeader(HeaderBytes(h) + rest) == Ok(h.(
      nextPayload := TypeFromU8(TypeToU8(h.nextPayload)),
      exchange := ExchangeFromU8(ExchangeToU8(h.exchange)),
      major := h.major % 16, minor := h.minor % 16))
  {
    hide U64Bytes, U32Bytes, GetU64, GetU32, TypeFromU8, TypeToU8, ExchangeFromU8, ExchangeToU8, FlagsFromU8, FlagsToU8;
    var b := HeaderBytes(h) + rest;
    assert b[0..8] == U64Bytes(h.initiatorSpi);
    assert b[8..16] == U64Bytes(h.responderSpi);
    assert b[20..24] == U32Bytes(h.messageId);
    assert b[24..28] == U32Bytes(h.length);
    U64At(b, 0, h.initiatorSpi);
    U64At(b, 8, h.responderSpi);
    U32At(b, 20, h.messageId);
    U32At(b, 24, h.length);
    assert b[16..20] == [TypeToU8(h.nextPayload), AsU8(h.major * 16) + h.minor % 16, ExchangeToU8(h.exchange),
                         FlagsToU8(h.flags)];
    assert b[16] == b[16..20][0] && b[17] == b[16..20][1] && b[18] == b[16..20][2] && b[19] == b[16..20][3];
    VersionNibbles(h.major, h.minor);
  }

  /** A header survives printing and parsing exactly when it is canonical. */
  lemma HeaderRoundTrip(h: IkeHeader, rest: Bytes)
    ensures ParseHeader(HeaderBytes(h) + rest) == Ok(h) <==> CanonicalHeader(h)
  {
    hide HeaderBytes, ParseHeader, TypeFromU8, TypeToU8, ExchangeFromU8, ExchangeToU8;
    HeaderFields(h, rest);
    TypeCodes(h.nextPayload);
    ExchangeCodes(h.exchange);
  }

  // ----- the payload chain -----

  datatype Payload = Payload(ptype: PayloadType, data: Bytes)
  datatype RawPayload = RawPayload(ptype: PayloadType, critical: bool, data: Bytes)

  /** What iterating a body yields: the payloads in order, then possibly one error. */
  datatype Walked = Walked(items: seq<RawPayload>, error: Option<IkeError>)

  function Walk(next: PayloadType, rest: Bytes): (w: Walked)
    decreases |rest|
  {
    if next == PtNone then Walked([], None)
    else if |rest| < 4 then Walked([], Some(Truncated(4, |rest|)))
    else
      var length := GetU16(rest, 2);
      if length < 4 then Walked([], Some(ShortPayload(length)))
      else if length > |rest| then Walked([], Some(BadLength(length, |rest|)))
      else
        var tail := Walk(TypeFromU8(rest[0]), rest[length..]);
        Walked([RawPayload(next, rest[1] >= 0x80, rest[4..length])] + tail.items, tail.error)
  }

  /** The iterator object: `next`, `rest` and `done` as the source keeps them. */
  class PayloadIter {
    var next: PayloadType
    var rest: Bytes
    var done: bool

    /** Everything the iterator has still to yield. */
    ghost function Remaining(): Walked
      reads this
    {
      if done then Walked([], None) else Walk(next, rest)
    }

    constructor (first: PayloadType, body: Bytes)
      ensures Remaining() == Walk(first, body)
      ensures !done && rest == body
    {
      next, rest, done := first, body, false;
    }

    method Next() returns (item: Option<Result<RawPayload>>)
      modifies this
      ensures match item
        case None => old(Remaining()) == Walked([], None) && Remaining() == Walked([], None)
        case Some(Err(e)) => old(Remaining()) == Walked([], Some(e)) && Remaining() == Walked([], None)
        case Some(Ok(p)) =>
          && old(Remaining()) == Walked([p] + Remaining().items, Remaining().error)
          && |rest| < |old(rest)|
    {
      if done || next == PtNone {
        return None;
      }
      if |rest| < 4 {
        done := true;
        return Some(Err(Truncated(4, |rest|)));
      }
      var thisType, following, critical := next, TypeFromU8(rest[0]), rest[1] >= 0x80;
      var length := GetU16(rest, 2);
      if length < 4 {
        done := true;
        return Some(Err(ShortPayload(length)));
      }
      if length > |rest| {
        done := true;
        return Some(Err(BadLength(length, |rest|)));
      }
      var data := rest[4..length];
      rest := rest[length..];
      next := following;
      return Some(Ok(RawPayload(thisType, critical, data)));
    }
  }

  // ----- every walk tiles a prefix -----

  /** Octets taken by the first `k` payloads with their generic headers. */
  function Offset(items: seq<RawPayload>, k: nat): nat
    requires k <= |items|
  {
    if k == 0 then 0 else Offset(items, k - 1) + 4 + |items[k - 1].data|
  }

  /** Payload `k` is exactly what stands at its offset of `body`, typed by its predecessor. */
  predicate StandsAt(items: seq<RawPayload>, k: nat, first: PayloadType, body: Bytes)
    requires k < |items|
  {
    var o, p := Offset(items, k), items[k];
    && o + 4 + |p.data| <= |body|
    && GetU16(body, o + 2) == 4 + |p.data|
    && p.data == body[o + 4..o + 4 + |p.data|]
    && p.critical == (body[o + 1] >= 0x80)
    && p.ptype == TypeAt(items, k, first, body)
    && p.ptype != PtNone
  }

  /** The type announced for payload `k`: by the container, or by payload `k - 1`. */
  function TypeAt(items: seq<RawPayload>, k: nat, first: PayloadType, body: Bytes): PayloadType
    requires k <= |items|
  {
    if k == 0 || Offset(items, k - 1) >= |body| then first else TypeFromU8(body[Offset(items, k - 1)])
  }

  /** `whole` is one payload of `length` octets followed by the payloads of `tail`. */
  predicate Extends(whole: seq<RawPayload>, tail: seq<RawPayload>, length: nat) {
    |whole| == |tail| + 1 && whole[1..] == tail && length == 4 + |whole[0].data|
  }

  lemma {:induction false} OffsetTail(whole: seq<RawPayload>, tail: seq<RawPayload>, length: nat, k: nat)
    requires Extends(whole, tail, length) && 0 < k <= |whole|
    ensures Offset(whole, k) == length + Offset(tail, k - 1)
  {
    if k > 1 {
      OffsetTail(whole, tail, length, k - 1);
    }
  }

  lemma TypeAtTail(whole: seq<RawPayload>, tail: seq<RawPayload>, k: nat, first: PayloadType, body: Bytes, length: nat)
    requires 0 < k <= |whole| && Extends(whole, tail, length) && 4 <= length <= |body|
    requires k > 1 ==> Offset(tail, k - 2) < |body| - length
    ensures TypeAt(whole, k, first, body) == TypeAt(tail, k - 1, TypeFromU8(body[0]), body[length..])
  {
    hide TypeFromU8;
    if k > 1 {
      OffsetTail(whole, tail, length, k - 1);
    }
  }

  lemma StandsAtTail(whole: seq<RawPayload>, tail: seq<RawPayload>, k: nat, first: PayloadType, body: Bytes,
                     length: nat)
    requires 0 < k < |whole| && Extends(whole, tail, length) && 4 <= length <= |body|
    requires StandsAt(tail, k - 1, TypeFromU8(body[0]), body[length..])
    requires k > 1 ==> Offset(tail, k - 2) < |body| - length
    ensures StandsAt(whole, k, first, body)
  {
    hide TypeFromU8, TypeAt, Offset;
    OffsetTail(whole, tail, length, k);
    TypeAtTail(whole, tail, k, first, body, length);
    var o, n := Offset(tail, k - 1), |tail[k - 1].data|;
    assert body[length..][o + 4..o + 4 + n] == body[length + o + 4..length + o + 4 + n];
    assert whole[k] == tail[k - 1];
  }

  /**
   On every byte string, the payloads a walk yields tile a prefix of the body with
   no gap and no overlap, and the walk ends without an error exactly when the last
   of them announces "no next payload".
   */
  lemma {:induction false} WalkTiles(first: PayloadType, body: Bytes)
    ensures var w := Walk(first, body);
      && (forall k :: 0 <= k < |w.items| ==> StandsAt(w.items, k, first, body))
      && Offset(w.items, |w.items|) <= |body|
      && (w.error.None? <==> TypeAt(w.items, |w.items|, first, body) == PtNone)
    decreases |body|
  {
    hide TypeFromU8;
    if first != PtNone && |body| >= 4 && 4 <= GetU16(body, 2) <= |body| {
      var length := GetU16(body, 2);
      WalkTiles(TypeFromU8(body[0]), body[length..]);
      WalkTilesStep(first, body, length);
    }
  }

  lemma WalkTilesStep(first: PayloadType, body: Bytes, length: nat)
    requires first != PtNone && 4 <= length <= |body| && length == GetU16(body, 2)
    requires var t := Walk(TypeFromU8(body[0]), body[length..]);
      && (forall k :: 0 <= k < |t.items| ==> StandsAt(t.items, k, TypeFromU8(body[0]), body[length..]))
      && Offset(t.items, |t.items|) <= |body| - length
      && (t.error.None? <==> TypeAt(t.items, |t.items|, TypeFromU8(body[0]), body[length..]) == PtNone)
    ensures var w := Walk(first, body);
      && (forall k :: 0 <= k < |w.items| ==> StandsAt(w.items, k, first, body))
      && Offset(w.items, |w.items|) <= |body|
      && (w.error.None? <==> TypeAt(w.items, |w.items|, first, body) == PtNone)
  {
    hide TypeFromU8, Offset, TypeAt;
    var w, t := Walk(first, body), Walk(TypeFromU8(body[0]), body[length..]);
    var n := |w.items|;
    assert Extends(w.items, t.items, length);
    OffsetTail(w.items, t.items, length, n);
    assert n > 1 ==> StandsAt(t.items, n - 2, TypeFromU8(body[0]), body[length..]);
    TypeAtTail(w.items, t.items, n, first, body, length);
    forall k | 0 <= k < n ensures StandsAt(w.items, k, first, body) {
      if k == 0 {
        FirstStandsAt(first, body, length);
      } else {
        assert k > 1 ==> StandsAt(t.items, k - 2, TypeFromU8(body[0]), body[length..]);
        StandsAtTail(w.items, t.items, k, first, body, length);
      }
    }
  }

  lemma FirstStandsAt(first: PayloadType, body: Bytes, length: nat)
    requires first != PtNone && 4 <= length <= |body| && length == GetU16(body, 2)
    ensures StandsAt(Walk(first, body).items, 0, first, body)
  {
    hide TypeFromU8;
  }

  // ----- printing a chain -----

  function FirstType(ps: seq<Payload>): PayloadType {
    if ps == [] then PtNone else ps[0].ptype
  }

  function EncodeChain(ps: seq<Payload>): (b: Bytes) {
    if ps == [] then []
    else Frame(TypeToU8(FirstType(ps[1..])), ps[0].data) + EncodeChain(ps[1..])
  }

  /** The source's loop. */
  method EncodePayloadChain(ps: seq<Payload>) returns (chain: Bytes)
    ensures chain == EncodeChain(ps)
  {
    chain := [];
    for i := 0 to |ps|
      invariant chain + EncodeChain(ps[i..]) == EncodeChain(ps)
    {
      var next := if i + 1 < |ps| then ps[i + 1].ptype else PtNone;
      var frame := [TypeToU8(next), 0] + U16Bytes(AsU16(4 + |ps[i].data|)) + ps[i].data;
      assert ps[i..][1..] == ps[i + 1..];
      assert chain + (frame + EncodeChain(ps[i + 1..])) == (chain + frame) + EncodeChain(ps[i + 1..]);
      chain := chain + frame;
    }
    assert ps[|ps|..] == [];
  }

  function ChainSize(ps: seq<Payload>): nat {
    if ps == [] then 0 else 4 + |ps[0].data| + ChainSize(ps[1..])
  }

  lemma SizeCons(p: Payload, ps: seq<Payload>)
    ensures ChainSize([p] + ps) == 4 + |p.data| + ChainSize(ps)
  {
    assert ([p] + ps)[1..] == ps;
  }

  lemma Size4(a: Payload, b: Payload, d: Payload, e: Payload)
    ensures ChainSize([a, b, d, e]) == 16 + |a.data| + |b.data| + |d.data| + |e.data|
  {
    hide ChainSize;
    SizeCons(e, []);
    SizeCons(d, [e]);
    SizeCons(b, [d, e]);
    SizeCons(a, [b, d, e]);
    assert [e] + [] == [e] && [d] + [e] == [d, e] && [b] + [d, e] == [b, d, e] && [a] + [b, d, e] == [a, b, d, e];
    SizeNone();
  }

  lemma SizeNone()
    ensures ChainSize([]) == 0
  {
  }

  predicate PayloadOk(p: Payload) {
    p.ptype != PtNone && CanonicalType(p.ptype) && FrameFits(p.data)
  }

  /** A chain whose types are codes of their own and whose bodies fit their length fields. */
  predicate ChainOk(ps: seq<Payload>) {
    forall i :: 0 <= i < |ps| ==> PayloadOk(ps[i])
  }

  function Raw(ps: seq<Payload>): (r: seq<RawPayload>)
    ensures |r| == |ps|
    ensures forall i :: 0 <= i < |ps| ==> r[i] == RawPayload(ps[i].ptype, false, ps[i].data)
  {
    seq(|ps|, i requires 0 <= i < |ps| => RawPayload(ps[i].ptype, false, ps[i].data))
  }

  lemma {:induction false} ChainLength(ps: seq<Payload>)
    ensures |EncodeChain(ps)| == ChainSize(ps)
  {
    if ps != [] {
      ChainLength(ps[1..]);
    }
  }

  /** One step of a walk over a framed payload. */
  lemma WalkFrame(ptype: PayloadType, following: PayloadType, body: Bytes, rest: Bytes)
    requires ptype != PtNone && CanonicalType(following) && FrameFits(body)
    ensures var tail := Walk(following, rest);
      Walk(ptype, Frame(TypeToU8(following), body) + rest)
      == Walked([RawPayload(ptype, false, body)] + tail.items, tail.error)
  {
    ReadFrame(TypeToU8(following), body, rest);
    TypeCodes(following);
  }

  /** Walking a printed chain, whatever follows it, gives back the same payloads. */
  lemma {:induction false} ChainRoundTrip(ps: seq<Payload>, suffix: Bytes)
    requires ChainOk(ps)
    ensures Walk(FirstType(ps), EncodeChain(ps) + suffix) == Walked(Raw(ps), None)
  {
    if ps != [] {
      var following, rest := FirstType(ps[1..]), EncodeChain(ps[1..]) + suffix;
      assert PayloadOk(ps[0]) && (ps[1..] != [] ==> PayloadOk(ps[1]));
      WalkFrame(ps[0].ptype, following, ps[0].data, rest);
      ChainRoundTrip(ps[1..], suffix);
      assert EncodeChain(ps) + suffix == Frame(TypeToU8(following), ps[0].data) + rest;
      assert Raw(ps) == [RawPayload(ps[0].ptype, false, ps[0].data)] + Raw(ps[1..]);
    }
  }

  /** `MessageBuilder::build`. */
  function BuildMessage(h: IkeHeader, ps: seq<Payload>): Bytes {
    var chain := EncodeChain(ps);
    HeaderBytes(h.(nextPayload := FirstType(ps), length := AsU32(HEADER_LEN + |chain|))) + chain
  }

  /** A built message parses to its header and walks to its payloads. */
  lemma MessageRoundTrip(h: IkeHeader, ps: seq<Payload>)
    requires CanonicalHeader(h) && ChainOk(ps)
    ensures var m := BuildMessage(h, ps);
      && |m| == HEADER_LEN + ChainSize(ps)
      && ParseHeader(m) == Ok(h.(nextPayload := FirstType(ps), length := AsU32(|m|)))
      && Walk(FirstType(ps), m[HEADER_LEN..]) == Walked(Raw(ps), None)
  {
    hide HeaderBytes, ParseHeader, Walk, TypeFromU8, TypeToU8, EncodeChain, ChainSize, Raw;
    var chain := EncodeChain(ps);
    var filled := h.(nextPayload := FirstType(ps), length := AsU32(HEADER_LEN + |chain|));
    assert ps != [] ==> PayloadOk(ps[0]);
    HeaderRoundTrip(filled, chain);
    ChainLength(ps);
    ChainRoundTrip(ps, []);
    assert chain + [] == chain;
    assert BuildMessage(h, ps)[HEADER_LEN..] == chain;
  }

  // ----- looking payloads up -----

  /** The body of the first payload of a type: the source's `find`. */
  function Find(items: seq<RawPayload>, want: PayloadType): Option<Bytes> {
    if items == [] then None
    else if items[0].ptype == want then Some(items[0].data)
    else Find(items[1..], want)
  }

  lemma {:induction false} FindAt(items: seq<RawPayload>, want: PayloadType, k: nat)
    requires k < |items| && items[k].ptype == want
    requires forall j :: 0 <= j < k ==> items[j].ptype != want
    ensures Find(items, want) == Some(items[k].data)
  {
    if k > 0 {
      FindAt(items[1..], want, k - 1);
    }
  }

  lemma {:induction false} FindNone(items: seq<RawPayload>, want: PayloadType)
    requires forall j :: 0 <= j < |items| ==> items[j].ptype != want
    ensures Find(items, want) == None
  {
    if items != [] {
      FindNone(items[1..], want);
    }
  }

  /** The body of the last payload of a type: what a loop that overwrites a local ends with. */
  function FindLast(items: seq<RawPayload>, want: PayloadType): Option<Bytes> {
    if items == [] then None
    else if items[|items| - 1].ptype == want then Some(items[|items| - 1].data)
    else FindLast(items[..|items| - 1], want)
  }

  lemma {:induction false} FindLastAt(items: seq<RawPayload>, want: PayloadType, k: nat)
    requires k < |items| && items[k].ptype == want
    requires forall j :: k < j < |items| ==> items[j].ptype != want
    ensures FindLast(items, want) == Some(items[k].data)
  {
    if k < |items| - 1 {
      FindLastAt(items[..|items| - 1], want, k);
    }
  }
}
