/**
 Chains of typed payloads: every list of bodies, printed, sealed in an Encrypted
 payload, opened, walked and parsed, comes back unchanged.
 */
module TypedChain {
  import opened Common
  import opened Primitives
  import opened Message
  import opened Sk
  import opened PayloadBodies

  datatype Typed =
    | TypedSa(sa: SecurityAssociation)
    | TypedKe(ke: KeyExchange)
    | TypedNonce(nonce: Bytes)
    | TypedIdi(idi: Identification)
    | TypedIdr(idr: Identification)
    | TypedAuth(auth: Authentication)
    | TypedNotify(notify: Notify)
    | TypedTsi(tsi: TrafficSelectors)
    | TypedTsr(tsr: TrafficSelectors)
    | TypedCp(cp: Configuration)

  function Print(t: Typed): Payload {
    match t
    case TypedSa(sa) => Payload(PtSa, SaBytes(sa))
    case TypedKe(ke) => Payload(PtKe, KeBytes(ke))
    case TypedNonce(n) => Payload(PtNonce, n)
    case TypedIdi(id) => Payload(PtIdi, IdBytes(id))
    case TypedIdr(id) => Payload(PtIdr, IdBytes(id))
    case TypedAuth(a) => Payload(PtAuth, AuthBytes(a))
    case TypedNotify(n) => Payload(PtNotify, NotifyBytes(n))
    case TypedTsi(ts) => Payload(PtTsi, TsBytes(ts))
    case TypedTsr(ts) => Payload(PtTsr, TsBytes(ts))
    case TypedCp(cp) => Payload(PtCp, CpBytes(cp))
  }

  /** Parse a walked payload by its type; types without a typed body give nothing. */
  function Read(p: RawPayload): Option<Typed> {
    match p.ptype
    case PtSa => (match ParseSa(p.data) case Ok(v) => Some(TypedSa(v)) case Err(_) => None)
    case PtKe => (match ParseKe(p.data) case Ok(v) => Some(TypedKe(v)) case Err(_) => None)
    case PtNonce => Some(TypedNonce(p.data))
    case PtIdi => (match ParseId(p.data) case Ok(v) => Some(TypedIdi(v)) case Err(_) => None)
    case PtIdr => (match ParseId(p.data) case Ok(v) => Some(TypedIdr(v)) case Err(_) => None)
    case PtAuth => (match ParseAuth(p.data) case Ok(v) => Some(TypedAuth(v)) case Err(_) => None)
    case PtNotify => (match ParseNotify(p.data) case Ok(v) => Some(TypedNotify(v)) case Err(_) => None)
    case PtTsi => (match ParseTs(p.data) case Ok(v) => Some(TypedTsi(v)) case Err(_) => None)
    case PtTsr => (match ParseTs(p.data) case Ok(v) => Some(TypedTsr(v)) case Err(_) => None)
    case PtCp => (match ParseCp(p.data) case Ok(v) => Some(TypedCp(v)) case Err(_) => None)
    case _ => None
  }

  /** The inner length and count fields of a body fit. */
  predicate Fits(t: Typed) {
    match t
    case TypedSa(sa) => SaFits(sa)
    case TypedNotify(n) => |n.spi| < 0x100
    case TypedTsi(ts) => TsFits(ts)
    case TypedTsr(ts) => TsFits(ts)
    case TypedCp(cp) => CpFits(cp)
    case _ => true
  }

  function PrintAll(ts: seq<Typed>): (ps: seq<Payload>)
    ensures |ps| == |ts|
    ensures forall i :: 0 <= i < |ts| ==> ps[i] == Print(ts[i])
  {
    seq(|ts|, i requires 0 <= i < |ts| => Print(ts[i]))
  }

  function ReadAll(items: seq<RawPayload>): seq<Option<Typed>> {
    seq(|items|, i requires 0 <= i < |items| => Read(items[i]))
  }

  lemma ReadPrint(t: Typed, critical: bool)
    requires Fits(t)
    ensures Read(RawPayload(Print(t).ptype, critical, Print(t).data)) == Some(t)
  {
    hide ParseSa, ParseKe, ParseId, ParseAuth, ParseNotify, ParseTs, ParseCp, SaFits, TsFits, CpFits;
    match t
    case TypedSa(sa) => SaRoundTrip(sa);
    case TypedNotify(n) => NotifyRoundTrip(n);
    case TypedTsi(ts) => TsRoundTrip(ts);
    case TypedTsr(ts) => TsRoundTrip(ts);
    case TypedCp(cp) => CpRoundTrip(cp);
    case _ =>
  }

  /** The whole stack, for every list of typed payloads that fits one message. */
  lemma TypedRoundTrip(c: Crypto, h: IkeHeader, ts: seq<Typed>, skE: Bytes, iv: Iv)
    requires |skE| == 36 && CanonicalHeader(h)
    requires forall i :: 0 <= i < |ts| ==> Fits(ts[i])
    requires ChainSize(PrintAll(ts)) + 29 < 0x1_0000
    ensures var m := SealChain(c, h, PrintAll(ts), skE, iv);
      && m.Ok?
      && var w := OpenWalk(c, m.value, skE);
      && w.Ok? && w.value.error.None?
      && ReadAll(w.value.items) == seq(|ts|, i requires 0 <= i < |ts| => Some(ts[i]))
  {
    hide SealChain, OpenWalk, ChainSize, Fits, Print, Read, ParseHeader, CanonicalHeader;
    var ps := PrintAll(ts);
    forall i | 0 <= i < |ps| ensures ps[i].ptype != PtNone && CanonicalType(ps[i].ptype) {
      PrintedType(ts[i]);
    }
    SealOpen(c, h, ps, skE, iv);
    forall i | 0 <= i < |ts| ensures Read(Raw(ps)[i]) == Some(ts[i]) {
      ReadPrint(ts[i], false);
    }
  }

  lemma PrintedType(t: Typed)
    ensures Print(t).ptype != PtNone && CanonicalType(Print(t).ptype)
  {
  }
}
