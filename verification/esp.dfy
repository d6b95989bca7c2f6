/**
 Userspace ESP with AES-256-GCM (src/esp.rs): sealing under a sequence counter,
 opening, and the derivation of a CHILD SA.
 */
module EspTunnel {
  import opened Common
  import opened Primitives
  import opened KeySchedule
  import SaInit

  const MAX_SEQ: nat := 0xFFFF_FFFF

  /** One direction of a security association, as a value. */
  datatype Esp = Esp(spi: U32, key: Bytes, salt: Bytes, seqNo: U32)

  predicate WellKeyed(e: Esp) {
    |e.key| == 32 && |e.salt| == 4
  }

  function NewEsp(spi: U32, material: Bytes): (r: Result<Esp>)
    ensures r.Ok? <==> |material| == 36
    ensures r.Ok? ==> WellKeyed(r.value) && r.value.key + r.value.salt == material && r.value.seqNo == 0
  {
    if |material| != 36 then Err(CryptoError(BadChildKey))
    else
      assert material[..32] + material[32..] == material;
      Ok(Esp(spi, material[..32], material[32..], 0))
  }

  // ----- sealing -----

  function PadLen(inner: Bytes): (n: nat)
    ensures n < 4 && (|inner| + n + 2) % 4 == 0
  {
    (4 - (|inner| + 2) % 4) % 4
  }

  /** ESP padding counts 1, 2, 3, ... */
  function Padding(n: nat): (p: Bytes)
    requires n < 256
    ensures |p| == n
    ensures forall i :: 0 <= i < n ==> p[i] == i + 1
  {
    seq(n, i requires 0 <= i < n => i + 1)
  }

  function Plaintext(inner: Bytes, nextHeader: Byte): (p: Bytes)
    ensures |p| % 4 == 0
  {
    inner + Padding(PadLen(inner)) + [PadLen(inner), nextHeader]
  }

  function Aad(e: Esp, seqNo: U32): Bytes {
    U32Bytes(e.spi) + U32Bytes(seqNo)
  }

  /** The packet for one sequence number. */
  function Packet(c: Crypto, e: Esp, seqNo: U32, inner: Bytes, nextHeader: Byte): Bytes {
    Aad(e, seqNo) + U64Bytes(seqNo)
        + c.gcmSeal(e.key, e.salt + U64Bytes(seqNo), Aad(e, seqNo), Plaintext(inner, nextHeader))
  }

  function Seal(c: Crypto, e: Esp, inner: Bytes, nextHeader: Byte): (Esp, Result<Bytes>) {
    if e.seqNo == MAX_SEQ then (e, Err(CryptoError(SequenceExhausted)))
    else (e.(seqNo := e.seqNo + 1), Ok(Packet(c, e, e.seqNo + 1, inner, nextHeader)))
  }

  function Open(c: Crypto, e: Esp, packet: Bytes): Result<(Bytes, Byte)> {
    if |packet| < 32 then Err(Truncated(32, |packet|))
    else if GetU32(packet, 0) != e.spi then Err(CryptoError(SpiMismatch))
    else
      var p :- OkOr(c.gcmOpen(e.key, e.salt + packet[8..16], packet[0..8], packet[16..]), BadIntegrity);
      if |p| < 2 then Err(CryptoError(ShortTrailer))
      else
        var pad: nat := p[|p| - 2];
        if |p| < 2 + pad then Err(CryptoError(PadTooLong))
        else Ok((p[..|p| - 2 - pad], p[|p| - 1]))
  }

  /**
   What opens, exactly: at least 32 octets that start with our SPI, whose tag holds under our key, the
   nonce being our salt and octets 8 to 15 and the associated data octets 0 to 7, and whose trailer
   counts no more padding than there is. Another SPI and a failed tag have errors of their own.
   */
  lemma OpenExactly(c: Crypto, e: Esp, packet: Bytes)
    ensures Open(c, e, packet).Ok? <==>
      && |packet| >= 32 && GetU32(packet, 0) == e.spi
      && var p := c.gcmOpen(e.key, e.salt + packet[8..16], packet[..8], packet[16..]);
      && p.Some? && |p.value| >= 2 && p.value[|p.value| - 2] + 2 <= |p.value|
    ensures |packet| >= 32 && GetU32(packet, 0) != e.spi ==> Open(c, e, packet) == Err(CryptoError(SpiMismatch))
    ensures |packet| >= 32 && GetU32(packet, 0) == e.spi ==>
      (Open(c, e, packet) == Err(BadIntegrity) <==>
         c.gcmOpen(e.key, e.salt + packet[8..16], packet[..8], packet[16..]).None?)
  {
    if |packet| >= 32 {
      assert packet[0..8] == packet[..8];
    }
  }

  /** The mutable association of the source; only the counter ever changes. */
  class EspSa {
    const spi: U32
    const key: Bytes
    const salt: Bytes
    var seqNo: U32

    function State(): Esp
      reads this
    {
      Esp(spi, key, salt, seqNo)
    }

    constructor (e: Esp)
      ensures State() == e
    {
      spi, key, salt, seqNo := e.spi, e.key, e.salt, e.seqNo;
    }

    method SealPacket(c: Crypto, inner: Bytes, nextHeader: Byte) returns (r: Result<Bytes>)
      modifies this`seqNo
      ensures (State(), r) == Seal(c, old(State()), inner, nextHeader)
    {
      hide U32Bytes, U64Bytes;
      if seqNo == 0xFFFF_FFFF {
        return Err(CryptoError(SequenceExhausted));
      }
      seqNo := seqNo + 1;
      var iv := U64Bytes(seqNo);
      var pad := (4 - (|inner| + 2) % 4) % 4;
      var plaintext := inner;
      for i := 0 to pad
        invariant plaintext == inner + Padding(i)
      {
        assert Padding(i + 1) == Padding(i) + [i + 1];
        plaintext := plaintext + [i + 1];
      }
      plaintext := plaintext + [pad];
      plaintext := plaintext + [nextHeader];
      assert plaintext == Plaintext(inner, nextHeader);
      var aad := U32Bytes(spi) + U32Bytes(seqNo);
      var ctAndTag := c.gcmSeal(key, salt + iv, aad, plaintext);
      return Ok(aad + iv + ctAndTag);
    }
  }

  // ----- every run of sealing -----

  function SealRun(c: Crypto, e: Esp, packets: seq<(Bytes, Byte)>): seq<Result<Bytes>>
    decreases |packets|
  {
    if packets == [] then []
    else
      var (e', r) := Seal(c, e, packets[0].0, packets[0].1);
      [r] + SealRun(c, e', packets[1..])
  }

  /** The other end of the association: same SPI and keys, whatever its own counter. */
  predicate Mirrors(rx: Esp, tx: Esp) {
    rx.spi == tx.spi && rx.key == tx.key && rx.salt == tx.salt
  }

  lemma PacketLayout(c: Crypto, e: Esp, seqNo: U32, inner: Bytes, nextHeader: Byte)
    ensures var m := Packet(c, e, seqNo, inner, nextHeader);
      && |m| == 32 + |Plaintext(inner, nextHeader)|
      && GetU32(m, 0) == e.spi && GetU32(m, 4) == seqNo
      && m[0..8] == Aad(e, seqNo) && m[8..16] == U64Bytes(seqNo)
      && m[16..] == c.gcmSeal(e.key, e.salt + U64Bytes(seqNo), Aad(e, seqNo), Plaintext(inner, nextHeader))
  {
    hide Plaintext;
    var m := Packet(c, e, seqNo, inner, nextHeader);
    assert m[0..4] == U32Bytes(e.spi) && m[4..8] == U32Bytes(seqNo);
    U32At(m, 0, e.spi);
    U32At(m, 4, seqNo);
  }

  lemma TrailerReads(inner: Bytes, nextHeader: Byte)
    ensures var p := Plaintext(inner, nextHeader);
      && |p| >= 2 && p[|p| - 1] == nextHeader && p[|p| - 2] == PadLen(inner)
      && |p| >= 2 + PadLen(inner) && p[..|p| - 2 - PadLen(inner)] == inner
  {
  }

  /** What an association seals, its mirror opens: the same inner packet and next header. */
  lemma OpenPacket(c: Crypto, tx: Esp, rx: Esp, seqNo: U32, inner: Bytes, nextHeader: Byte)
    requires Mirrors(rx, tx)
    ensures Open(c, rx, Packet(c, tx, seqNo, inner, nextHeader)) == Ok((inner, nextHeader))
  {
    hide Packet, Plaintext, Aad;
    PacketLayout(c, tx, seqNo, inner, nextHeader);
    TrailerReads(inner, nextHeader);
  }

  lemma {:induction false} RunAt(c: Crypto, e: Esp, packets: seq<(Bytes, Byte)>, i: nat)
    requires i < |packets|
    ensures |SealRun(c, e, packets)| == |packets|
    ensures SealRun(c, e, packets)[i] ==
      if e.seqNo + i < MAX_SEQ then Ok(Packet(c, e, e.seqNo + i + 1, packets[i].0, packets[i].1))
      else Err(CryptoError(SequenceExhausted))
    decreases |packets|
  {
    hide Packet;
    var e' := Seal(c, e, packets[0].0, packets[0].1).0;
    if |packets| > 1 {
      RunAt(c, e', packets[1..], if i == 0 then 0 else i - 1);
    } else {
      assert SealRun(c, e', packets[1..]) == [];
    }
    if i > 0 {
      SamePacket(c, e, e', e.seqNo + i + 1, packets[i].0, packets[i].1);
    }
  }

  /** A packet depends on the association's counter only through its number. */
  lemma SamePacket(c: Crypto, e: Esp, e': Esp, seqNo: int, inner: Bytes, nextHeader: Byte)
    requires Mirrors(e, e')
    ensures 0 <= seqNo <= MAX_SEQ ==> Packet(c, e, seqNo, inner, nextHeader) == Packet(c, e', seqNo, inner, nextHeader)
  {
  }

  /** The GCM nonce of a packet: the association's salt and the explicit IV. */
  function NonceOf(e: Esp, packet: Bytes): Bytes {
    if |packet| < 16 then [] else e.salt + packet[8..16]
  }

  lemma NoncesDiffer(e: Esp, m: U64, n: U64)
    requires m != n
    ensures e.salt + U64Bytes(m) != e.salt + U64Bytes(n)
  {
    U64BytesInjective(m, n);
    assert (e.salt + U64Bytes(m))[|e.salt|..] == U64Bytes(m) && (e.salt + U64Bytes(n))[|e.salt|..] == U64Bytes(n);
  }

  /** Position `i` of a run of sealing on `e`. */
  ghost predicate SealedRight(c: Crypto, e: Esp, packets: seq<(Bytes, Byte)>, i: nat)
    requires i < |packets|
  {
    var rs := SealRun(c, e, packets);
    && i < |rs|
    && (rs[i].Ok? <==> e.seqNo + i + 1 <= MAX_SEQ)
    && (rs[i].Err? ==> rs[i].error == CryptoError(SequenceExhausted))
    && (rs[i].Ok? ==>
          var m := rs[i].value;
          && |m| >= 32 && (|m| - 32) % 4 == 0
          && GetU32(m, 0) == e.spi && GetU32(m, 4) == e.seqNo + i + 1
          && m[8..16] == U64Bytes(e.seqNo + i + 1)
          && forall rx :: Mirrors(rx, e) ==> Open(c, rx, m) == Ok(packets[i]))
  }

  lemma RunPosition(c: Crypto, e: Esp, packets: seq<(Bytes, Byte)>, i: nat)
    requires i < |packets|
    ensures SealedRight(c, e, packets, i)
  {
    hide SealRun, Packet, Open, Plaintext, Aad, U64Bytes, GetU32;
    RunAt(c, e, packets, i);
    if e.seqNo + i < MAX_SEQ {
      PacketLayout(c, e, e.seqNo + i + 1, packets[i].0, packets[i].1);
      assert |Plaintext(packets[i].0, packets[i].1)| % 4 == 0;
      forall rx | Mirrors(rx, e) ensures Open(c, rx, SealRun(c, e, packets)[i].value) == Ok(packets[i]) {
        OpenPacket(c, e, rx, e.seqNo + i + 1, packets[i].0, packets[i].1);
      }
    }
  }

  /**
   Every run of sealing: the packets carry consecutive sequence numbers, each opens
   at the mirrored association to exactly what was sealed, every plaintext is
   4-aligned, the GCM nonces are pairwise distinct, and once the counter is spent every
   later call fails without wrapping.
   */
  lemma EspRun(c: Crypto, e: Esp, packets: seq<(Bytes, Byte)>)
    ensures |SealRun(c, e, packets)| == |packets|
    ensures forall i :: 0 <= i < |packets| ==> SealedRight(c, e, packets, i)
    ensures forall i, j :: 0 <= i < j < |packets| ==>
      var a, b := SealRun(c, e, packets)[i], SealRun(c, e, packets)[j];
      a.Ok? && b.Ok? ==> NonceOf(e, a.value) != NonceOf(e, b.value)
  {
    hide SealRun, Open, SealedRight, NonceOf;
    if packets == [] {
      EmptyRun(c, e);
    } else {
      RunAt(c, e, packets, 0);
    }
    forall i | 0 <= i < |packets| ensures SealedRight(c, e, packets, i) {
      RunPosition(c, e, packets, i);
    }
    forall i, j | 0 <= i < j < |packets| && SealRun(c, e, packets)[i].Ok? && SealRun(c, e, packets)[j].Ok?
      ensures NonceOf(e, SealRun(c, e, packets)[i].value) != NonceOf(e, SealRun(c, e, packets)[j].value)
    {
      RunNonces(c, e, packets, i, j);
    }
  }

  /** The nonce of a sealed packet is the salt and its sequence number. */
  lemma NonceAt(c: Crypto, e: Esp, packets: seq<(Bytes, Byte)>, i: nat)
    requires i < |packets| == |SealRun(c, e, packets)| && SealRun(c, e, packets)[i].Ok?
    ensures e.seqNo + i + 1 <= MAX_SEQ
    ensures NonceOf(e, SealRun(c, e, packets)[i].value) == e.salt + U64Bytes(e.seqNo + i + 1)
  {
    hide SealRun, Open, U64Bytes;
    RunPosition(c, e, packets, i);
  }

  lemma RunNonces(c: Crypto, e: Esp, packets: seq<(Bytes, Byte)>, i: nat, j: nat)
    requires i < j < |packets| == |SealRun(c, e, packets)|
    requires SealRun(c, e, packets)[i].Ok? && SealRun(c, e, packets)[j].Ok?
    ensures NonceOf(e, SealRun(c, e, packets)[i].value) != NonceOf(e, SealRun(c, e, packets)[j].value)
  {
    hide SealRun, NonceOf, U64Bytes;
    NonceAt(c, e, packets, i);
    NonceAt(c, e, packets, j);
    NoncesDiffer(e, e.seqNo + i + 1, e.seqNo + j + 1);
  }

  lemma EmptyRun(c: Crypto, e: Esp)
    ensures SealRun(c, e, []) == []
  {
  }

  // ----- CHILD SA derivation -----

  datatype ChildSa = ChildSa(outbound: Esp, inbound: Esp)

  /** `ChildSa::derive`: 36 octets of key material for each direction. */
  function DeriveChild(c: Crypto, skD: Bytes, ni: Bytes, nr: Bytes, role: SaInit.Role, localSpi: U32,
                       peerSpi: U32): ChildSa {
    var k := DeriveChildKeys(c, skD, ni, nr, 36, 0);
    ChildKeysTileStream(c, skD, ni, nr, 36, 0);
    var (mine, theirs) := if role.Initiator? then (k.encrI, k.encrR) else (k.encrR, k.encrI);
    ChildSa(NewEsp(peerSpi, mine).value, NewEsp(localSpi, theirs).value)
  }

  /** Each end's outbound association is the other end's inbound one. */
  predicate Paired(a: ChildSa, b: ChildSa) {
    && a.outbound == b.inbound && b.outbound == a.inbound
    && WellKeyed(a.outbound) && WellKeyed(a.inbound) && a.outbound.seqNo == a.inbound.seqNo == 0
  }

  /** The 36 octets an association is keyed with. */
  function Material(e: Esp): Bytes {
    e.key + e.salt
  }

  /**
   Which key goes in which direction (section 2.17 of RFC 7296): the first 36 octets of the stream
   protect what the initiator sends and the next 36 what the responder sends; every packet goes out
   under the SPI of its receiver.
   */
  lemma ChildDirections(c: Crypto, skD: Bytes, ni: Bytes, nr: Bytes, role: SaInit.Role, localSpi: U32, peerSpi: U32)
    ensures var km, child := PrfPlus(c, skD, ni + nr, 72), DeriveChild(c, skD, ni, nr, role, localSpi, peerSpi);
      && Material(child.outbound) == (if role.Initiator? then km[..36] else km[36..])
      && Material(child.inbound) == (if role.Initiator? then km[36..] else km[..36])
      && child.outbound.spi == peerSpi && child.inbound.spi == localSpi
      && WellKeyed(child.outbound) && WellKeyed(child.inbound)
  {
    hide PrfPlus;
    var km := PrfPlus(c, skD, ni + nr, 72);
    assert km[36..72] == km[36..];
  }

  lemma ChildrenPair(c: Crypto, skD: Bytes, ni: Bytes, nr: Bytes, spiI: U32, spiR: U32)
    ensures Paired(DeriveChild(c, skD, ni, nr, SaInit.Initiator, spiI, spiR),
                   DeriveChild(c, skD, ni, nr, SaInit.Responder, spiR, spiI))
    ensures DeriveChild(c, skD, ni, nr, SaInit.Initiator, spiI, spiR).outbound.spi == spiR
    ensures DeriveChild(c, skD, ni, nr, SaInit.Initiator, spiI, spiR).inbound.spi == spiI
    ensures var km, child := PrfPlus(c, skD, ni + nr, 72), DeriveChild(c, skD, ni, nr, SaInit.Initiator, spiI, spiR);
      Material(child.outbound) == km[..36] && Material(child.inbound) == km[36..]
  {
    hide DeriveChildKeys, PrfPlus;
    ChildKeysTileStream(c, skD, ni, nr, 36, 0);
    ChildDirections(c, skD, ni, nr, SaInit.Initiator, spiI, spiR);
  }

  /** Two children with one key and one salt in each direction. */
  predicate SameKeys(a: ChildSa, b: ChildSa) {
    && a.outbound.key == b.outbound.key && a.outbound.salt == b.outbound.salt
    && a.inbound.key == b.inbound.key && a.inbound.salt == b.inbound.salt
  }

  /** The SPIs do not enter the keys: whatever they are, one SK_d and one pair of nonces give one set of keys. */
  lemma SpisDoNotKey(c: Crypto, skD: Bytes, ni: Bytes, nr: Bytes, role: SaInit.Role, localSpi: U32, peerSpi: U32,
                     localSpi': U32, peerSpi': U32)
    ensures SameKeys(DeriveChild(c, skD, ni, nr, role, localSpi, peerSpi),
                     DeriveChild(c, skD, ni, nr, role, localSpi', peerSpi'))
  {
    hide DeriveChildKeys, PrfPlus;
    ChildKeysTileStream(c, skD, ni, nr, 36, 0);
  }

  /** Of the packets `a` seals in a row, every one that the counter admits opens at `b` to what was sealed. */
  ghost predicate Flows(c: Crypto, a: ChildSa, b: ChildSa, packets: seq<(Bytes, Byte)>) {
    var rs := SealRun(c, a.outbound, packets);
    && |rs| == |packets|
    && forall i :: 0 <= i < |packets| && i < MAX_SEQ ==> rs[i].Ok? && Open(c, b.inbound, rs[i].value) == Ok(packets[i])
  }

  /** Over paired children, everything one end seals the other opens. */
  lemma PairedTraffic(c: Crypto, a: ChildSa, b: ChildSa, packets: seq<(Bytes, Byte)>)
    requires Paired(a, b)
    ensures Flows(c, a, b, packets)
  {
    hide SealRun, Open;
    EspRun(c, a.outbound, packets);
    forall i | 0 <= i < |packets| && i < MAX_SEQ
      ensures SealRun(c, a.outbound, packets)[i].Ok?
      ensures Open(c, b.inbound, SealRun(c, a.outbound, packets)[i].value) == Ok(packets[i])
    {
      assert SealedRight(c, a.outbound, packets, i);
      assert Mirrors(b.inbound, a.outbound);
    }
  }
}
