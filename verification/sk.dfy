/**
 The Encrypted payload for AES-256-GCM (src/ikev2/sk.rs) and, over it, whole
 encrypted messages: a payload chain sealed by one side and walked by the other.
 */
module Sk {
  import opened Common
  import opened Primitives
  import opened Message

  const IV_LEN: nat := 8
  const ICV_LEN: nat := 16
  const SALT_LEN: nat := 4
  const AES256_KEY_LEN: nat := 32

  type Iv = iv: Bytes | |iv| == 8 witness [0, 0, 0, 0, 0, 0, 0, 0]

  /** A 36-octet `SK_e`: a 32-octet AES key and a 4-octet salt. */
  function SplitKey(skE: Bytes): Result<(Bytes, Bytes)> {
    if |skE| != AES256_KEY_LEN + SALT_LEN then Err(CryptoError(BadSkKey))
    else Ok((skE[..AES256_KEY_LEN], skE[AES256_KEY_LEN..]))
  }

  function GcmSeal(c: Crypto, skE: Bytes, iv: Iv, aad: Bytes, plaintext: Bytes): Result<Bytes> {
    var (key, salt) :- SplitKey(skE);
    Ok(c.gcmSeal(key, salt + iv, aad, plaintext))
  }

  function GcmOpen(c: Crypto, skE: Bytes, iv: Iv, aad: Bytes, ctAndTag: Bytes): Result<Bytes> {
    var (key, salt) :- SplitKey(skE);
    OkOr(c.gcmOpen(key, salt + iv, aad, ctAndTag), BadIntegrity)
  }

  lemma GcmRoundTrip(c: Crypto, skE: Bytes, iv: Iv, aad: Bytes, plaintext: Bytes)
    requires |skE| == 36
    ensures var sealed := GcmSeal(c, skE, iv, aad, plaintext);
      && sealed.Ok? && |sealed.value| == |plaintext| + 16
      && GcmOpen(c, skE, iv, aad, sealed.value) == Ok(plaintext)
  {
  }

  /** Drop the Pad Length octet and the padding it counts. */
  function StripPad(plaintext: Bytes): Result<Bytes> {
    if plaintext == [] then Err(CryptoError(EmptyPlaintext))
    else
      var pad := plaintext[|plaintext| - 1];
      if pad + 1 > |plaintext| then Err(CryptoError(PadTooLong))
      else Ok(plaintext[..|plaintext| - 1 - pad])
  }

  lemma StripNoPad(inner: Bytes)
    ensures StripPad(inner + [0]) == Ok(inner)
  {
  }

  function SkPayloadLen(inner: Bytes): nat {
    4 + IV_LEN + (|inner| + 1) + ICV_LEN
  }

  /** The header of an encrypted message, with the fields the builder overwrites. */
  function SkHeader(h: IkeHeader, inner: Bytes): IkeHeader {
    h.(nextPayload := PtSk, length := AsU32(HEADER_LEN + SkPayloadLen(inner)))
  }

  /** Everything before the IV: the associated data. */
  function SkAad(h: IkeHeader, first: PayloadType, inner: Bytes): (aad: Bytes)
    ensures |aad| == 32
  {
    HeaderBytes(SkHeader(h, inner)) + ([TypeToU8(first), 0] + U16Bytes(AsU16(SkPayloadLen(inner))))
  }

  function BuildEncryptedGcm(c: Crypto, h: IkeHeader, first: PayloadType, inner: Bytes, skE: Bytes,
                             iv: Iv): Result<Bytes> {
    var aad := SkAad(h, first, inner);
    var ctAndTag :- GcmSeal(c, skE, iv, aad, inner + [0]);
    Ok(aad + iv + ctAndTag)
  }

  function OpenEncryptedGcm(c: Crypto, message: Bytes, skE: Bytes): Result<(PayloadType, Bytes)> {
    var _ :- SplitKey(skE);
    var h :- ParseHeader(message);
    if h.nextPayload != PtSk then Err(MissingPayload(MissSk))
    else
      var body := message[HEADER_LEN..];
      if |body| < 4 then Err(Truncated(4, |body|))
      else
        var len := GetU16(body, 2);
        if len < 4 + IV_LEN + ICV_LEN || len > |body| then Err(BadLength(len, |body|))
        else
          var plaintext :- GcmOpen(c, skE, body[4..12], message[..HEADER_LEN + 4], body[12..len]);
          var inner :- StripPad(plaintext);
          Ok((TypeFromU8(body[0]), inner))
  }

  /**
   What opens, exactly, in terms of the octets of the message: the header announces an Encrypted
   payload, its length field covers IV and tag and no more than there is, the tag holds over the
   first 32 octets under the AES key and the salt followed by the IV, and the padding fits.
   */
  lemma OpenEncryptedExactly(c: Crypto, m: Bytes, skE: Bytes)
    ensures OpenEncryptedGcm(c, m, skE).Ok? <==>
      && |skE| == 36 && |m| >= 32 && m[16] == 46 && 28 <= GetU16(m, 30) <= |m| - 28
      && var p := c.gcmOpen(skE[..32], skE[32..] + m[32..40], m[..32], m[40..28 + GetU16(m, 30)]);
      && p.Some? && p.value != [] && p.value[|p.value| - 1] < |p.value|
    ensures OpenEncryptedGcm(c, m, skE).Ok? ==>
      var p := c.gcmOpen(skE[..32], skE[32..] + m[32..40], m[..32], m[40..28 + GetU16(m, 30)]).value;
      OpenEncryptedGcm(c, m, skE).value == (TypeFromU8(m[28]), p[..|p| - 1 - p[|p| - 1]])
  {
    hide GetU64, GetU32, ExchangeFromU8, FlagsFromU8;
    if |skE| == 36 && |m| >= 28 {
      var body := m[28..];
      HeaderType(m);
      if |body| >= 4 {
        assert GetU16(body, 2) == GetU16(m, 30);
        var len := GetU16(body, 2);
        if 28 <= len <= |body| {
          SliceOfTail(m, 28, 4, 12);
          SliceOfTail(m, 28, 12, len);
        }
      }
    }
  }

  lemma HeaderType(m: Bytes)
    requires |m| >= 28
    ensures ParseHeader(m).Ok? && (ParseHeader(m).value.nextPayload == PtSk <==> m[16] == 46)
  {
    hide GetU64, GetU32, ExchangeFromU8, FlagsFromU8;
  }

  /** The whole Encrypted payload fits its 16-bit length. */
  predicate SkFits(inner: Bytes) {
    SkPayloadLen(inner) < 0x1_0000
  }

  /** Where the parts of a built message stand. */
  lemma SkLayout(h: IkeHeader, first: PayloadType, inner: Bytes, iv: Iv, ct: Bytes)
    requires SkFits(inner)
    ensures var m := SkAad(h, first, inner) + iv + ct;
      && |m| == 40 + |ct|
      && m[..32] == SkAad(h, first, inner)
      && m[28] == TypeToU8(first)
      && GetU16(m[28..], 2) == SkPayloadLen(inner)
      && m[28..][4..12] == iv
      && m[28..][12..] == ct
  {
    hide HeaderBytes, TypeToU8;
    var m := SkAad(h, first, inner) + iv + ct;
    var gen := [TypeToU8(first), 0] + U16Bytes(AsU16(SkPayloadLen(inner)));
    assert m[28..] == gen + (iv + ct);
    U16At(m[28..], 2, SkPayloadLen(inner)) by {
      assert m[28..][2..4] == U16Bytes(AsU16(SkPayloadLen(inner)));
    }
    assert m[28] == m[28..][0];
  }

  lemma SkHeaderReads(h: IkeHeader, first: PayloadType, inner: Bytes, rest: Bytes)
    requires CanonicalHeader(h)
    ensures ParseHeader(SkAad(h, first, inner) + rest) == Ok(SkHeader(h, inner))
  {
    hide HeaderBytes, ParseHeader, TypeToU8;
    var gen := [TypeToU8(first), 0] + U16Bytes(AsU16(SkPayloadLen(inner)));
    HeaderRoundTrip(SkHeader(h, inner), gen + rest);
    assert SkAad(h, first, inner) + rest == HeaderBytes(SkHeader(h, inner)) + (gen + rest);
  }

  /** What one side builds, the other opens: the same first type and the same inner octets. */
  lemma SkRoundTrip(c: Crypto, h: IkeHeader, first: PayloadType, inner: Bytes, skE: Bytes, iv: Iv)
    requires |skE| == 36 && SkFits(inner) && CanonicalHeader(h) && CanonicalType(first)
    ensures var m := BuildEncryptedGcm(c, h, first, inner, skE, iv);
      && m.Ok? && |m.value| == HEADER_LEN + SkPayloadLen(inner)
      && ParseHeader(m.value) == Ok(SkHeader(h, inner))
      && OpenEncryptedGcm(c, m.value, skE) == Ok((first, inner))
  {
    hide HeaderBytes, ParseHeader, TypeToU8, TypeFromU8, SkAad, StripPad, GcmSeal, GcmOpen;
    var aad := SkAad(h, first, inner);
    GcmRoundTrip(c, skE, iv, aad, inner + [0]);
    var ct := GcmSeal(c, skE, iv, aad, inner + [0]).value;
    var m := aad + iv + ct;
    SkLayout(h, first, inner, iv, ct);
    SkHeaderReads(h, first, inner, iv + ct);
    assert m == aad + (iv + ct);
    StripNoPad(inner);
    TypeCodes(first);
    assert m[28..][12..SkPayloadLen(inner)] == ct;
  }

  // ----- whole encrypted messages -----

  /** Print a chain and seal it. */
  function SealChain(c: Crypto, h: IkeHeader, ps: seq<Payload>, skE: Bytes, iv: Iv): Result<Bytes> {
    BuildEncryptedGcm(c, h, FirstType(ps), EncodeChain(ps), skE, iv)
  }

  /** Open a message and walk its inner payloads. */
  function OpenWalk(c: Crypto, message: Bytes, skE: Bytes): Result<Walked> {
    var (first, inner) :- OpenEncryptedGcm(c, message, skE);
    Ok(Walk(first, inner))
  }

  /** The sizes and types under which a chain travels unchanged inside an Encrypted payload. */
  predicate Sealable(ps: seq<Payload>) {
    ChainSize(ps) + 29 < 0x1_0000 && forall i :: 0 <= i < |ps| ==> ps[i].ptype != PtNone && CanonicalType(ps[i].ptype)
  }

  lemma {:induction false} PartFits(ps: seq<Payload>, i: nat)
    requires i < |ps|
    ensures 4 + |ps[i].data| <= ChainSize(ps)
  {
    if i > 0 {
      PartFits(ps[1..], i - 1);
    }
  }

  /** The nested round trip: the chain one side prints and seals is the chain the other side walks. */
  lemma SealOpen(c: Crypto, h: IkeHeader, ps: seq<Payload>, skE: Bytes, iv: Iv)
    requires |skE| == 36 && CanonicalHeader(h) && Sealable(ps)
    ensures var m := SealChain(c, h, ps, skE, iv);
      && m.Ok?
      && ParseHeader(m.value) == Ok(SkHeader(h, EncodeChain(ps)))
      && OpenWalk(c, m.value, skE) == Ok(Walked(Raw(ps), None))
  {
    hide ParseHeader, BuildEncryptedGcm, OpenEncryptedGcm, Walk, Raw, EncodeChain, ChainSize, HeaderBytes;
    ChainLength(ps);
    forall i | 0 <= i < |ps| ensures PayloadOk(ps[i]) {
      PartFits(ps, i);
    }
    assert CanonicalType(FirstType(ps));
    SkRoundTrip(c, h, FirstType(ps), EncodeChain(ps), skE, iv);
    ChainRoundTrip(ps, []);
    assert EncodeChain(ps) + [] == EncodeChain(ps);
  }
}
