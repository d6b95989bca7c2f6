/**
 Encrypted IKEv1 messages (src/ikev1/phase2.rs): CBC under a chained IV, with a
 leading HASH payload.
 */
module Phase2 {
  import opened Common
  import opened Primitives
  import opened Isakmp
  import opened Crypto1

  /** The header the builders leave: first payload, ENCRYPTION flag and length overwritten. */
  function SealedHeader(h: IsakmpHeader, first: Byte, ctLen: nat): IsakmpHeader {
    h.(nextPayload := first, flags := WithEncryption(h.flags), length := AsU32(HEADER_LEN + ctLen))
  }

  /** Encrypt a payload list as it is; the second result is the IV for the next message. */
  function EncryptPayloads(c: Crypto, h: IsakmpHeader, encKey: Bytes, iv: Bytes,
                           ps: seq<Payload>): Result<(Bytes, Bytes)> {
    var ct :- CbcEncrypt(c, encKey, iv, PadToBlock(Encode(ps)));
    Ok((HeaderBytes(SealedHeader(h, FirstType(ps), |ct|)) + ct, NextIv(ct)))
  }

  /** prf(SKEYID_a, M-ID | prefix | payloads after HASH). */
  function MessageHash(c: Crypto, prf: Prf, skeyidA: Bytes, messageId: U32, prefix: Bytes,
                       after: seq<Payload>): (h: Bytes)
    ensures |h| == prf.OutputLen()
  {
    prf.Mac(c, skeyidA, U32Bytes(messageId) + prefix + Encode(after))
  }

  function BuildEncryptedPrefixed(c: Crypto, h: IsakmpHeader, prf: Prf, skeyidA: Bytes, encKey: Bytes, iv: Bytes,
                                  prefix: Bytes, after: seq<Payload>): Result<(Bytes, Bytes)> {
    EncryptPayloads(c, h, encKey, iv, Hashed(c, prf, skeyidA, h.messageId, prefix, after))
  }

  /** HASH first, then the payloads it covers. */
  function Hashed(c: Crypto, prf: Prf, skeyidA: Bytes, messageId: U32, prefix: Bytes,
                  after: seq<Payload>): seq<Payload> {
    [Payload(P_HASH, MessageHash(c, prf, skeyidA, messageId, prefix, after))] + after
  }

  function BuildEncrypted(c: Crypto, h: IsakmpHeader, prf: Prf, skeyidA: Bytes, encKey: Bytes, iv: Bytes,
                          after: seq<Payload>): Result<(Bytes, Bytes)> {
    BuildEncryptedPrefixed(c, h, prf, skeyidA, encKey, iv, [], after)
  }

  datatype Opened = Opened(header: IsakmpHeader, payloads: seq<Payload>, nextIv: Bytes)

  function DecryptPayloads(c: Crypto, data: Bytes, encKey: Bytes, iv: Bytes): Result<Opened> {
    var h :- ParseHeader(data);
    var plaintext :- CbcDecrypt(c, encKey, iv, data[HEADER_LEN..]);
    var ps :- ParsePayloads(h.nextPayload, plaintext);
    Ok(Opened(h, ps, NextIv(data[HEADER_LEN..])))
  }

  function ParseEncrypted(c: Crypto, data: Bytes, prf: Prf, skeyidA: Bytes, encKey: Bytes, iv: Bytes): Result<Opened> {
    var o :- DecryptPayloads(c, data, encKey, iv);
    var hash :- OkOr(Find(o.payloads, P_HASH), MissingPayload(MissHash));
    if hash != MessageHash(c, prf, skeyidA, o.header.messageId, [], Without(o.payloads, P_HASH)) then Err(AuthFailed)
    else Ok(o)
  }

  // ----- round trips -----

  /** A non-empty chain under usable keys: what the encrypted round trip needs. */
  predicate Encryptable(encKey: Bytes, iv: Bytes, ps: seq<Payload>) {
    |encKey| == 32 && |iv| == 16 && ps != [] && ChainOk(ps)
  }

  lemma EncodeNonEmpty(ps: seq<Payload>)
    requires ps != []
    ensures Encode(ps) != []
  {
  }

  /** The zero padding is a suffix after the last payload, which the parser ignores. */
  lemma PaddedChain(ps: seq<Payload>)
    requires ps != [] && ChainOk(ps)
    ensures PadToBlock(Encode(ps)) != [] && ParsePayloads(FirstType(ps), PadToBlock(Encode(ps))) == Ok(ps)
  {
    hide ParsePayloads, Encode;
    EncodeNonEmpty(ps);
    ChainRoundTrip(ps, PadBytes(|Encode(ps)|));
  }

  /**
   What one side encrypts the other decrypts: the same payloads and, on both sides, the same next IV,
   which is the last block of the message.
   */
  lemma EncryptedRoundTrip(c: Crypto, h: IsakmpHeader, encKey: Bytes, iv: Bytes, ps: seq<Payload>)
    requires Encryptable(encKey, iv, ps)
    ensures var m := EncryptPayloads(c, h, encKey, iv, ps);
      && m.Ok? && |m.value.1| == 16
      && |m.value.0| == HEADER_LEN + |PadToBlock(Encode(ps))| && m.value.1 == m.value.0[|m.value.0| - 16..]
      && DecryptPayloads(c, m.value.0, encKey, iv)
         == Ok(Opened(SealedHeader(h, FirstType(ps), |PadToBlock(Encode(ps))|), ps, m.value.1))
  {
    hide ParsePayloads, Encode, HeaderBytes, ParseHeader, CbcEncrypt, CbcDecrypt, PadToBlock;
    var plain := PadToBlock(Encode(ps));
    PaddedChain(ps);
    CbcRoundTrip(c, encKey, iv, plain);
    var ct := CbcEncrypt(c, encKey, iv, plain).value;
    var h' := SealedHeader(h, FirstType(ps), |ct|);
    HeaderRoundTrip(h', ct);
    assert (HeaderBytes(h') + ct)[HEADER_LEN..] == ct;
  }

  lemma HashedOk(c: Crypto, prf: Prf, skeyidA: Bytes, messageId: U32, prefix: Bytes, after: seq<Payload>)
    requires ChainOk(after)
    ensures ChainOk(Hashed(c, prf, skeyidA, messageId, prefix, after))
    ensures Hashed(c, prf, skeyidA, messageId, prefix, after) != []
  {
    hide MessageHash;
  }

  predicate NoHash(after: seq<Payload>) {
    forall i :: 0 <= i < |after| ==> after[i].ptype != P_HASH
  }

  /** The first HASH payload is the one put in front, and filtering drops it with any other. */
  lemma HashedFiltered(c: Crypto, prf: Prf, skeyidA: Bytes, messageId: U32, prefix: Bytes, after: seq<Payload>)
    ensures var ps := Hashed(c, prf, skeyidA, messageId, prefix, after);
      && Find(ps, P_HASH) == Some(MessageHash(c, prf, skeyidA, messageId, prefix, after))
      && Without(ps, P_HASH) == Without(after, P_HASH)
  {
    hide MessageHash;
    assert Hashed(c, prf, skeyidA, messageId, prefix, after)[1..] == after;
  }

  /** Dropping the HASH payload again leaves the payloads it covers. */
  lemma HashedFound(c: Crypto, prf: Prf, skeyidA: Bytes, messageId: U32, prefix: Bytes, after: seq<Payload>)
    requires NoHash(after)
    ensures var ps := Hashed(c, prf, skeyidA, messageId, prefix, after);
      && Find(ps, P_HASH) == Some(MessageHash(c, prf, skeyidA, messageId, prefix, after))
      && Without(ps, P_HASH) == after
  {
    hide MessageHash, Hashed, Find, Without;
    HashedFiltered(c, prf, skeyidA, messageId, prefix, after);
    WithoutNothing(after, P_HASH);
  }

  /**
   When a built message verifies, exactly and for every payload list: the receiver filters every HASH
   payload out before it re-encodes, so it accepts if and only if the list hashes like the list
   without its HASH payloads. On acceptance it has the payloads as sent and the sender's next IV.
   */
  lemma VerifiedExactly(c: Crypto, h: IsakmpHeader, prf: Prf, skeyidA: Bytes, encKey: Bytes, iv: Bytes,
                        after: seq<Payload>)
    requires |encKey| == 32 && |iv| == 16 && ChainOk(after)
    ensures var m := BuildEncrypted(c, h, prf, skeyidA, encKey, iv, after);
      && m.Ok? && |m.value.1| == 16
      && var o := ParseEncrypted(c, m.value.0, prf, skeyidA, encKey, iv);
      && (o.Ok? <==>
            MessageHash(c, prf, skeyidA, h.messageId, [], after)
            == MessageHash(c, prf, skeyidA, h.messageId, [], Without(after, P_HASH)))
      && (o.Err? ==> o.error == AuthFailed)
      && (o.Ok? ==>
            && o.value.nextIv == m.value.1
            && o.value.header.messageId == h.messageId && o.value.header.exchange == h.exchange
            && o.value.payloads == Hashed(c, prf, skeyidA, h.messageId, [], after))
  {
    hide EncryptPayloads, DecryptPayloads, Hashed, MessageHash, Find, Without, PadToBlock, Encode;
    HashedOk(c, prf, skeyidA, h.messageId, [], after);
    HashedFiltered(c, prf, skeyidA, h.messageId, [], after);
    EncryptedRoundTrip(c, h, encKey, iv, Hashed(c, prf, skeyidA, h.messageId, [], after));
  }

  /** The library's own lists have no HASH payload of their own, so every message built from them verifies. */
  lemma VerifiedRoundTrip(c: Crypto, h: IsakmpHeader, prf: Prf, skeyidA: Bytes, encKey: Bytes, iv: Bytes,
                          after: seq<Payload>)
    requires |encKey| == 32 && |iv| == 16 && ChainOk(after) && NoHash(after)
    ensures var m := BuildEncrypted(c, h, prf, skeyidA, encKey, iv, after);
      && m.Ok? && |m.value.1| == 16
      && var o := ParseEncrypted(c, m.value.0, prf, skeyidA, encKey, iv);
      && o.Ok? && o.value.nextIv == m.value.1
      && o.value.header.messageId == h.messageId && o.value.header.exchange == h.exchange
      && o.value.payloads == Hashed(c, prf, skeyidA, h.messageId, [], after)
  {
    hide BuildEncrypted, ParseEncrypted, Hashed, MessageHash, Without;
    VerifiedExactly(c, h, prf, skeyidA, encKey, iv, after);
    WithoutNothing(after, P_HASH);
  }
}
