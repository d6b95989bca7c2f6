/**
 The IKEv1 key schedule and CBC encryption (src/ikev1/crypto1.rs; section 5 and
 Appendix B of RFC 2409).
 */
module Crypto1 {
  import opened Common
  import opened Primitives

  const AES_BLOCK: nat := 16

  datatype Prf = Sha1 | Sha256 {
    function OutputLen(): (n: nat)
      ensures n == 20 || n == 32
    {
      match this
      case Sha1 => 20
      case Sha256 => 32
    }

    function Mac(c: Crypto, key: Bytes, data: Bytes): (mac: Bytes)
      ensures |mac| == OutputLen()
    {
      match this
      case Sha1 => c.hmacSha1(key, data)
      case Sha256 => c.hmacSha256(key, data)
    }

    function Hash(c: Crypto, data: Bytes): (digest: Bytes)
      ensures |digest| == OutputLen()
    {
      match this
      case Sha1 => c.sha1(data)
      case Sha256 => c.sha256(data)
    }
  }

  // ----- the SKEYID chain -----

  datatype Skeyids = Skeyids(skeyid: Bytes, d: Bytes, a: Bytes, e: Bytes)

  /** SKEYID for a pre-shared key, and from it SKEYID_d, SKEYID_a and SKEYID_e under the counters 0, 1 and 2. */
  function DeriveSkeyids(c: Crypto, prf: Prf, psk: Bytes, ni: Bytes, nr: Bytes, gxy: Bytes, ckyI: Bytes,
                         ckyR: Bytes): Skeyids {
    var skeyid := prf.Mac(c, psk, ni + nr);
    var d := prf.Mac(c, skeyid, gxy + ckyI + ckyR + [0]);
    var a := prf.Mac(c, skeyid, d + gxy + ckyI + ckyR + [1]);
    var e := prf.Mac(c, skeyid, a + gxy + ckyI + ckyR + [2]);
    Skeyids(skeyid, d, a, e)
  }

  /**
   Section 5 of RFC 2409 as one recurrence: key n is prf(SKEYID, key n-1 | g^xy | CKY-I | CKY-R |
   n), nothing standing before the first.
   */
  function SkeyidNumber(c: Crypto, prf: Prf, skeyid: Bytes, shared: Bytes, n: nat): Bytes
    requires n < 0x100
  {
    prf.Mac(c, skeyid, (if n == 0 then [] else SkeyidNumber(c, prf, skeyid, shared, n - 1)) + shared + [n])
  }

  /** The three derived keys are numbers 0, 1 and 2 of that recurrence, each of the hash's length. */
  lemma SkeyidChain(c: Crypto, prf: Prf, psk: Bytes, ni: Bytes, nr: Bytes, gxy: Bytes, ckyI: Bytes, ckyR: Bytes)
    ensures var k, shared := DeriveSkeyids(c, prf, psk, ni, nr, gxy, ckyI, ckyR), gxy + ckyI + ckyR;
      && k.d == SkeyidNumber(c, prf, k.skeyid, shared, 0)
      && k.a == SkeyidNumber(c, prf, k.skeyid, shared, 1)
      && k.e == SkeyidNumber(c, prf, k.skeyid, shared, 2)
      && |k.d| == |k.a| == |k.e| == |k.skeyid| == prf.OutputLen()
  {
    var k, shared := DeriveSkeyids(c, prf, psk, ni, nr, gxy, ckyI, ckyR), gxy + ckyI + ckyR;
    assert [] + shared + [0] == gxy + ckyI + ckyR + [0];
    assert k.d + shared + [1] == k.d + gxy + ckyI + ckyR + [1];
    assert k.a + shared + [2] == k.a + gxy + ckyI + ckyR + [2];
  }

  function HashI(c: Crypto, prf: Prf, skeyid: Bytes, gxi: Bytes, gxr: Bytes, ckyI: Bytes, ckyR: Bytes, saB: Bytes,
                 idB: Bytes): (h: Bytes)
    ensures |h| == prf.OutputLen()
  {
    prf.Mac(c, skeyid, gxi + gxr + ckyI + ckyR + saB + idB)
  }

  /** `hash_r` puts the responder's values first: the same formula with the roles exchanged. */
  function HashR(c: Crypto, prf: Prf, skeyid: Bytes, gxr: Bytes, gxi: Bytes, ckyR: Bytes, ckyI: Bytes, saB: Bytes,
                 idB: Bytes): (h: Bytes)
    ensures |h| == prf.OutputLen()
  {
    prf.Mac(c, skeyid, gxr + gxi + ckyR + ckyI + saB + idB)
  }

  // ----- key expansion by feedback -----

  /** K(1) = prf(key, first), K(n) = prf(key, K(n-1) | suffix). */
  function Block(c: Crypto, prf: Prf, key: Bytes, first: Bytes, suffix: Bytes, n: nat): (k: Bytes)
    requires n > 0
    ensures |k| == prf.OutputLen()
  {
    if n == 1 then prf.Mac(c, key, first) else prf.Mac(c, key, Block(c, prf, key, first, suffix, n - 1) + suffix)
  }

  /** The first `len` octets of K(1) | K(2) | K(3) ... */
  function Expand(c: Crypto, prf: Prf, key: Bytes, first: Bytes, suffix: Bytes, len: nat): (km: Bytes)
    ensures |km| == len
  {
    seq(len, j requires 0 <= j < len => Octet(c, prf, key, first, suffix, j))
  }

  function Octet(c: Crypto, prf: Prf, key: Bytes, first: Bytes, suffix: Bytes, j: nat): Byte {
    Block(c, prf, key, first, suffix, j / prf.OutputLen() + 1)[j % prf.OutputLen()]
  }

  lemma BlockIndex(prf: Prf, n: nat, j: nat)
    requires prf.OutputLen() * n <= j < prf.OutputLen() * n + prf.OutputLen()
    ensures j / prf.OutputLen() == n && j % prf.OutputLen() == j - prf.OutputLen() * n
  {
  }

  /** Appending K(n+1) to the first n blocks. */
  lemma Extend(c: Crypto, prf: Prf, key: Bytes, first: Bytes, suffix: Bytes, n: nat)
    ensures Expand(c, prf, key, first, suffix, prf.OutputLen() * n) + Block(c, prf, key, first, suffix, n + 1)
         == Expand(c, prf, key, first, suffix, prf.OutputLen() * n + prf.OutputLen())
  {
    hide Block;
    var l := prf.OutputLen();
    var whole := Expand(c, prf, key, first, suffix, l * n) + Block(c, prf, key, first, suffix, n + 1);
    forall j | l * n <= j < l * n + l ensures whole[j] == Octet(c, prf, key, first, suffix, j) {
      BlockIndex(prf, n, j);
    }
  }

  lemma Truncate(c: Crypto, prf: Prf, key: Bytes, first: Bytes, suffix: Bytes, total: nat, len: nat)
    requires len <= total
    ensures Expand(c, prf, key, first, suffix, total)[..len] == Expand(c, prf, key, first, suffix, len)
  {
    hide Octet;
  }

  function DeriveCipherKey(c: Crypto, prf: Prf, skeyidE: Bytes, keyLen: nat): (k: Bytes)
    ensures |k| == keyLen
  {
    if |skeyidE| >= keyLen then skeyidE[..keyLen] else Expand(c, prf, skeyidE, [0], [], keyLen)
  }

  /**
   The AES-256 key: SKEYID_e itself where the hash is long enough, and otherwise the first 32 octets of
   K1 | K2 with K1 = prf(SKEYID_e, 0) and K2 = prf(SKEYID_e, K1), as in Appendix B of RFC 2409.
   */
  lemma CipherKeyExactly(c: Crypto, prf: Prf, skeyidE: Bytes)
    requires |skeyidE| == prf.OutputLen()
    ensures var k1 := prf.Mac(c, skeyidE, [0]);
      DeriveCipherKey(c, prf, skeyidE, 32)
      == if prf.Sha256? then skeyidE else (k1 + prf.Mac(c, skeyidE, k1))[..32]
  {
    hide Expand, Block;
    if prf.Sha256? {
      assert skeyidE[..32] == skeyidE;
    } else {
      var k1 := prf.Mac(c, skeyidE, [0]);
      FirstBlock(c, prf, skeyidE, [0], []);
      NextBlock(c, prf, skeyidE, [0], [], 1);
      assert k1 + [] == k1;
      Truncate(c, prf, skeyidE, [0], [], 40, 32);
    }
  }

  /** The source's loop. */
  method DeriveCipherKeyLoop(c: Crypto, prf: Prf, skeyidE: Bytes, keyLen: nat) returns (ka: Bytes)
    ensures ka == DeriveCipherKey(c, prf, skeyidE, keyLen)
  {
    hide Expand, Block;
    if |skeyidE| >= keyLen {
      return skeyidE[..keyLen];
    }
    var prev := prf.Mac(c, skeyidE, [0]);
    ka := prev;
    ghost var n := 1;
    FirstBlock(c, prf, skeyidE, [0], []);
    while |ka| < keyLen
      invariant n >= 1 && prev == Block(c, prf, skeyidE, [0], [], n)
      invariant ka == Expand(c, prf, skeyidE, [0], [], prf.OutputLen() * n)
      decreases keyLen - |ka|
    {
      NextBlock(c, prf, skeyidE, [0], [], n);
      assert prev + [] == prev;
      prev := prf.Mac(c, skeyidE, prev);
      ka := ka + prev;
      n := n + 1;
    }
    Truncate(c, prf, skeyidE, [0], [], prf.OutputLen() * n, keyLen);
    ka := ka[..keyLen];
  }

  lemma FirstBlock(c: Crypto, prf: Prf, key: Bytes, first: Bytes, suffix: Bytes)
    ensures Block(c, prf, key, first, suffix, 1) == prf.Mac(c, key, first)
    ensures prf.Mac(c, key, first) == Expand(c, prf, key, first, suffix, prf.OutputLen() * 1)
  {
    Extend(c, prf, key, first, suffix, 0);
    assert Expand(c, prf, key, first, suffix, 0) == [];
  }

  lemma NextBlock(c: Crypto, prf: Prf, key: Bytes, first: Bytes, suffix: Bytes, n: nat)
    requires n >= 1
    ensures Block(c, prf, key, first, suffix, n + 1) == prf.Mac(c, key, Block(c, prf, key, first, suffix, n) + suffix)
    ensures Expand(c, prf, key, first, suffix, prf.OutputLen() * n) + Block(c, prf, key, first, suffix, n + 1)
         == Expand(c, prf, key, first, suffix, prf.OutputLen() * (n + 1))
  {
    Extend(c, prf, key, first, suffix, n);
    assert prf.OutputLen() * (n + 1) == prf.OutputLen() * n + prf.OutputLen();
  }

  /** Quick Mode keying material: every block is fed back in front of the seed. */
  function Keymat(c: Crypto, prf: Prf, skeyidD: Bytes, protocol: Byte, spi: Bytes, ni: Bytes, nr: Bytes,
                  len: nat): (km: Bytes)
    ensures |km| == len
  {
    var seed := [protocol] + spi + ni + nr;
    Expand(c, prf, skeyidD, seed, seed, len)
  }

  /** The source's loop. */
  method KeymatLoop(c: Crypto, prf: Prf, skeyidD: Bytes, protocol: Byte, spi: Bytes, ni: Bytes, nr: Bytes, outLen: nat)
    returns (out: Bytes)
    ensures out == Keymat(c, prf, skeyidD, protocol, spi, ni, nr, outLen)
  {
    hide Expand, Block;
    var seed := [protocol] + spi + ni + nr;
    var prev := prf.Mac(c, skeyidD, seed);
    out := prev;
    ghost var n := 1;
    FirstBlock(c, prf, skeyidD, seed, seed);
    while |out| < outLen
      invariant n >= 1 && prev == Block(c, prf, skeyidD, seed, seed, n)
      invariant out == Expand(c, prf, skeyidD, seed, seed, prf.OutputLen() * n)
      decreases outLen - |out|
    {
      NextBlock(c, prf, skeyidD, seed, seed, n);
      prev := prf.Mac(c, skeyidD, prev + seed);
      out := out + prev;
      n := n + 1;
    }
    Truncate(c, prf, skeyidD, seed, seed, prf.OutputLen() * n, outLen);
    out := out[..outLen];
  }

  // ----- IVs and padding -----

  type CbcIv = b: Bytes | |b| == 16 witness seq(16, i => 0)

  function Phase1Iv(c: Crypto, prf: Prf, gxi: Bytes, gxr: Bytes): CbcIv {
    prf.Hash(c, gxi + gxr)[..AES_BLOCK]
  }

  function Phase2Iv(c: Crypto, prf: Prf, phase1Iv: Bytes, messageId: U32): CbcIv {
    prf.Hash(c, phase1Iv + U32Bytes(messageId))[..AES_BLOCK]
  }

  /** The octets `pad_to_block` adds: the fewest zeros that align. */
  function PadBytes(len: nat): (z: Bytes)
    ensures |z| < AES_BLOCK && (len + |z|) % AES_BLOCK == 0
  {
    Zeros(if len % AES_BLOCK == 0 then 0 else AES_BLOCK - len % AES_BLOCK)
  }

  function PadToBlock(data: Bytes): (p: Bytes)
    ensures |p| % AES_BLOCK == 0 && |p| >= |data| && p[..|data|] == data
  {
    data + PadBytes(|data|)
  }

  function CbcEncrypt(c: Crypto, key: Bytes, iv: Bytes, plaintext: Bytes): Result<Bytes> {
    if |plaintext| % AES_BLOCK != 0 then Err(CryptoError(CbcUnaligned))
    else if |key| != 32 || |iv| != AES_BLOCK then Err(CryptoError(BadCbcKey))
    else Ok(c.cbcEncrypt(key, iv, plaintext))
  }

  function CbcDecrypt(c: Crypto, key: Bytes, iv: Bytes, ciphertext: Bytes): Result<Bytes> {
    if ciphertext == [] || |ciphertext| % AES_BLOCK != 0 then Err(CryptoError(CbcUnaligned))
    else if |key| != 32 || |iv| != AES_BLOCK then Err(CryptoError(BadCbcKey))
    else Ok(c.cbcDecrypt(key, iv, ciphertext))
  }

  /** CBC runs exactly on whole blocks under a 32-octet key and a 16-octet IV; decryption needs one block at least. */
  lemma CbcExactly(c: Crypto, key: Bytes, iv: Bytes, data: Bytes)
    ensures CbcEncrypt(c, key, iv, data).Ok? <==> |key| == 32 && |iv| == 16 && |data| % 16 == 0
    ensures CbcDecrypt(c, key, iv, data).Ok? <==> |key| == 32 && |iv| == 16 && |data| % 16 == 0 && |data| >= 16
    ensures CbcEncrypt(c, key, iv, data).Ok? ==>
      && |CbcEncrypt(c, key, iv, data).value| == |data|
      && (data != [] ==> CbcDecrypt(c, key, iv, CbcEncrypt(c, key, iv, data).value) == Ok(data))
  {
  }

  lemma CbcRoundTrip(c: Crypto, key: Bytes, iv: Bytes, plaintext: Bytes)
    requires |key| == 32 && |iv| == 16 && plaintext != [] && |plaintext| % 16 == 0
    ensures var ct := CbcEncrypt(c, key, iv, plaintext);
      ct.Ok? && |ct.value| == |plaintext| && CbcDecrypt(c, key, iv, ct.value) == Ok(plaintext)
  {
  }

  /** The last ciphertext block, the IV of the next message. */
  function NextIv(ciphertext: Bytes): (iv: Bytes)
    ensures |ciphertext| >= AES_BLOCK ==> |iv| == AES_BLOCK
  {
    if |ciphertext| < AES_BLOCK then ciphertext else ciphertext[|ciphertext| - AES_BLOCK..]
  }
}
