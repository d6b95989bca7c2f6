/**
 The IKEv2 key schedule (src/crypto.rs): `prf`, `prf+`, the seven SK_* keys and
 the CHILD SA keys.
 */
module KeySchedule {
  import opened Common
  import opened Primitives

  function Prf(c: Crypto, key: Bytes, data: Bytes): (out: Bytes)
    ensures |out| == 32
  {
    c.hmacSha256(key, data)
  }

  // ----- prf+ as the source computes it -----

  /** Block `n` of the source's loop; its counter octet saturates at 255. */
  function Block(c: Crypto, key: Bytes, seed: Bytes, n: nat): (b: Bytes)
    requires n >= 1
    ensures |b| == 32
  {
    var prev := if n == 1 then [] else Block(c, key, seed, n - 1);
    Prf(c, key, prev + seed + [if n <= 255 then n else 255])
  }

  /** The first `n` blocks. */
  function Blocks(c: Crypto, key: Bytes, seed: Bytes, n: nat): (b: Bytes)
    ensures |b| == 32 * n
  {
    if n == 0 then [] else Blocks(c, key, seed, n - 1) + Block(c, key, seed, n)
  }

  function BlocksFor(len: nat): (n: nat)
    ensures 32 * n >= len
    ensures n > 0 ==> 32 * (n - 1) < len
  {
    (len + 31) / 32
  }

  function PrfPlus(c: Crypto, key: Bytes, seed: Bytes, len: nat): (out: Bytes)
    ensures |out| == len
  {
    Blocks(c, key, seed, BlocksFor(len))[..len]
  }

  /** The loop of the source, with its three variables. */
  method PrfPlusLoop(c: Crypto, key: Bytes, seed: Bytes, outLen: nat) returns (out: Bytes)
    ensures out == PrfPlus(c, key, seed, outLen)
  {
    out := [];
    var prev: Bytes, counter: Byte := [], 1;
    ghost var n := 0;
    while |out| < outLen
      invariant out == Blocks(c, key, seed, n)
      invariant prev == if n == 0 then [] else Block(c, key, seed, n)
      invariant counter == if n < 255 then n + 1 else 255
      invariant n > 0 ==> 32 * (n - 1) < outLen
      decreases outLen - |out|
    {
      var block := Prf(c, key, prev + seed + [counter]);
      out := out + block;
      prev := block;
      counter := if counter < 255 then counter + 1 else 255;
      n := n + 1;
    }
    assert n == BlocksFor(outLen);
    out := out[..outLen];
  }

  // ----- prf+ as section 2.13 of RFC 7296 defines it -----

  /** T1 = prf(K, S | 0x01), Tn = prf(K, T(n-1) | S | n), defined for one-octet counters. */
  function RfcBlock(c: Crypto, key: Bytes, seed: Bytes, n: nat): (b: Bytes)
    requires 1 <= n <= 255
    ensures |b| == 32
  {
    if n == 1 then Prf(c, key, seed + [0x01])
    else Prf(c, key, RfcBlock(c, key, seed, n - 1) + seed + [n])
  }

  function RfcStream(c: Crypto, key: Bytes, seed: Bytes, n: nat): (b: Bytes)
    requires n <= 255
    ensures |b| == 32 * n
  {
    if n == 0 then [] else RfcStream(c, key, seed, n - 1) + RfcBlock(c, key, seed, n)
  }

  lemma {:induction false} BlockIsRfc(c: Crypto, key: Bytes, seed: Bytes, n: nat)
    requires 1 <= n <= 255
    ensures Block(c, key, seed, n) == RfcBlock(c, key, seed, n)
  {
    if n == 1 {
      assert [] + seed == seed;
    } else {
      BlockIsRfc(c, key, seed, n - 1);
    }
  }

  lemma {:induction false} BlocksAreRfc(c: Crypto, key: Bytes, seed: Bytes, n: nat)
    requires n <= 255
    ensures Blocks(c, key, seed, n) == RfcStream(c, key, seed, n)
  {
    if n > 0 {
      BlocksAreRfc(c, key, seed, n - 1);
      BlockIsRfc(c, key, seed, n);
    }
  }

  /** Up to 8160 octets (255 blocks) the source computes the recurrence of the standard. */
  lemma PrfPlusIsRfc(c: Crypto, key: Bytes, seed: Bytes, len: nat)
    requires len <= 8160
    ensures BlocksFor(len) <= 255
    ensures PrfPlus(c, key, seed, len) == RfcStream(c, key, seed, BlocksFor(len))[..len]
  {
    BlocksAreRfc(c, key, seed, BlocksFor(len));
  }

  lemma {:induction false} BlocksPrefix(c: Crypto, key: Bytes, seed: Bytes, m: nat, n: nat)
    requires m <= n
    ensures Blocks(c, key, seed, m) <= Blocks(c, key, seed, n)
  {
    if m < n {
      BlocksPrefix(c, key, seed, m, n - 1);
    }
  }

  /** A shorter output is a prefix of every longer one, at any lengths. */
  lemma PrfPlusPrefix(c: Crypto, key: Bytes, seed: Bytes, short: nat, long: nat)
    requires short <= long
    ensures PrfPlus(c, key, seed, short) == PrfPlus(c, key, seed, long)[..short]
  {
    hide Blocks;
    var m, n := BlocksFor(short), BlocksFor(long);
    assert m <= n;
    BlocksPrefix(c, key, seed, m, n);
    assert Blocks(c, key, seed, m) == Blocks(c, key, seed, n)[..32 * m];
  }

  // ----- the SK_* keys -----

  datatype KeyLengths = KeyLengths(prf: nat, integ: nat, encr: nat)

  datatype SessionKeys = SessionKeys(
    skD: Bytes, skAi: Bytes, skAr: Bytes, skEi: Bytes, skEr: Bytes, skPi: Bytes, skPr: Bytes)

  function TotalLength(l: KeyLengths): nat {
    3 * l.prf + 2 * l.integ + 2 * l.encr
  }

  function Cut(km: Bytes, a: nat, b: nat, d: nat, e: nat, f: nat, g: nat): SessionKeys
    requires a <= b <= d <= e <= f <= g <= |km|
  {
    SessionKeys(km[..a], km[a..b], km[b..d], km[d..e], km[e..f], km[f..g], km[g..])
  }

  /** Cut the stream into the seven keys, in order. */
  function SliceSessionKeys(km: Bytes, l: KeyLengths): SessionKeys
    requires |km| == TotalLength(l)
  {
    var a := l.prf;
    var b := a + l.integ;
    var d := b + l.integ;
    var e := d + l.encr;
    var f := e + l.encr;
    Cut(km, a, b, d, e, f, f + l.prf)
  }

  function SessionStream(c: Crypto, shared: Bytes, ni: Bytes, nr: Bytes, spiI: U64, spiR: U64, len: nat): Bytes {
    PrfPlus(c, Prf(c, ni + nr, shared), ni + nr + U64Bytes(spiI) + U64Bytes(spiR), len)
  }

  function DeriveSessionKeys(c: Crypto, shared: Bytes, ni: Bytes, nr: Bytes, spiI: U64, spiR: U64,
                             l: KeyLengths): SessionKeys {
    SliceSessionKeys(SessionStream(c, shared, ni, nr, spiI, spiR, TotalLength(l)), l)
  }

  lemma StreamIs(c: Crypto, shared: Bytes, ni: Bytes, nr: Bytes, spiI: U64, spiR: U64, len: nat)
    ensures SessionStream(c, shared, ni, nr, spiI, spiR, len)
      == PrfPlus(c, c.hmacSha256(ni + nr, shared), ni + nr + U64Bytes(spiI) + U64Bytes(spiR), len)
  {
    hide PrfPlus;
  }

  /** One more slice onto a prefix. */
  lemma Glue(prefix: Bytes, km: Bytes, a: nat, b: nat)
    requires a <= b <= |km| && prefix == km[..a]
    ensures prefix + km[a..b] == km[..b]
  {
  }

  lemma CutTiles(km: Bytes, a: nat, b: nat, d: nat, e: nat, f: nat, g: nat)
    requires a <= b <= d <= e <= f <= g <= |km|
    ensures var k := Cut(km, a, b, d, e, f, g);
      k.skD + k.skAi + k.skAr + k.skEi + k.skEr + k.skPi + k.skPr == km
  {
    var s1 := km[..a] + km[a..b];
    Glue(km[..a], km, a, b);
    var s2 := s1 + km[b..d];
    Glue(s1, km, b, d);
    var s3 := s2 + km[d..e];
    Glue(s2, km, d, e);
    var s4 := s3 + km[e..f];
    Glue(s3, km, e, f);
    var s5 := s4 + km[f..g];
    Glue(s4, km, f, g);
    Glue(s5, km, g, |km|);
    assert km[g..|km|] == km[g..] && km[..|km|] == km;
  }

  lemma SlicesTile(km: Bytes, l: KeyLengths)
    requires |km| == TotalLength(l)
    ensures var k := SliceSessionKeys(km, l);
      k.skD + k.skAi + k.skAr + k.skEi + k.skEr + k.skPi + k.skPr == km
  {
    hide Cut;
    var a := l.prf;
    var b := a + l.integ;
    var d := b + l.integ;
    var e := d + l.encr;
    var f := e + l.encr;
    CutTiles(km, a, b, d, e, f, f + l.prf);
  }

  /**
   The seven keys have their lengths, and together are the stream of section 2.14 of RFC 7296: nothing lost,
   nothing reused. The stream is keyed by the code of the shared secret under both nonces, and its
   seed is the nonces and both SPIs.
   */
  lemma SessionKeysTileStream(c: Crypto, shared: Bytes, ni: Bytes, nr: Bytes, spiI: U64, spiR: U64, l: KeyLengths)
    ensures var k := DeriveSessionKeys(c, shared, ni, nr, spiI, spiR, l);
      && k.skD + k.skAi + k.skAr + k.skEi + k.skEr + k.skPi + k.skPr
         == PrfPlus(c, c.hmacSha256(ni + nr, shared), ni + nr + U64Bytes(spiI) + U64Bytes(spiR), TotalLength(l))
      && |k.skD| == |k.skPi| == |k.skPr| == l.prf
      && |k.skAi| == |k.skAr| == l.integ
      && |k.skEi| == |k.skEr| == l.encr
  {
    hide PrfPlus, SessionStream;
    StreamIs(c, shared, ni, nr, spiI, spiR, TotalLength(l));
    SlicesTile(SessionStream(c, shared, ni, nr, spiI, spiR, TotalLength(l)), l);
  }

  // ----- the CHILD SA keys -----

  datatype ChildKeys = ChildKeys(encrI: Bytes, integI: Bytes, encrR: Bytes, integR: Bytes)

  function DeriveChildKeys(c: Crypto, skD: Bytes, ni: Bytes, nr: Bytes, encrLen: nat, integLen: nat): ChildKeys {
    var km := PrfPlus(c, skD, ni + nr, 2 * (encrLen + integLen));
    var a := encrLen;
    var b := a + integLen;
    var d := b + encrLen;
    ChildKeys(km[..a], km[a..b], km[b..d], km[d..])
  }

  lemma ChildKeysTileStream(c: Crypto, skD: Bytes, ni: Bytes, nr: Bytes, encrLen: nat, integLen: nat)
    ensures var k := DeriveChildKeys(c, skD, ni, nr, encrLen, integLen);
      && k.encrI + k.integI + k.encrR + k.integR == PrfPlus(c, skD, ni + nr, 2 * (encrLen + integLen))
      && |k.encrI| == |k.encrR| == encrLen && |k.integI| == |k.integR| == integLen
  {
    hide PrfPlus;
    var km := PrfPlus(c, skD, ni + nr, 2 * (encrLen + integLen));
    var k := DeriveChildKeys(c, skD, ni, nr, encrLen, integLen);
    assert k.encrI + k.integI == km[..encrLen + integLen];
    assert k.encrI + k.integI + k.encrR == km[..2 * encrLen + integLen];
  }
}
