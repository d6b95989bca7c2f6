/**
 Diffie-Hellman (src/crypto.rs): finite-field MODP arithmetic down to the octets,
 and the three groups of the library.
 */
module Dh {
  import opened Common
  import opened Primitives

  function Pow(b: nat, e: nat): nat {
    if e == 0 then 1 else b * Pow(b, e - 1)
  }

  // ----- big-endian numbers of any width -----

  /** `BigUint::from_bytes_be`. */
  function FromBe(b: Bytes): nat {
    if b == [] then 0 else FromBe(b[..|b| - 1]) * 0x100 + b[|b| - 1]
  }

  /** `BigUint::to_bytes_be`: the shortest encoding, one zero octet for zero. */
  function ToBe(n: nat): (b: Bytes)
    ensures |b| >= 1
  {
    if n < 0x100 then [n] else ToBe(n / 0x100) + [n % 0x100]
  }

  /** The `w`-octet encoding of `n`. */
  function FixedBe(n: nat, w: nat): (b: Bytes)
    ensures |b| == w
  {
    if w == 0 then [] else FixedBe(n / 0x100, w - 1) + [n % 0x100]
  }

  lemma {:induction false} FromFixedBe(n: nat, w: nat)
    requires n < Pow(0x100, w)
    ensures FromBe(FixedBe(n, w)) == n
  {
    if w > 0 {
      FromFixedBe(n / 0x100, w - 1);
      assert FixedBe(n, w)[..w - 1] == FixedBe(n / 0x100, w - 1);
    }
  }

  lemma {:induction false} BelowPower(b: Bytes)
    ensures FromBe(b) < Pow(0x100, |b|)
  {
    if b != [] {
      BelowPower(b[..|b| - 1]);
    }
  }

  lemma {:induction false} FixedZero(w: nat)
    ensures FixedBe(0, w) == Zeros(w)
  {
    if w > 0 {
      FixedZero(w - 1);
    }
  }

  /** A number below 256^w has a shortest encoding of at most `w` octets, and padding it gives the fixed one. */
  lemma {:induction false} PaddedIsFixed(n: nat, w: nat)
    requires 1 <= w && n < Pow(0x100, w)
    ensures |ToBe(n)| <= w
    ensures Zeros(w - |ToBe(n)|) + ToBe(n) == FixedBe(n, w)
  {
    if n < 0x100 {
      FixedZero(w - 1);
      assert n / 0x100 == 0 && n % 0x100 == n;
    } else {
      assert w >= 2 by { assert Pow(0x100, 1) == 0x100; }
      PaddedIsFixed(n / 0x100, w - 1);
      var short := ToBe(n / 0x100);
      assert Zeros(w - 1 - |short|) + (short + [n % 0x100]) == Zeros(w - 1 - |short|) + short + [n % 0x100];
    }
  }

  // ----- modular exponentiation -----

  /** `base^exp mod p`, left-zero-padded to the width of `prime`. */
  function Modexp(base: Bytes, exp: Bytes, prime: Bytes): (out: Bytes)
    requires FromBe(prime) > 0
    ensures |out| == |prime|
    ensures FromBe(out) == Pow(FromBe(base), FromBe(exp)) % FromBe(prime)
  {
    var v := Pow(FromBe(base), FromBe(exp)) % FromBe(prime);
    BelowPower(prime);
    PaddedIsFixed(v, |prime|);
    FromFixedBe(v, |prime|);
    Zeros(|prime| - |ToBe(v)|) + ToBe(v)
  }

  function ModpPublic(exp: Bytes, prime: Bytes): (out: Bytes)
    requires FromBe(prime) > 0
    ensures |out| == |prime|
  {
    Modexp([2], exp, prime)
  }

  function ModpShared(exp: Bytes, peer: Bytes, prime: Bytes): (out: Bytes)
    requires FromBe(prime) > 0
    ensures |out| == |prime|
  {
    Modexp(peer, exp, prime)
  }

  /** The peer value lies in [2, p-2]. */
  predicate ModpValid(peer: Bytes, prime: Bytes) {
    1 < FromBe(peer) < FromBe(prime) - 1
  }

  lemma Distributes(m: nat, a: nat, b: nat)
    ensures m * (a + b) == m * a + m * b
  {
  }

  lemma Associates(a: nat, b: nat, d: nat)
    ensures a * b * d == a * (b * d)
  {
  }

  lemma DivMod(x: nat, m: nat)
    requires m > 0
    ensures x == m * (x / m) + x % m && x % m < m
  {
  }

  /** Quotient and remainder are unique. */
  lemma Unique(m: nat, q: nat, r: nat, q': nat, r': nat)
    requires r < m && r' < m && m * q + r == m * q' + r'
    ensures r == r'
  {
    if q > q' {
      Distributes(m, q', q - q');
      Grows(m, q - q');
    } else if q < q' {
      Distributes(m, q, q' - q);
      Grows(m, q' - q);
    }
  }

  lemma Grows(m: nat, d: nat)
    requires d > 0
    ensures m * d >= m
  {
    Distributes(m, d - 1, 1);
  }

  lemma Residues(m: nat, q: nat, r: nat, x: nat, y: nat, k: nat, s: nat, k': nat, s': nat)
    requires x == m * q + r && r * y == m * k + s && x * y == m * k' + s' && s < m && s' < m
    ensures s == s'
  {
    TimesSum(m, q, r, x, y);
    Distributes(m, q * y, k);
    Unique(m, q * y + k, s, k', s');
  }

  lemma ModMul(x: nat, y: nat, m: nat)
    requires m > 0
    ensures (x % m) * y % m == x * y % m
  {
    DivMod(x, m);
    DivMod((x % m) * y, m);
    DivMod(x * y, m);
    Residues(m, x / m, x % m, x, y, (x % m) * y / m, (x % m) * y % m, x * y / m, x * y % m);
  }

  lemma TimesSum(m: nat, q: nat, r: nat, x: nat, y: nat)
    requires x == m * q + r
    ensures x * y == m * (q * y) + r * y
  {
    var mq := m * q;
    Distributes(y, mq, r);
    Associates(m, q, y);
  }

  /** Reducing the base first does not change the residue of a power. */
  lemma {:induction false} PowMod(x: nat, e: nat, m: nat)
    requires m > 0
    ensures Pow(x % m, e) % m == Pow(x, e) % m
  {
    if e > 0 {
      var p, q := Pow(x % m, e - 1), Pow(x, e - 1);
      PowMod(x, e - 1, m);
      ModMul(x, p, m);
      ModMul(p, x, m);
      ModMul(q, x, m);
      Commutes(x, p);
      Commutes(x, q);
    }
  }

  lemma Commutes(a: nat, b: nat)
    ensures a * b == b * a
  {
  }

  lemma {:induction false} PowAdd(b: nat, m: nat, n: nat)
    ensures Pow(b, m + n) == Pow(b, m) * Pow(b, n)
  {
    if m > 0 {
      PowAdd(b, m - 1, n);
      Associates(b, Pow(b, m - 1), Pow(b, n));
    }
  }

  lemma {:induction false} PowPow(b: nat, m: nat, n: nat)
    ensures Pow(Pow(b, m), n) == Pow(b, m * n)
  {
    if n == 0 {
      assert m * n == 0;
    } else {
      PowPow(b, m, n - 1);
      PowAdd(b, m, m * (n - 1));
      Distributes(m, n - 1, 1);
    }
  }

  lemma Digits(high: nat, low: nat)
    requires low < 0x100
    ensures (high * 0x100 + low) % 0x100 == low && (high * 0x100 + low) / 0x100 == high
  {
  }

  lemma Unfolded(b: Bytes)
    requires b != []
    ensures FromBe(b) == FromBe(b[..|b| - 1]) * 0x100 + b[|b| - 1]
  {
  }

  lemma LastOctet(b: Bytes)
    requires b != []
    ensures b[|b| - 1] == FromBe(b) % 0x100 && FromBe(b[..|b| - 1]) == FromBe(b) / 0x100
  {
    hide FromBe;
    Unfolded(b);
    Digits(FromBe(b[..|b| - 1]), b[|b| - 1]);
  }

  /** Strings of one width that encode one number are equal. */
  lemma {:induction false} SameNumber(s: Bytes, t: Bytes)
    requires |s| == |t| && FromBe(s) == FromBe(t)
    ensures s == t
  {
    hide FromBe;
    if s != [] {
      var n := |s| - 1;
      LastOctet(s);
      LastOctet(t);
      SameNumber(s[..n], t[..n]);
      assert s == s[..n] + [s[n]] && t == t[..n] + [t[n]];
    }
  }

  /**
   MODP agreement, octet for octet: for any modulus and any exponents, raising B's
   encoded public value to a and A's to b gives the same prime-width string.
   */
  lemma ModpAgreement(a: Bytes, b: Bytes, prime: Bytes)
    requires FromBe(prime) > 0
    ensures ModpShared(a, ModpPublic(b, prime), prime) == ModpShared(b, ModpPublic(a, prime), prime)
    ensures FromBe(ModpShared(a, ModpPublic(b, prime), prime)) == Pow(2, FromBe(a) * FromBe(b)) % FromBe(prime)
  {
    ModpExponents(a, b, prime);
    ModpExponents(b, a, prime);
    assert FromBe(a) * FromBe(b) == FromBe(b) * FromBe(a);
    SameNumber(ModpShared(a, ModpPublic(b, prime), prime), ModpShared(b, ModpPublic(a, prime), prime));
  }

  lemma ModpExponents(a: Bytes, b: Bytes, prime: Bytes)
    requires FromBe(prime) > 0
    ensures FromBe(ModpShared(a, ModpPublic(b, prime), prime)) == Pow(2, FromBe(a) * FromBe(b)) % FromBe(prime)
  {
    hide Pow;
    var x, y, p := FromBe(a), FromBe(b), FromBe(prime);
    assert FromBe([2]) == 2 by { assert [2][..0] == []; }
    PowMod(Pow(2, y), x, p);
    PowPow(2, y, x);
    assert y * x == x * y;
  }

  // ----- the groups -----

  datatype DhGroup = GroupX25519 | Modp1024 | Modp2048

  function GroupFromId(id: U16): Option<DhGroup> {
    if id == 31 then Some(GroupX25519) else if id == 2 then Some(Modp1024)
    else if id == 14 then Some(Modp2048) else None
  }

  function GroupId(g: DhGroup): (id: U16)
    ensures GroupFromId(id) == Some(g)
  {
    match g
    case GroupX25519 => 31
    case Modp1024 => 2
    case Modp2048 => 14
  }

  function PublicLen(g: DhGroup): nat {
    match g
    case GroupX25519 => 32
    case Modp1024 => 128
    case Modp2048 => 256
  }

  /** The Oakley group 2 prime (RFC 2409) and the group 14 prime (RFC 3526). */
  function Modulus(g: DhGroup): (p: nat)
    requires !g.GroupX25519?
    ensures p > 2
  {
    match g
    case Modp1024 =>
      0xFFFFFFFFFFFFFFFFC90FDAA22168C234C4C6628B80DC1CD129024E088A67CC74020BBEA63B139B22514A08798E3404DDEF9519B3CD3A431B302B0A6DF25F14374FE1356D6D51C245E485B576625E7EC6F44C42E9A637ED6B0BFF5CB6F406B7EDEE386BFB5A899FA5AE9F24117C4B1FE649286651ECE65381FFFFFFFFFFFFFFFF
    case Modp2048 =>
      0xFFFFFFFFFFFFFFFFC90FDAA22168C234C4C6628B80DC1CD129024E088A67CC74020BBEA63B139B22514A08798E3404DDEF9519B3CD3A431B302B0A6DF25F14374FE1356D6D51C245E485B576625E7EC6F44C42E9A637ED6B0BFF5CB6F406B7EDEE386BFB5A899FA5AE9F24117C4B1FE649286651ECE45B3DC2007CB8A163BF0598DA48361C55D39A69163FA8FD24CF5F83655D23DCA3AD961C62F356208552BB9ED529077096966D670C354E4ABC9804F1746C08CA18217C32905E462E36CE3BE39E772C180E86039B2783A2EC07A28FB5C55DF06F4C52C9DE2BCBF6955817183995497CEA956AE515D2261898FA051015728E5A8AACAA68FFFFFFFFFFFFFFFF
  }

  function Prime(g: DhGroup): (b: Bytes)
    requires !g.GroupX25519?
    ensures |b| == PublicLen(g)
  {
    FixedBe(Modulus(g), PublicLen(g))
  }

  /** 256^256 and 256^128 from eight squarings. */
  lemma BigPowers()
    ensures Pow(0x100, 128) == 0x10000000000000000000000000000000000000000000000000000000000000000000000000000000000000000000000000000000000000000000000000000000000000000000000000000000000000000000000000000000000000000000000000000000000000000000000000000000000000000000000000000000000000000
    ensures Pow(0x100, 256) == 0x100000000000000000000000000000000000000000000000000000000000000000000000000000000000000000000000000000000000000000000000000000000000000000000000000000000000000000000000000000000000000000000000000000000000000000000000000000000000000000000000000000000000000000000000000000000000000000000000000000000000000000000000000000000000000000000000000000000000000000000000000000000000000000000000000000000000000000000000000000000000000000000000000000000000000000000000000000000000000000000000000000000000000000000000000000000
  {
    hide Pow;
    assert Pow(0x100, 4) == 0x1_0000_0000 by { Pow4(); }
    Doubled(4, 0x1_0000_0000);
    Doubled(8, 0x1_0000_0000 * 0x1_0000_0000);
    Doubled(16, Pow(0x100, 16));
    Doubled(32, Pow(0x100, 32));
    Doubled(64, Pow(0x100, 64));
    Doubled(128, Pow(0x100, 128));
  }

  lemma Pow4()
    ensures Pow(0x100, 4) == 0x1_0000_0000
  {
    assert Pow(0x100, 2) == 0x1_0000;
  }

  lemma Doubled(w: nat, v: nat)
    requires v == Pow(0x100, w)
    ensures Pow(0x100, 2 * w) == v * v
  {
    PowAdd(0x100, w, w);
  }

  lemma PrimeValue(g: DhGroup)
    requires !g.GroupX25519?
    ensures FromBe(Prime(g)) == Modulus(g) > 0
  {
    hide Pow, FixedBe, FromBe;
    BigPowers();
    FromFixedBe(Modulus(g), PublicLen(g));
  }

  /** Our public value; X25519 uses the first 32 octets of the private string. */
  function Public(c: Crypto, g: DhGroup, private: Bytes): (out: Bytes)
    requires |private| >= 32
    ensures |out| == PublicLen(g)
  {
    match g
    case GroupX25519 => c.x25519Public(private[..32])
    case _ =>
      PrimeValue(g);
      ModpPublic(private, Prime(g))
  }

  /** A peer value the group accepts. */
  predicate ValidShare(g: DhGroup, peer: Bytes) {
    |peer| == PublicLen(g) && (g.GroupX25519? || ModpValid(peer, Prime(g)))
  }

  function Shared(c: Crypto, g: DhGroup, private: Bytes, peer: Bytes): (r: Result<Bytes>)
    requires |private| >= 32
    ensures r.Ok? <==> ValidShare(g, peer)
    ensures r.Err? ==> r.error == BadKeyExchange(GroupId(g), |peer|)
  {
    if |peer| != PublicLen(g) then Err(BadKeyExchange(GroupId(g), |peer|))
    else match g
      case GroupX25519 => Ok(c.x25519Shared(private[..32], peer))
      case _ =>
        if !ModpValid(peer, Prime(g)) then Err(BadKeyExchange(GroupId(g), |peer|))
        else
          PrimeValue(g);
          Ok(ModpShared(private, peer, Prime(g)))
  }

  /** In every group the two sides compute one secret, whenever both accept the other's share. */
  lemma SharedAgreement(c: Crypto, g: DhGroup, a: Bytes, b: Bytes)
    requires |a| >= 32 && |b| >= 32
    requires ValidShare(g, Public(c, g, a)) && ValidShare(g, Public(c, g, b))
    ensures Shared(c, g, a, Public(c, g, b)).Ok?
    ensures Shared(c, g, a, Public(c, g, b)) == Shared(c, g, b, Public(c, g, a))
  {
    hide ModpPublic, ModpShared, Prime, ModpValid;
    if !g.GroupX25519? {
      PrimeValue(g);
      ModpAgreement(a, b, Prime(g));
    }
  }
}
