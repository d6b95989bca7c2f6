/**
 Octets, fixed-width integers, big-endian encodings and the result types shared
 by every module of the model.
 */
module Common {

  type Byte = b: int | 0 <= b < 0x100
  type Bytes = seq<Byte>

  type U16 = n: int | 0 <= n < 0x1_0000
  type U32 = n: int | 0 <= n < 0x1_0000_0000
  type U64 = n: int | 0 <= n < 0x1_0000_0000_0000_0000

  datatype Option<+T> = None | Some(value: T)

  /** Why a crypto precondition failed; one constructor per message of the library. */
  datatype CryptoReason =
    | BadSkKey | BadChildKey | EmptyPlaintext | PadTooLong
    | ZeroFragmentSize | NoFragments | InconsistentTotal | WrongFragmentCount | BadFragmentNumbers
    | NotEapChallenge | NotEapResponse
    | SequenceExhausted | SpiMismatch | ShortTrailer
    | NotAggressive | NotQuick | CbcUnaligned | BadCbcKey | BadEspSpi | SigningFailed | BadCertificate

  /** The payload a `MissingPayload` error names. */
  datatype Missing = MissSa | MissKe | MissNonce | MissId | MissAuth | MissSk | MissSkf | MissEap | MissHash | MissCert

  /** The library's error type (src/error.rs). */
  datatype IkeError =
    | Truncated(need: nat, have: nat)
    | BadLength(declared: nat, available: nat)
    | ShortPayload(length: U16)
    | MissingPayload(what: Missing)
    | NoProposalChosen
    | DhGroupMismatch(expected: U16, got: U16)
    | BadKeyExchange(group: U16, len: nat)
    | BadIntegrity
    | AuthFailed
    | CryptoError(reason: CryptoReason)

  datatype Result<+T> = Ok(value: T) | Err(error: IkeError) {
    predicate IsFailure() {
      Err?
    }

    function PropagateFailure<U>(): Result<U>
      requires Err?
    {
      Err(error)
    }

    function Extract(): T
      requires Ok?
    {
      value
    }
  }

  /** The value of an option, or the given error: Rust's `ok_or`. */
  function OkOr<T>(o: Option<T>, e: IkeError): Result<T> {
    match o
    case Some(v) => Ok(v)
    case None => Err(e)
  }

  /** Put `xs` in front of a list result; an error stays an error. */
  function Prepend<T>(xs: seq<T>, r: Result<seq<T>>): Result<seq<T>> {
    if r.Err? then r else Ok(xs + r.value)
  }

  lemma PrependNothing<T>(r: Result<seq<T>>)
    ensures Prepend([], r) == r
  {
    assert r.Ok? ==> [] + r.value == r.value;
  }

  lemma PrependTwice<T>(xs: seq<T>, ys: seq<T>, r: Result<seq<T>>)
    ensures Prepend(xs, Prepend(ys, r)) == Prepend(xs + ys, r)
  {
    assert r.Ok? ==> xs + (ys + r.value) == xs + ys + r.value;
  }

  /** The last index below `k` with a property. */
  function LastBelow(p: nat -> bool, k: nat): (j: Option<nat>)
    ensures j.Some? ==> j.value < k && p(j.value)
    ensures forall m :: (if j.Some? then j.value + 1 else 0) <= m < k ==> !p(m)
  {
    if k == 0 then None else if p(k - 1) then Some(k - 1) else LastBelow(p, k - 1)
  }

  // ----- big-endian integers -----

  function GetU16(b: Bytes, off: nat): U16
    requires off + 2 <= |b|
  {
    b[off] as int * 0x100 + b[off + 1]
  }

  function GetU32(b: Bytes, off: nat): U32
    requires off + 4 <= |b|
  {
    GetU16(b, off) as int * 0x1_0000 + GetU16(b, off + 2)
  }

  function GetU64(b: Bytes, off: nat): U64
    requires off + 8 <= |b|
  {
    GetU32(b, off) as int * 0x1_0000_0000 + GetU32(b, off + 4)
  }

  function U16Bytes(n: U16): (b: Bytes)
    ensures |b| == 2 && GetU16(b, 0) == n
  {
    [n / 0x100, n % 0x100]
  }

  function U32Bytes(n: U32): (b: Bytes)
    ensures |b| == 4 && GetU32(b, 0) == n
  {
    U16Bytes(n / 0x1_0000) + U16Bytes(n % 0x1_0000)
  }

  function U64Bytes(n: U64): (b: Bytes)
    ensures |b| == 8 && GetU64(b, 0) == n
  {
    U32Bytes(n / 0x1_0000_0000) + U32Bytes(n % 0x1_0000_0000)
  }

  /** Rust's truncating casts `as u16` and `as u8`. */
  function AsU16(n: nat): U16 {
    n % 0x1_0000
  }

  function AsU8(n: nat): Byte {
    n % 0x100
  }

  function AsU32(n: nat): U32 {
    n % 0x1_0000_0000
  }

  function Zeros(n: nat): (z: Bytes)
    ensures |z| == n && forall i :: 0 <= i < n ==> z[i] == 0
  {
    seq(n, i => 0)
  }

  // ----- reading a field back out of a longer string -----

  lemma SliceMiddle<T>(a: seq<T>, b: seq<T>, c: seq<T>)
    ensures (a + b + c)[|a|..|a| + |b|] == b
    ensures (a + b + c)[|a| + |b|..] == c
  {
  }

  lemma SliceOfTail<T>(m: seq<T>, a: nat, i: nat, j: nat)
    requires i <= j && a + j <= |m|
    ensures m[a..][i..j] == m[a + i..a + j]
  {
  }

  lemma U16At(m: Bytes, off: nat, n: U16)
    requires off + 2 <= |m| && m[off..off + 2] == U16Bytes(n)
    ensures GetU16(m, off) == n
  {
    assert m[off] == m[off..off + 2][0] && m[off + 1] == m[off..off + 2][1];
  }

  lemma U32At(m: Bytes, off: nat, n: U32)
    requires off + 4 <= |m| && m[off..off + 4] == U32Bytes(n)
    ensures GetU32(m, off) == n
  {
    var s := m[off..off + 4];
    assert m[off] == s[0] && m[off + 1] == s[1] && m[off + 2] == s[2] && m[off + 3] == s[3];
    assert GetU32(s, 0) == n;
  }

  lemma U64At(m: Bytes, off: nat, n: U64)
    requires off + 8 <= |m| && m[off..off + 8] == U64Bytes(n)
    ensures GetU64(m, off) == n
  {
    var s := m[off..off + 8];
    assert m[off..off + 4] == s[0..4] && m[off + 4..off + 8] == s[4..8];
    assert s[0..4] == U32Bytes(n / 0x1_0000_0000) && s[4..8] == U32Bytes(n % 0x1_0000_0000);
    U32At(m, off, n / 0x1_0000_0000);
    U32At(m, off + 4, n % 0x1_0000_0000);
  }

  /** Equal 64-bit encodings come from equal numbers. */
  lemma U64BytesInjective(m: U64, n: U64)
    ensures U64Bytes(m) == U64Bytes(n) ==> m == n
  {
    assert GetU64(U64Bytes(m), 0) == m && GetU64(U64Bytes(n), 0) == n;
  }
}
