/**
 IKE message fragmentation (src/ikev2/fragment.rs, RFC 7383): splitting and
 sealing, and reassembly from any arrival order.
 */
module Fragmentation {
  import opened Common
  import opened Primitives
  import opened Message
  import opened Sk

  const SKF_MIN_BODY: nat := 28

  // ----- splitting -----

  /** Rust's `chunks`: consecutive pieces of `per` octets, the last one possibly shorter. */
  function Chunks(inner: Bytes, per: nat): (cs: seq<Bytes>)
    requires per > 0
    ensures forall i :: 0 <= i < |cs| ==> |cs[i]| <= per && |cs[i]| <= |inner|
    decreases |inner|
  {
    if inner == [] then [] else if |inner| <= per then [inner] else [inner[..per]] + Chunks(inner[per..], per)
  }

  /** An empty message still makes one fragment. */
  function Pieces(inner: Bytes, per: nat): (cs: seq<Bytes>)
    requires per > 0
    ensures |cs| >= 1
    ensures forall i :: 0 <= i < |cs| ==> |cs[i]| <= per && |cs[i]| <= |inner|
  {
    if inner == [] then [[]] else Chunks(inner, per)
  }

  function Concat(cs: seq<Bytes>): Bytes {
    if cs == [] then [] else cs[0] + Concat(cs[1..])
  }

  lemma {:induction false} ChunksConcat(inner: Bytes, per: nat)
    requires per > 0
    ensures Concat(Chunks(inner, per)) == inner
    decreases |inner|
  {
    var cs := Chunks(inner, per);
    if inner == [] {
    } else if |inner| <= per {
      assert cs[1..] == [];
    } else {
      ChunksConcat(inner[per..], per);
      assert cs[1..] == Chunks(inner[per..], per);
    }
  }

  lemma PiecesConcat(inner: Bytes, per: nat)
    requires per > 0
    ensures Concat(Pieces(inner, per)) == inner
  {
    ChunksConcat(inner, per);
    var cs := Pieces(inner, per);
    assert inner == [] ==> cs[1..] == [];
  }

  // ----- one fragment -----

  function SkfLen(chunk: Bytes): nat {
    4 + 4 + IV_LEN + (|chunk| + 1) + ICV_LEN
  }

  function SkfHeader(h: IkeHeader, chunk: Bytes): IkeHeader {
    h.(nextPayload := PtSkf, length := AsU32(HEADER_LEN + SkfLen(chunk)))
  }

  function FirstOctet(first: PayloadType, num: U16): Byte {
    if num == 1 then TypeToU8(first) else 0
  }

  /** Generic header, fragment number and total: what stands between the IKE header and the IV. */
  function SkfPrefix(first: PayloadType, chunk: Bytes, num: U16, total: U16): (b: Bytes)
    ensures |b| == 8
  {
    [FirstOctet(first, num), 0] + U16Bytes(AsU16(SkfLen(chunk))) + U16Bytes(num) + U16Bytes(total)
  }

  function SkfAad(h: IkeHeader, first: PayloadType, chunk: Bytes, num: U16, total: U16): (aad: Bytes)
    ensures |aad| == 36
  {
    HeaderBytes(SkfHeader(h, chunk)) + SkfPrefix(first, chunk, num, total)
  }

  function FragmentIv(ivBase: U64, num: U16): Iv {
    U64Bytes((ivBase + num) % 0x1_0000_0000_0000_0000)
  }

  function SealFragment(c: Crypto, h: IkeHeader, first: PayloadType, chunk: Bytes, num: U16, total: U16, skE: Bytes,
                        ivBase: U64): Result<Bytes> {
    var aad := SkfAad(h, first, chunk, num, total);
    var iv := FragmentIv(ivBase, num);
    var ct :- GcmSeal(c, skE, iv, aad, chunk + [0]);
    Ok(aad + iv + ct)
  }

  datatype Fragment = Fragment(num: U16, total: U16, nextPayload: Byte, content: Bytes)

  function OpenFragment(c: Crypto, message: Bytes, skE: Bytes): Result<Fragment> {
    var h :- ParseHeader(message);
    if h.nextPayload != PtSkf then Err(MissingPayload(MissSkf))
    else
      var body := message[HEADER_LEN..];
      if |body| < 4 + SKF_MIN_BODY then Err(Truncated(4 + SKF_MIN_BODY, |body|))
      else
        var len := GetU16(body, 2);
        if len < 4 + SKF_MIN_BODY || len > |body| then Err(BadLength(len, |body|))
        else
          var plaintext :- GcmOpen(c, skE, body[8..16], message[..36], body[16..len]);
          var content :- StripPad(plaintext);
          Ok(Fragment(GetU16(body, 4), GetU16(body, 6), body[0], content))
  }

  /** Within one message every fragment has an IV of its own. */
  lemma FragmentIvsDiffer(ivBase: U64, m: U16, n: U16)
    ensures FragmentIv(ivBase, m) == FragmentIv(ivBase, n) <==> m == n
  {
    hide U64Bytes;
    var a, b := (ivBase + m) % 0x1_0000_0000_0000_0000, (ivBase + n) % 0x1_0000_0000_0000_0000;
    U64BytesInjective(a, b);
  }

  /** What opens as a fragment, exactly, in terms of the octets of the message, and what comes out. */
  lemma OpenFragmentExactly(c: Crypto, m: Bytes, skE: Bytes)
    ensures OpenFragment(c, m, skE).Ok? <==>
      && |skE| == 36 && |m| >= 60 && m[16] == 53 && 32 <= GetU16(m, 30) <= |m| - 28
      && var p := c.gcmOpen(skE[..32], skE[32..] + m[36..44], m[..36], m[44..28 + GetU16(m, 30)]);
      && p.Some? && p.value != [] && p.value[|p.value| - 1] < |p.value|
    ensures OpenFragment(c, m, skE).Ok? ==>
      var p := c.gcmOpen(skE[..32], skE[32..] + m[36..44], m[..36], m[44..28 + GetU16(m, 30)]).value;
      OpenFragment(c, m, skE).value
      == Fragment(GetU16(m, 32), GetU16(m, 34), m[28], p[..|p| - 1 - p[|p| - 1]])
  {
    hide GetU64, GetU32, ExchangeFromU8, FlagsFromU8;
    if |m| >= 28 {
      var body := m[28..];
      SkfType(m);
      if |body| >= 32 {
        assert GetU16(body, 2) == GetU16(m, 30) && GetU16(body, 4) == GetU16(m, 32) && GetU16(body, 6) == GetU16(m, 34);
        var len := GetU16(body, 2);
        if 32 <= len <= |body| {
          SliceOfTail(m, 28, 8, 16);
          SliceOfTail(m, 28, 16, len);
        }
      }
    }
  }

  lemma SkfType(m: Bytes)
    requires |m| >= 28
    ensures ParseHeader(m).Ok? && (ParseHeader(m).value.nextPayload == PtSkf <==> m[16] == 53)
  {
    hide GetU64, GetU32, ExchangeFromU8, FlagsFromU8;
  }

  predicate ChunkFits(chunk: Bytes) {
    SkfLen(chunk) < 0x1_0000
  }

  lemma SkfLayout(h: IkeHeader, first: PayloadType, chunk: Bytes, num: U16, total: U16, iv: Iv, ct: Bytes)
    requires ChunkFits(chunk)
    ensures var m := SkfAad(h, first, chunk, num, total) + iv + ct;
      && |m| == 44 + |ct| && m[..36] == SkfAad(h, first, chunk, num, total)
      && m[28..][0] == FirstOctet(first, num)
      && GetU16(m[28..], 2) == SkfLen(chunk) && GetU16(m[28..], 4) == num && GetU16(m[28..], 6) == total
      && m[28..][8..16] == iv && m[28..][16..] == ct
  {
    hide HeaderBytes, FirstOctet;
    var m := SkfAad(h, first, chunk, num, total) + iv + ct;
    var b := SkfPrefix(first, chunk, num, total) + (iv + ct);
    assert m[28..] == b;
    assert b[2..4] == U16Bytes(SkfLen(chunk)) && b[4..6] == U16Bytes(num) && b[6..8] == U16Bytes(total);
    U16At(b, 2, SkfLen(chunk));
    U16At(b, 4, num);
    U16At(b, 6, total);
  }

  lemma SkfHeaderReads(h: IkeHeader, first: PayloadType, chunk: Bytes, num: U16, total: U16, rest: Bytes)
    requires CanonicalHeader(h)
    ensures ParseHeader(SkfAad(h, first, chunk, num, total) + rest) == Ok(SkfHeader(h, chunk))
  {
    hide HeaderBytes, ParseHeader, SkfPrefix;
    var prefix := SkfPrefix(first, chunk, num, total);
    HeaderRoundTrip(SkfHeader(h, chunk), prefix + rest);
    assert SkfAad(h, first, chunk, num, total) + rest == HeaderBytes(SkfHeader(h, chunk)) + (prefix + rest);
  }

  /** A sealed fragment opens to its number, the total, its first octet and its content. */
  lemma FragmentRoundTrip(c: Crypto, h: IkeHeader, first: PayloadType, chunk: Bytes, num: U16, total: U16, skE: Bytes,
                          ivBase: U64)
    requires |skE| == 36 && ChunkFits(chunk) && CanonicalHeader(h)
    ensures var m := SealFragment(c, h, first, chunk, num, total, skE, ivBase);
      m.Ok? && OpenFragment(c, m.value, skE) == Ok(Fragment(num, total, FirstOctet(first, num), chunk))
  {
    hide HeaderBytes, ParseHeader, SkfAad, GcmSeal, GcmOpen, StripPad, FirstOctet, FragmentIv;
    var aad, iv := SkfAad(h, first, chunk, num, total), FragmentIv(ivBase, num);
    GcmRoundTrip(c, skE, iv, aad, chunk + [0]);
    var ct := GcmSeal(c, skE, iv, aad, chunk + [0]).value;
    var m := aad + iv + ct;
    SkfLayout(h, first, chunk, num, total, iv, ct);
    SkfHeaderReads(h, first, chunk, num, total, iv + ct);
    assert m == aad + (iv + ct);
    StripNoPad(chunk);
    assert m[28..][16..SkfLen(chunk)] == ct;
  }

  // ----- building all fragments -----

  /** Fragments `from + 1`, `from + 2`, ... of `total`. */
  function SealFrom(c: Crypto, h: IkeHeader, first: PayloadType, cs: seq<Bytes>, from: nat, total: U16, skE: Bytes,
                    ivBase: U64): Result<seq<Bytes>>
    requires from <= |cs|
    decreases |cs| - from
  {
    if from == |cs| then Ok([])
    else
      var m :- SealFragment(c, h, first, cs[from], AsU16(from + 1), total, skE, ivBase);
      Prepend([m], SealFrom(c, h, first, cs, from + 1, total, skE, ivBase))
  }

  function BuildFragments(c: Crypto, h: IkeHeader, first: PayloadType, inner: Bytes, skE: Bytes, ivBase: U64,
                          per: nat): Result<seq<Bytes>> {
    if per == 0 then Err(CryptoError(ZeroFragmentSize))
    else
      var cs := Pieces(inner, per);
      SealFrom(c, h, first, cs, 0, AsU16(|cs|), skE, ivBase)
  }

  /** The source's loop over the chunks. */
  method BuildFragmentsLoop(c: Crypto, h: IkeHeader, first: PayloadType, inner: Bytes, skE: Bytes, ivBase: U64,
                            per: nat) returns (r: Result<seq<Bytes>>)
    ensures r == BuildFragments(c, h, first, inner, skE, ivBase, per)
  {
    hide SealFragment, Chunks;
    if per == 0 {
      return Err(CryptoError(ZeroFragmentSize));
    }
    var cs := Pieces(inner, per);
    var total := AsU16(|cs|);
    var out: seq<Bytes> := [];
    PrependNothing(SealFrom(c, h, first, cs, 0, total, skE, ivBase));
    for i := 0 to |cs|
      invariant SealFrom(c, h, first, cs, 0, total, skE, ivBase)
        == Prepend(out, SealFrom(c, h, first, cs, i, total, skE, ivBase))
    {
      var m := SealFragment(c, h, first, cs[i], AsU16(i + 1), total, skE, ivBase);
      if m.Err? {
        return Err(m.error);
      }
      PrependTwice(out, [m.value], SealFrom(c, h, first, cs, i + 1, total, skE, ivBase));
      out := out + [m.value];
    }
    assert out + [] == out;
    return Ok(out);
  }

  // ----- reassembly -----

  function OpenAll(c: Crypto, messages: seq<Bytes>, skE: Bytes): (r: Result<seq<Fragment>>)
    ensures r.Ok? ==> |r.value| == |messages|
  {
    if messages == [] then Ok([])
    else
      var f :- OpenFragment(c, messages[0], skE);
      Prepend([f], OpenAll(c, messages[1..], skE))
  }

  function Insert(f: Fragment, fs: seq<Fragment>): (r: seq<Fragment>)
    ensures |r| == |fs| + 1
  {
    if fs == [] || f.num < fs[0].num then [f] + fs else [fs[0]] + Insert(f, fs[1..])
  }

  lemma {:induction false} InsertKeeps(f: Fragment, fs: seq<Fragment>)
    ensures multiset(Insert(f, fs)) == multiset(fs) + multiset{f}
  {
    if fs != [] && f.num >= fs[0].num {
      InsertKeeps(f, fs[1..]);
      assert fs == [fs[0]] + fs[1..];
    }
  }

  /** The library's stable sort by fragment number. */
  function SortByNum(fs: seq<Fragment>): (s: seq<Fragment>)
    ensures multiset(s) == multiset(fs) && |s| == |fs|
  {
    if fs == [] then []
    else
      var before, last := fs[..|fs| - 1], fs[|fs| - 1];
      assert fs == before + [last];
      InsertKeeps(last, SortByNum(before));
      Insert(last, SortByNum(before))
  }

  predicate Ascending(fs: seq<Fragment>) {
    forall i, j :: 0 <= i < j < |fs| ==> fs[i].num <= fs[j].num
  }

  lemma {:induction false} InsertBounded(low: int, f: Fragment, fs: seq<Fragment>)
    requires low <= f.num && forall m :: 0 <= m < |fs| ==> low <= fs[m].num
    ensures forall m :: 0 <= m < |Insert(f, fs)| ==> low <= Insert(f, fs)[m].num
  {
    if fs != [] && f.num >= fs[0].num {
      InsertBounded(low, f, fs[1..]);
    }
  }

  lemma {:induction false} InsertAscending(f: Fragment, fs: seq<Fragment>)
    requires Ascending(fs)
    ensures Ascending(Insert(f, fs))
  {
    if fs != [] && f.num >= fs[0].num {
      InsertAscending(f, fs[1..]);
      InsertBounded(fs[0].num, f, fs[1..]);
    }
  }

  lemma {:induction false} SortAscending(fs: seq<Fragment>)
    ensures Ascending(SortByNum(fs))
  {
    if fs != [] {
      SortAscending(fs[..|fs| - 1]);
      InsertAscending(fs[|fs| - 1], SortByNum(fs[..|fs| - 1]));
    }
  }

  /** Inserting puts a fragment behind everything not larger and in front of everything larger. */
  lemma {:induction false} InsertAt(f: Fragment, fs: seq<Fragment>, j: nat)
    requires j <= |fs|
    requires forall m :: 0 <= m < j ==> fs[m].num <= f.num
    requires forall m :: j <= m < |fs| ==> f.num < fs[m].num
    ensures Insert(f, fs) == fs[..j] + [f] + fs[j..]
  {
    if j > 0 {
      InsertAt(f, fs[1..], j - 1);
      Regroup(f, fs, j);
    }
  }

  lemma Regroup(f: Fragment, fs: seq<Fragment>, j: nat)
    requires 0 < j <= |fs|
    ensures [fs[0]] + (fs[1..][..j - 1] + [f] + fs[1..][j - 1..]) == fs[..j] + [f] + fs[j..]
  {
  }

  /** `b` is `s` with `x` put in at position `j`, and everything behind it is larger. */
  ghost predicate Sinking(b: seq<Fragment>, s: seq<Fragment>, x: Fragment, j: nat) {
    && j <= |s| && |b| == |s| + 1 && b[j] == x
    && (forall m :: 0 <= m < j ==> b[m] == s[m])
    && (forall m :: j <= m < |s| ==> b[m + 1] == s[m] && x.num < s[m].num)
  }

  lemma SinkStep(b: seq<Fragment>, s: seq<Fragment>, x: Fragment, j: nat)
    requires 0 < j && Sinking(b, s, x, j) && x.num < b[j - 1].num
    ensures Sinking(b[j := b[j - 1]][j - 1 := x], s, x, j - 1)
  {
  }

  lemma Sunk(b: seq<Fragment>, s: seq<Fragment>, x: Fragment, j: nat)
    requires Sinking(b, s, x, j) && Ascending(s) && (j > 0 ==> s[j - 1].num <= x.num)
    ensures b == Insert(x, s)
  {
    InsertAt(x, s, j);
    assert b == s[..j] + [x] + s[j..];
  }

  /** Sink the element at `n` into the ascending prefix before it, by swaps. */
  method SinkInto(a: array<Fragment>, n: nat)
    requires n < a.Length && Ascending(a[..n])
    modifies a
    ensures a[..n + 1] == Insert(old(a[n]), old(a[..n]))
    ensures a[n + 1..] == old(a[n + 1..])
  {
    hide Insert, Ascending, Sinking;
    var j := n;
    ghost var s, x := a[..n], a[n];
    Unsunk(a[..n + 1], s, x);
    while j > 0 && a[j].num < a[j - 1].num
      invariant 0 <= j <= n && a[j] == x && Sinking(a[..n + 1], s, x, j)
      invariant a[n + 1..] == old(a[n + 1..])
    {
      ghost var b := a[..n + 1];
      SinkStep(b, s, x, j);
      a[j], a[j - 1] := a[j - 1], a[j];
      assert a[..n + 1] == b[j := b[j - 1]][j - 1 := x];
      j := j - 1;
    }
    Below(a[..n + 1], s, x, j);
    Sunk(a[..n + 1], s, x, j);
  }

  lemma Unsunk(b: seq<Fragment>, s: seq<Fragment>, x: Fragment)
    requires b == s + [x]
    ensures Sinking(b, s, x, |s|)
  {
  }

  lemma Below(b: seq<Fragment>, s: seq<Fragment>, x: Fragment, j: nat)
    requires Sinking(b, s, x, j)
    ensures j > 0 ==> j <= |s| && b[j - 1] == s[j - 1]
  {
  }

  /** The stable sort by fragment number, in place. */
  method SortInPlace(a: array<Fragment>)
    modifies a
    ensures a[..] == SortByNum(old(a[..]))
  {
    hide SortByNum, Insert;
    ghost var was := a[..];
    SortNothing();
    for n := 0 to a.Length
      invariant a[..n] == SortByNum(was[..n]) && a[n..] == was[n..]
    {
      SortAscending(was[..n]);
      SortNext(was, n);
      assert a[n] == a[n..][0] && was[n] == was[n..][0] && a[n + 1..] == a[n..][1..] && was[n + 1..] == was[n..][1..];
      SinkInto(a, n);
    }
    assert a[..] == a[..a.Length] && was[..a.Length] == was;
  }

  lemma SortNothing()
    ensures SortByNum([]) == []
  {
  }

  lemma SortNext(fs: seq<Fragment>, n: nat)
    requires n < |fs|
    ensures SortByNum(fs[..n + 1]) == Insert(fs[n], SortByNum(fs[..n]))
  {
    hide Insert;
    assert fs[..n + 1][..n] == fs[..n];
  }

  /** The check after sorting: position `i` holds fragment `i + 1`. */
  predicate InOrder(fs: seq<Fragment>) {
    forall i :: 0 <= i < |fs| ==> fs[i].num == AsU16(i + 1)
  }

  predicate SameTotal(fs: seq<Fragment>, total: U16) {
    forall i :: 0 <= i < |fs| ==> fs[i].total == total
  }

  function Contents(fs: seq<Fragment>): Bytes {
    if fs == [] then [] else fs[0].content + Contents(fs[1..])
  }

  function Assemble(fs: seq<Fragment>): Result<(PayloadType, Bytes)> {
    if fs == [] then Err(CryptoError(NoFragments))
    else
      var total := fs[0].total;
      if total == 0 || !SameTotal(fs, total) then Err(CryptoError(InconsistentTotal))
      else if |fs| != total then Err(CryptoError(WrongFragmentCount))
      else
        var sorted := SortByNum(fs);
        if !InOrder(sorted) then Err(CryptoError(BadFragmentNumbers))
        else Ok((TypeFromU8(sorted[0].nextPayload), Contents(sorted)))
  }

  function Reassemble(c: Crypto, messages: seq<Bytes>, skE: Bytes): Result<(PayloadType, Bytes)> {
    var fs :- OpenAll(c, messages, skE);
    Assemble(fs)
  }

  /** The source's loops: open every message, ... */
  method OpenMessages(c: Crypto, messages: seq<Bytes>, skE: Bytes) returns (r: Result<seq<Fragment>>)
    ensures r == OpenAll(c, messages, skE)
  {
    hide OpenFragment;
    var frags: seq<Fragment> := [];
    assert messages[0..] == messages;
    PrependNothing(OpenAll(c, messages, skE));
    for i := 0 to |messages|
      invariant OpenAll(c, messages, skE) == Prepend(frags, OpenAll(c, messages[i..], skE))
    {
      var f := OpenFragment(c, messages[i], skE);
      if f.Err? {
        return Err(f.error);
      }
      assert messages[i..][1..] == messages[i + 1..];
      PrependTwice(frags, [f.value], OpenAll(c, messages[i + 1..], skE));
      frags := frags + [f.value];
    }
    assert messages[|messages|..] == [] && frags + [] == frags;
    return Ok(frags);
  }

  /** ... concatenate the contents, ... */
  method Join(fs: seq<Fragment>) returns (inner: Bytes)
    ensures inner == Contents(fs)
  {
    inner := [];
    assert fs[0..] == fs;
    for i := 0 to |fs|
      invariant inner + Contents(fs[i..]) == Contents(fs)
    {
      assert fs[i..][1..] == fs[i + 1..];
      assert inner + (fs[i].content + Contents(fs[i + 1..])) == inner + fs[i].content + Contents(fs[i + 1..]);
      inner := inner + fs[i].content;
    }
    assert fs[|fs|..] == [];
  }

  /** ... and between the two compare totals and check the sorted numbers. */
  method ReassembleMessages(c: Crypto, messages: seq<Bytes>, skE: Bytes) returns (r: Result<(PayloadType, Bytes)>)
    ensures r == Reassemble(c, messages, skE)
  {
    hide OpenAll, SortByNum, TypeFromU8, Contents;
    var frags :- OpenMessages(c, messages, skE);
    if frags == [] {
      return Err(CryptoError(NoFragments));
    }
    var total := frags[0].total;
    if total == 0 || exists i :: 0 <= i < |frags| && frags[i].total != total {
      return Err(CryptoError(InconsistentTotal));
    }
    if |frags| != total {
      return Err(CryptoError(WrongFragmentCount));
    }
    var a := new Fragment[|frags|](i requires 0 <= i < |frags| => frags[i]);
    assert a[..] == frags;
    SortInPlace(a);
    var sorted := a[..];
    for i := 0 to |sorted|
      invariant forall j :: 0 <= j < i ==> sorted[j].num == AsU16(j + 1)
    {
      if sorted[i].num != AsU16(i + 1) {
        return Err(CryptoError(BadFragmentNumbers));
      }
    }
    var inner := Join(sorted);
    return Ok((TypeFromU8(sorted[0].nextPayload), inner));
  }
}
