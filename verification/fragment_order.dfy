/**
 What reassembly achieves: it accepts exactly the complete sets of fragments, in
 any arrival order, and returns what was split.
 */
module FragmentOrder {
  import opened Common
  import opened Primitives
  import opened Message
  import opened Sk
  import opened Fragmentation

  // ----- a complete set has one order -----

  /** Fragment `i + 1` stands at position `i`: the order every complete set is brought into. */
  predicate Complete(g: seq<Fragment>) {
    forall i :: 0 <= i < |g| ==> g[i].num == i + 1
  }

  lemma {:induction false} AtLeast(s: seq<Fragment>, k: nat)
    requires k < |s| && (forall i, j :: 0 <= i < j < |s| ==> s[i].num < s[j].num)
    requires forall i :: 0 <= i < |s| ==> 1 <= s[i].num
    ensures s[k].num >= k + 1
  {
    if k > 0 {
      AtLeast(s, k - 1);
    }
  }

  lemma {:induction false} AtMost(s: seq<Fragment>, k: nat)
    requires k < |s| && (forall i, j :: 0 <= i < j < |s| ==> s[i].num < s[j].num)
    requires forall i :: 0 <= i < |s| ==> s[i].num <= |s|
    ensures s[k].num <= k + 1
    decreases |s| - k
  {
    if k < |s| - 1 {
      AtMost(s, k + 1);
    }
  }

  lemma {:induction false} CountOnce(g: seq<Fragment>, x: Fragment)
    requires Complete(g)
    ensures multiset(g)[x] <= 1
  {
    if g != [] {
      var n := |g| - 1;
      CountOnce(g[..n], x);
      assert g == g[..n] + [g[n]];
      assert g[n] !in g[..n];
    }
  }

  lemma TwiceCounts(s: seq<Fragment>, i: nat, j: nat)
    requires i < j < |s| && s[i] == s[j]
    ensures multiset(s)[s[i]] >= 2
  {
    assert s == s[..j] + s[j..];
    assert s[i] in s[..j] && s[j] in s[j..];
    assert multiset(s) == multiset(s[..j]) + multiset(s[j..]);
  }

  /** Any ascending arrangement of a complete set is that set in order. */
  lemma OneOrder(s: seq<Fragment>, g: seq<Fragment>)
    requires Ascending(s) && Complete(g) && multiset(s) == multiset(g)
    ensures s == g
  {
    SizesAgree(s, g);
    forall i | 0 <= i < |s| ensures s[i] in g {
      assert s[i] in multiset(s);
    }
    forall i, j | 0 <= i < j < |s| ensures s[i].num < s[j].num {
      if s[i].num == s[j].num {
        SameFragment(g, s[i], s[j]);
        TwiceCounts(s, i, j);
        CountOnce(g, s[i]);
        assert false;
      }
    }
    forall k | 0 <= k < |s| ensures s[k] == g[k] {
      AtLeast(s, k);
      AtMost(s, k);
      SameFragment(g, s[k], g[k]);
    }
  }

  lemma SizesAgree(s: seq<Fragment>, g: seq<Fragment>)
    requires multiset(s) == multiset(g)
    ensures |s| == |g|
  {
    assert |multiset(s)| == |s| && |multiset(g)| == |g|;
  }

  lemma SameFragment(g: seq<Fragment>, x: Fragment, y: Fragment)
    requires Complete(g) && x in g && y in g && x.num == y.num
    ensures x == y
  {
  }

  // ----- acceptance -----

  /** `g` is the opened fragments in order: numbers 1 to the announced total, one total throughout. */
  ghost predicate Arranges(g: seq<Fragment>, fs: seq<Fragment>) {
    && multiset(g) == multiset(fs) && 1 <= |g| < 0x1_0000
    && Complete(g) && SameTotal(g, |g|)
  }

  lemma TotalsAgree(fs: seq<Fragment>, g: seq<Fragment>, total: U16)
    requires multiset(fs) == multiset(g)
    ensures SameTotal(fs, total) <==> SameTotal(g, total)
  {
    forall i | 0 <= i < |fs| ensures fs[i] in g {
      assert fs[i] in multiset(fs);
    }
    forall i | 0 <= i < |g| ensures g[i] in fs {
      assert g[i] in multiset(g);
    }
  }

  /** Assembling succeeds on every arrangement of a complete set, with the set's own contents. */
  lemma AssembleComplete(fs: seq<Fragment>, g: seq<Fragment>)
    requires Arranges(g, fs)
    ensures Assemble(fs) == Ok((TypeFromU8(g[0].nextPayload), Contents(g)))
  {
    hide SortByNum, TypeFromU8, Contents;
    SortAscending(fs);
    OneOrder(SortByNum(fs), g);
    SizesAgree(fs, g);
    TotalsAgree(fs, g, |g|);
  }

  /** And only on those. */
  lemma AssembleExact(fs: seq<Fragment>)
    requires Assemble(fs).Ok?
    ensures Arranges(SortByNum(fs), fs)
  {
    hide SortByNum, TypeFromU8, Contents;
    TotalsAgree(fs, SortByNum(fs), fs[0].total);
  }

  // ----- opening commutes with reordering -----

  lemma {:induction false} OpenAllIs(c: Crypto, ms: seq<Bytes>, skE: Bytes)
    ensures OpenAll(c, ms, skE).Ok? <==> forall i :: 0 <= i < |ms| ==> OpenFragment(c, ms[i], skE).Ok?
    ensures OpenAll(c, ms, skE).Ok? ==> forall i :: 0 <= i < |ms| ==>
      OpenAll(c, ms, skE).value[i] == OpenFragment(c, ms[i], skE).value
  {
    hide OpenFragment;
    if ms != [] {
      OpenAllIs(c, ms[1..], skE);
      assert ms == [ms[0]] + ms[1..];
    }
  }

  lemma Without<T>(b: seq<T>, k: nat)
    requires k < |b|
    ensures multiset(b) == multiset(b[..k] + b[k + 1..]) + multiset{b[k]}
  {
    assert b == b[..k] + [b[k]] + b[k + 1..];
  }

  lemma Cancel(x: multiset<Bytes>, y: multiset<Bytes>, e: Bytes)
    requires x + multiset{e} == y + multiset{e}
    ensures x == y
  {
    forall z ensures x[z] == y[z] {
      assert (x + multiset{e})[z] == (y + multiset{e})[z];
    }
  }

  lemma TakeOut(a: seq<Bytes>, b: seq<Bytes>, k: nat)
    requires multiset(a) == multiset(b) && a != [] && k < |b| && b[k] == a[0]
    ensures multiset(b[..k] + b[k + 1..]) == multiset(a[1..])
  {
    Without(b, k);
    Without(a, 0);
    assert a[..0] + a[1..] == a[1..];
    Cancel(multiset(b[..k] + b[k + 1..]), multiset(a[1..]), a[0]);
  }

  lemma {:induction false} OpenedReorders(c: Crypto, a: seq<Bytes>, b: seq<Bytes>, skE: Bytes)
    requires multiset(a) == multiset(b) && OpenAll(c, a, skE).Ok?
    ensures OpenAll(c, b, skE).Ok?
    ensures multiset(OpenAll(c, a, skE).value) == multiset(OpenAll(c, b, skE).value)
  {
    hide OpenFragment;
    assert |multiset(a)| == |a| && |multiset(b)| == |b|;
    if a != [] {
      assert a[0] in multiset(b);
      var k :| 0 <= k < |b| && b[k] == a[0];
      TakeOut(a, b, k);
      OpenedReorders(c, a[1..], b[..k] + b[k + 1..], skE);
      OpenedSplit(c, b, k, skE);
    }
  }

  /** Putting a message that opens back among others that open. */
  lemma StillOpens(c: Crypto, b: seq<Bytes>, k: nat, skE: Bytes)
    requires k < |b| && OpenFragment(c, b[k], skE).Ok? && OpenAll(c, b[..k] + b[k + 1..], skE).Ok?
    ensures OpenAll(c, b, skE).Ok?
    ensures OpenAll(c, b, skE).value[k] == OpenFragment(c, b[k], skE).value
    ensures OpenAll(c, b[..k] + b[k + 1..], skE).value
      == OpenAll(c, b, skE).value[..k] + OpenAll(c, b, skE).value[k + 1..]
  {
    hide OpenFragment, OpenAll;
    var others := b[..k] + b[k + 1..];
    OpenAllIs(c, others, skE);
    OpenAllIs(c, b, skE);
    forall i | 0 <= i < |b| ensures OpenFragment(c, b[i], skE).Ok? {
      assert i < k ==> b[i] == others[i];
      assert i > k ==> b[i] == others[i - 1];
    }
  }

  /** Taking out one message that opens takes out exactly its fragment. */
  lemma OpenedSplit(c: Crypto, b: seq<Bytes>, k: nat, skE: Bytes)
    requires k < |b| && OpenFragment(c, b[k], skE).Ok? && OpenAll(c, b[..k] + b[k + 1..], skE).Ok?
    ensures OpenAll(c, b, skE).Ok?
    ensures multiset(OpenAll(c, b, skE).value)
         == multiset(OpenAll(c, b[..k] + b[k + 1..], skE).value) + multiset{OpenFragment(c, b[k], skE).value}
  {
    hide OpenFragment, OpenAll;
    StillOpens(c, b, k, skE);
    Without(OpenAll(c, b, skE).value, k);
  }

  /**
   Exactness, for arbitrary message lists: reassembly succeeds exactly when every
   message opens and the fragments can be arranged as 1, 2, ..., total under one
   total; the result is then read off that arrangement.
   */
  lemma ReassembleExact(c: Crypto, ms: seq<Bytes>, skE: Bytes)
    ensures Reassemble(c, ms, skE).Ok? <==>
      OpenAll(c, ms, skE).Ok? && exists g: seq<Fragment> :: Arranges(g, OpenAll(c, ms, skE).value)
    ensures OpenAll(c, ms, skE).Ok? ==> forall g: seq<Fragment> :: Arranges(g, OpenAll(c, ms, skE).value) ==>
      Reassemble(c, ms, skE) == Ok((TypeFromU8(g[0].nextPayload), Contents(g)))
  {
    hide OpenAll, Assemble, TypeFromU8, Contents, Complete, SameTotal;
    if OpenAll(c, ms, skE).Ok? {
      var fs := OpenAll(c, ms, skE).value;
      assert Reassemble(c, ms, skE) == Assemble(fs);
      forall g: seq<Fragment> | Arranges(g, fs)
        ensures Assemble(fs) == Ok((TypeFromU8(g[0].nextPayload), Contents(g)))
      {
        AssembleComplete(fs, g);
      }
      if Assemble(fs).Ok? {
        AssembleExact(fs);
        assert exists g: seq<Fragment> :: Arranges(g, fs);
      } else if g: seq<Fragment> :| Arranges(g, fs) {
        AssembleComplete(fs, g);
        assert false;
      }
    } else {
      assert Reassemble(c, ms, skE).Err?;
    }
  }

  /** Which check fails, if one does, and the result, if none does, depend on the set of fragments alone. */
  lemma AssembleReorders(fs: seq<Fragment>, gs: seq<Fragment>)
    requires multiset(fs) == multiset(gs)
    ensures Assemble(fs) == Assemble(gs)
  {
    hide SortByNum, TypeFromU8, Contents;
    SizesAgree(fs, gs);
    if fs != [] {
      var t := fs[0].total;
      assert gs[0] in multiset(fs);
      TotalsAgree(fs, gs, t);
      if SameTotal(fs, t) && |fs| == t {
        SortsAgree(fs, gs);
        SortsAgree(gs, fs);
      } else {
        TotalsAgree(fs, gs, gs[0].total);
      }
    }
  }

  lemma NumbersFit(g: seq<Fragment>)
    requires InOrder(g) && |g| < 0x1_0000
    ensures Complete(g)
  {
  }

  lemma SortsAgree(fs: seq<Fragment>, gs: seq<Fragment>)
    requires multiset(fs) == multiset(gs) && |fs| < 0x1_0000
    ensures InOrder(SortByNum(fs)) ==> SortByNum(gs) == SortByNum(fs)
  {
    hide SortByNum, Ascending;
    if InOrder(SortByNum(fs)) {
      SortAscending(gs);
      NumbersFit(SortByNum(fs));
      OneOrder(SortByNum(gs), SortByNum(fs));
    }
  }

  /**
   Arrival order does not matter: the messages all open in one order exactly when they do in another,
   and then reassembly has one outcome, result or error. (Otherwise it fails on the first that does
   not open.)
   */
  lemma ArrivalOrder(c: Crypto, a: seq<Bytes>, b: seq<Bytes>, skE: Bytes)
    requires multiset(a) == multiset(b)
    ensures OpenAll(c, a, skE).Ok? <==> OpenAll(c, b, skE).Ok?
    ensures OpenAll(c, a, skE).Ok? ==> Reassemble(c, a, skE) == Reassemble(c, b, skE)
    ensures Reassemble(c, a, skE).Ok? <==> Reassemble(c, b, skE).Ok?
  {
    hide OpenAll, Assemble;
    if OpenAll(c, a, skE).Ok? {
      OpenedReorders(c, a, b, skE);
      AssembleReorders(OpenAll(c, a, skE).value, OpenAll(c, b, skE).value);
    } else if OpenAll(c, b, skE).Ok? {
      OpenedReorders(c, b, a, skE);
      assert false;
    }
  }

  /** What the fragments of `cs` open to. */
  function Opened(first: PayloadType, cs: seq<Bytes>): (fs: seq<Fragment>)
    requires |cs| < 0x1_0000
    ensures |fs| == |cs|
    ensures forall i :: 0 <= i < |cs| ==> fs[i] == Fragment(i + 1, |cs|, FirstOctet(first, i + 1), cs[i])
  {
    seq(|cs|, i requires 0 <= i < |cs| => Fragment(i + 1, |cs|, FirstOctet(first, i + 1), cs[i]))
  }

  lemma {:induction false} SealedOpens(c: Crypto, h: IkeHeader, first: PayloadType, cs: seq<Bytes>, from: nat,
                                       total: U16, skE: Bytes, ivBase: U64)
    requires from <= |cs| && |skE| == 36 && CanonicalHeader(h)
    requires forall i :: 0 <= i < |cs| ==> ChunkFits(cs[i])
    ensures var ms := SealFrom(c, h, first, cs, from, total, skE, ivBase);
      && ms.Ok? && |ms.value| == |cs| - from
      && forall i :: 0 <= i < |ms.value| ==>
           OpenFragment(c, ms.value[i], skE)
               == Ok(Fragment(AsU16(from + i + 1), total, FirstOctet(first, AsU16(from + i + 1)), cs[from + i]))
    decreases |cs| - from
  {
    hide SealFragment, OpenFragment, FirstOctet, ChunkFits, CanonicalHeader;
    if from < |cs| {
      FragmentRoundTrip(c, h, first, cs[from], AsU16(from + 1), total, skE, ivBase);
      SealedOpens(c, h, first, cs, from + 1, total, skE, ivBase);
      var ms := SealFrom(c, h, first, cs, from, total, skE, ivBase).value;
      var rest := SealFrom(c, h, first, cs, from + 1, total, skE, ivBase).value;
      assert ms[1..] == rest && forall i :: 0 < i < |ms| ==> ms[i] == rest[i - 1];
    }
  }

  lemma {:induction false} ContentsOf(fs: seq<Fragment>, cs: seq<Bytes>)
    requires |fs| == |cs| && forall i :: 0 <= i < |cs| ==> fs[i].content == cs[i]
    ensures Contents(fs) == Concat(cs)
  {
    if cs != [] {
      ContentsOf(fs[1..], cs[1..]);
    }
  }

  /** The pieces are few enough for a 16-bit total, and each fits its length field. */
  predicate Fragmentable(inner: Bytes, per: nat) {
    && per > 0 && |Pieces(inner, per)| < 0x1_0000
    && forall i :: 0 <= i < |Pieces(inner, per)| ==> ChunkFits(Pieces(inner, per)[i])
  }

  /**
   The round trip of RFC 7383: fragments of any message, arriving in any order,
   reassemble to the original first payload type and the original octets.
   */
  lemma FragmentsRoundTrip(c: Crypto, h: IkeHeader, first: PayloadType, inner: Bytes, skE: Bytes, ivBase: U64, per: nat,
                           arrived: seq<Bytes>)
    requires |skE| == 36 && CanonicalHeader(h) && CanonicalType(first) && Fragmentable(inner, per)
    requires BuildFragments(c, h, first, inner, skE, ivBase, per).Ok? ==>
      multiset(arrived) == multiset(BuildFragments(c, h, first, inner, skE, ivBase, per).value)
    ensures BuildFragments(c, h, first, inner, skE, ivBase, per).Ok?
    ensures Reassemble(c, arrived, skE) == Ok((first, inner))
  {
    hide SealFrom, OpenFragment, OpenAll, Assemble, Pieces, Contents, Concat, TypeFromU8, TypeToU8, CanonicalHeader,
         CanonicalType, ChunkFits;
    var cs := Pieces(inner, per);
    SealedOpens(c, h, first, cs, 0, |cs|, skE, ivBase);
    var sent := BuildFragments(c, h, first, inner, skE, ivBase, per).value;
    OpenAllIs(c, sent, skE);
    var fs, g := OpenAll(c, sent, skE).value, Opened(first, cs);
    assert fs == g;
    AssembleComplete(fs, g);
    ContentsOf(g, cs);
    PiecesConcat(inner, per);
    TypeCodes(first);
    assert Reassemble(c, sent, skE) == Ok((first, inner));
    ArrivalOrder(c, sent, arrived, skE);
  }

  /** With more pieces than a 16-bit total can count the set is never accepted, in any order. */
  lemma TooManyFragments(c: Crypto, h: IkeHeader, first: PayloadType, inner: Bytes, skE: Bytes, ivBase: U64, per: nat,
                         arrived: seq<Bytes>)
    requires |skE| == 36 && per > 0 && |Pieces(inner, per)| >= 0x1_0000
    requires BuildFragments(c, h, first, inner, skE, ivBase, per).Ok?
    requires multiset(arrived) == multiset(BuildFragments(c, h, first, inner, skE, ivBase, per).value)
    ensures Reassemble(c, arrived, skE).Err?
  {
    hide SealFrom, OpenAll, OpenFragment, Pieces, SortByNum, TypeFromU8, Contents;
    var cs := Pieces(inner, per);
    SealedCount(c, h, first, cs, 0, AsU16(|cs|), skE, ivBase);
    assert |multiset(arrived)| == |arrived|;
    var sent := BuildFragments(c, h, first, inner, skE, ivBase, per).value;
    assert |multiset(sent)| == |sent|;
  }

  lemma {:induction false} SealedCount(c: Crypto, h: IkeHeader, first: PayloadType, cs: seq<Bytes>, from: nat,
                                       total: U16, skE: Bytes, ivBase: U64)
    requires from <= |cs| && SealFrom(c, h, first, cs, from, total, skE, ivBase).Ok?
    ensures |SealFrom(c, h, first, cs, from, total, skE, ivBase).value| == |cs| - from
    decreases |cs| - from
  {
    hide SealFragment;
    if from < |cs| {
      SealedCount(c, h, first, cs, from + 1, total, skE, ivBase);
    }
  }
}
