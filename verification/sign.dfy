/**
 Certificate path building (src/ikev2/sign.rs). Decoding and signature checking of
 X.509 certificates are a table of unknown functions over certificate octets.
 */
module CertPath {
  import opened Common

  datatype Pki = Pki(
    validity: Bytes -> Option<(nat, nat)>,      // notBefore, notAfter
    subject: Bytes -> Option<Bytes>,
    issuer: Bytes -> Option<Bytes>,
    isCa: Bytes -> Option<bool>,
    signedBy: (Bytes, Bytes) -> bool,           // certificate, issuer certificate
    hasDns: (Bytes, string) -> bool,
    verifyAuth: (Bytes, Bytes, Bytes) -> bool,  // leaf, AUTH data, signed octets
    caKeyHash: Bytes -> Option<Bytes>)

  const MALFORMED: IkeError := CryptoError(BadCertificate)

  function WithinValidity(pki: Pki, cert: Bytes, now: nat): Result<()> {
    var (notBefore, notAfter) :- OkOr(pki.validity(cert), MALFORMED);
    if now < notBefore || now > notAfter then Err(AuthFailed) else Ok(())
  }

  /** Whether some anchor issued `current`; a malformed anchor met on the way is an error. */
  function AnchorIssued(pki: Pki, current: Bytes, want: Bytes, anchors: seq<Bytes>): Result<bool> {
    if anchors == [] then Ok(false)
    else
      var subject :- OkOr(pki.subject(anchors[0]), MALFORMED);
      if subject == want && pki.signedBy(current, anchors[0]) then Ok(true)
      else AnchorIssued(pki, current, want, anchors[1..])
  }

  /** The first intermediate that carries the wanted subject, is a CA, and whose key verifies `current`. */
  function FindIssuer(pki: Pki, current: Bytes, want: Bytes, inters: seq<Bytes>): Option<Bytes> {
    if inters == [] then None
    else if pki.subject(inters[0]) == Some(want) && pki.isCa(inters[0]) == Some(true)
      && pki.signedBy(current, inters[0])
    then Some(inters[0])
    else FindIssuer(pki, current, want, inters[1..])
  }

  /** The climb with `hops` turns of the loop left. */
  function Climb(pki: Pki, current: Bytes, inters: seq<Bytes>, anchors: seq<Bytes>, now: nat, hops: nat): Result<()>
    decreases hops
  {
    if hops == 0 then Err(AuthFailed)
    else
      var _ :- WithinValidity(pki, current, now);
      var want :- OkOr(pki.issuer(current), MALFORMED);
      var anchored :- AnchorIssued(pki, current, want, anchors);
      if anchored then Ok(())
      else match FindIssuer(pki, current, want, inters)
        case None => Err(AuthFailed)
        case Some(inter) => Climb(pki, inter, inters, anchors, now, hops - 1)
  }

  function ValidateChain(pki: Pki, leaf: Bytes, inters: seq<Bytes>, anchors: seq<Bytes>, now: nat): Result<()> {
    Climb(pki, leaf, inters, anchors, now, |inters| + 1)
  }

  /** The source's bounded loop with its inner scans. */
  method ValidateChainLoop(pki: Pki, leaf: Bytes, inters: seq<Bytes>, anchors: seq<Bytes>, now: nat)
    returns (r: Result<()>)
    ensures r == ValidateChain(pki, leaf, inters, anchors, now)
  {
    var current := leaf;
    for hop := 0 to |inters| + 1
      invariant Climb(pki, leaf, inters, anchors, now, |inters| + 1)
        == Climb(pki, current, inters, anchors, now, |inters| + 1 - hop)
    {
      var valid := WithinValidity(pki, current, now);
      if valid.Err? {
        return Err(valid.error);
      }
      var want := OkOr(pki.issuer(current), MALFORMED);
      if want.Err? {
        return Err(want.error);
      }
      assert anchors[0..] == anchors;
      for a := 0 to |anchors|
        invariant AnchorIssued(pki, current, want.value, anchors)
          == AnchorIssued(pki, current, want.value, anchors[a..])
      {
        var subject := OkOr(pki.subject(anchors[a]), MALFORMED);
        if subject.Err? {
          return Err(subject.error);
        }
        if subject.value == want.value && pki.signedBy(current, anchors[a]) {
          return Ok(());
        }
        assert anchors[a..][1..] == anchors[a + 1..];
      }
      assert anchors[|anchors|..] == [];
      match FindIssuer(pki, current, want.value, inters) {
        case Some(inter) =>
          current := inter;
        case None =>
          return Err(AuthFailed);
      }
    }
    return Err(AuthFailed);
  }

  // ----- certification paths -----

  predicate InWindow(pki: Pki, cert: Bytes, now: nat) {
    && pki.validity(cert).Some? && pki.validity(cert).value.0 <= now <= pki.validity(cert).value.1
    && pki.issuer(cert).Some?
  }

  predicate IssuedByAnchor(pki: Pki, cert: Bytes, anchor: Bytes) {
    pki.subject(anchor).Some? && pki.subject(anchor) == pki.issuer(cert) && pki.signedBy(cert, anchor)
  }

  predicate Anchored(pki: Pki, cert: Bytes, anchors: seq<Bytes>) {
    exists k :: 0 <= k < |anchors| && IssuedByAnchor(pki, cert, anchors[k])
  }

  /** `inter` is a CA that issued `current`. */
  predicate Issued(pki: Pki, current: Bytes, inter: Bytes) {
    && pki.issuer(current).Some? && pki.issuer(current) == pki.subject(inter)
    && pki.isCa(inter) == Some(true) && pki.signedBy(current, inter)
  }

  /** Certificate `k + 1` of a path is an intermediate that issued certificate `k`. */
  predicate Link(pki: Pki, path: seq<Bytes>, k: nat, inters: seq<Bytes>)
    requires k + 1 < |path|
  {
    path[k + 1] in inters && Issued(pki, path[k], path[k + 1])
  }

  /** A chain of in-window certificates, each issued by the next, a CA among the intermediates, up to an anchor. */
  ghost predicate Path(pki: Pki, path: seq<Bytes>, inters: seq<Bytes>, anchors: seq<Bytes>, now: nat) {
    && |path| >= 1
    && (forall k :: 0 <= k < |path| ==> InWindow(pki, path[k], now))
    && (forall k :: 0 <= k < |path| - 1 ==> Link(pki, path, k, inters))
    && Anchored(pki, path[|path| - 1], anchors)
  }

  predicate AnchorsParse(pki: Pki, anchors: seq<Bytes>) {
    forall k :: 0 <= k < |anchors| ==> pki.subject(anchors[k]).Some?
  }

  /** Anchor `k` issued `cert`, and every anchor listed before it parses. */
  predicate AnchoredAt(pki: Pki, cert: Bytes, anchors: seq<Bytes>, k: nat) {
    && k < |anchors| && IssuedByAnchor(pki, cert, anchors[k])
    && forall m :: 0 <= m < k ==> pki.subject(anchors[m]).Some?
  }

  predicate AnchoredInTime(pki: Pki, cert: Bytes, anchors: seq<Bytes>) {
    exists k :: 0 <= k < |anchors| && AnchoredAt(pki, cert, anchors, k)
  }

  /** `y` is the first listed intermediate that issued `x`. */
  predicate FirstIssuer(pki: Pki, x: Bytes, y: Bytes, inters: seq<Bytes>) {
    exists n ::
      && 0 <= n < |inters| && inters[n] == y && Issued(pki, x, y)
      && forall m :: 0 <= m < n ==> !Issued(pki, x, inters[m])
  }

  /**
   The scan of the anchors says yes to an anchor listed before any malformed one, and no when all
   parse and none issued.
   */
  lemma {:induction false} AnchorIssuedIs(pki: Pki, current: Bytes, anchors: seq<Bytes>)
    requires pki.issuer(current).Some?
    ensures var r := AnchorIssued(pki, current, pki.issuer(current).value, anchors);
      && (r == Ok(true) <==> AnchoredInTime(pki, current, anchors))
      && (r == Ok(false) ==> AnchorsParse(pki, anchors) && !Anchored(pki, current, anchors))
      && (r.Err? ==> !AnchorsParse(pki, anchors))
  {
    if anchors != [] {
      var rest := anchors[1..];
      AnchorIssuedIs(pki, current, rest);
      assert forall k :: 0 < k < |anchors| ==> anchors[k] == rest[k - 1];
      InTimeTail(pki, current, anchors);
    }
  }

  lemma InTimeTail(pki: Pki, cert: Bytes, anchors: seq<Bytes>)
    requires anchors != []
    ensures AnchoredInTime(pki, cert, anchors) <==>
      AnchoredAt(pki, cert, anchors, 0) || (pki.subject(anchors[0]).Some? && AnchoredInTime(pki, cert, anchors[1..]))
  {
    var rest := anchors[1..];
    if k :| 0 <= k < |anchors| && AnchoredAt(pki, cert, anchors, k) {
      if k > 0 {
        assert AnchoredAt(pki, cert, rest, k - 1);
      }
    }
    if pki.subject(anchors[0]).Some? {
      if k :| 0 <= k < |rest| && AnchoredAt(pki, cert, rest, k) {
        assert AnchoredAt(pki, cert, anchors, k + 1);
      }
    }
  }

  lemma {:induction false} FindIssuerIs(pki: Pki, current: Bytes, inters: seq<Bytes>)
    requires pki.issuer(current).Some?
    ensures match FindIssuer(pki, current, pki.issuer(current).value, inters)
      case Some(x) => FirstIssuer(pki, current, x, inters)
      case None => forall n :: 0 <= n < |inters| ==> !Issued(pki, current, inters[n])
  {
    if inters != [] && !Issued(pki, current, inters[0]) {
      var rest := inters[1..];
      FindIssuerIs(pki, current, rest);
      assert forall n :: 0 < n < |inters| ==> inters[n] == rest[n - 1];
      if x :| FindIssuer(pki, current, pki.issuer(current).value, rest) == Some(x) {
        var n :|
          && 0 <= n < |rest| && rest[n] == x && Issued(pki, current, x)
          && forall m :: 0 <= m < n ==> !Issued(pki, current, rest[m]);
        assert inters[n + 1] == x;
      }
    }
  }

  lemma OneFirstIssuer(pki: Pki, x: Bytes, y: Bytes, inters: seq<Bytes>)
    requires FirstIssuer(pki, x, y, inters)
    ensures pki.issuer(x).Some? && FindIssuer(pki, x, pki.issuer(x).value, inters) == Some(y)
  {
    FindIssuerIs(pki, x, inters);
  }

  /**
   The paths the climb can take: each link goes to the first listed intermediate that issued the
   certificate below, no malformed anchor stands in the way, and the last certificate is anchored.
   */
  ghost predicate FirstPath(pki: Pki, path: seq<Bytes>, inters: seq<Bytes>, anchors: seq<Bytes>, now: nat) {
    && |path| >= 1
    && (forall k :: 0 <= k < |path| ==> InWindow(pki, path[k], now))
    && (forall k :: 0 <= k < |path| - 1 ==> FirstLink(pki, path, k, inters))
    && AnchoredInTime(pki, path[|path| - 1], anchors)
    && (|path| > 1 ==> AnchorsParse(pki, anchors))
  }

  predicate FirstLink(pki: Pki, path: seq<Bytes>, k: nat, inters: seq<Bytes>)
    requires k + 1 < |path|
  {
    FirstIssuer(pki, path[k], path[k + 1], inters)
  }

  lemma FirstPathIsPath(pki: Pki, path: seq<Bytes>, inters: seq<Bytes>, anchors: seq<Bytes>, now: nat)
    requires FirstPath(pki, path, inters, anchors, now)
    ensures Path(pki, path, inters, anchors, now)
  {
    hide Issued, InWindow;
    forall k | 0 <= k < |path| - 1 ensures Link(pki, path, k, inters) {
      assert FirstLink(pki, path, k, inters);
    }
    var k :| 0 <= k < |anchors| && AnchoredAt(pki, path[|path| - 1], anchors, k);
  }

  /** Soundness: a successful climb is such a path, no longer than the hops it took. */
  lemma {:induction false} ClimbSound(pki: Pki, current: Bytes, inters: seq<Bytes>, anchors: seq<Bytes>, now: nat,
                                      hops: nat)
    returns (path: seq<Bytes>)
    requires Climb(pki, current, inters, anchors, now, hops).Ok?
    ensures FirstPath(pki, path, inters, anchors, now) && path[0] == current && |path| <= hops
    decreases hops
  {
    hide AnchoredInTime, AnchorsParse, FirstIssuer, FindIssuer, AnchorIssued;
    AnchorIssuedIs(pki, current, anchors);
    if AnchorIssued(pki, current, pki.issuer(current).value, anchors) == Ok(true) {
      path := [current];
    } else {
      FindIssuerIs(pki, current, inters);
      var next := FindIssuer(pki, current, pki.issuer(current).value, inters).value;
      var rest := ClimbSound(pki, next, inters, anchors, now, hops - 1);
      path := [current] + rest;
      assert forall k :: 0 < k < |path| ==> path[k] == rest[k - 1];
      forall k | 0 <= k < |path| - 1 ensures FirstLink(pki, path, k, inters) {
        assert k > 0 ==> FirstLink(pki, rest, k - 1, inters);
      }
    }
  }

  // ----- completeness -----

  predicate Distinct(s: seq<Bytes>) {
    forall i, j :: 0 <= i < j < |s| ==> s[i] != s[j]
  }

  lemma {:induction false} DistinctCount(s: seq<Bytes>)
    requires Distinct(s)
    ensures |set x | x in s| == |s|
  {
    if s != [] {
      var n := |s| - 1;
      DistinctCount(s[..n]);
      assert (set x | x in s) == (set x | x in s[..n]) + {s[n]};
    }
  }

  lemma {:induction false} ElementCount(s: seq<Bytes>)
    ensures |set x | x in s| <= |s|
  {
    if s != [] {
      var n := |s| - 1;
      ElementCount(s[..n]);
      assert (set x | x in s) == (set x | x in s[..n]) + {s[n]};
    }
  }

  lemma SubsetCount(a: set<Bytes>, b: set<Bytes>)
    requires a <= b
    ensures |a| <= |b|
  {
    assert b == a + (b - a);
  }

  /** Pigeonhole: distinct elements drawn from `pool` are at most as many as its entries. */
  lemma Pigeonhole(s: seq<Bytes>, pool: seq<Bytes>)
    requires Distinct(s) && forall x :: x in s ==> x in pool
    ensures |s| <= |pool|
  {
    DistinctCount(s);
    ElementCount(pool);
    SubsetCount(set x | x in s, set x | x in pool);
  }

  lemma CutLoop(pki: Pki, path: seq<Bytes>, inters: seq<Bytes>, anchors: seq<Bytes>, now: nat, i: nat, j: nat)
    requires FirstPath(pki, path, inters, anchors, now) && i < j < |path| && path[i] == path[j]
    ensures FirstPath(pki, path[..i] + path[j..], inters, anchors, now)
    ensures (path[..i] + path[j..])[0] == path[0]
  {
    hide FirstIssuer, AnchoredInTime, AnchorsParse, InWindow;
    var cut := path[..i] + path[j..];
    assert forall k :: 0 <= k < |cut| ==> cut[k] == if k < i then path[k] else path[k + j - i];
    forall k | 0 <= k < |cut| - 1 ensures FirstLink(pki, cut, k, inters) {
      assert FirstLink(pki, path, if k < i then k else k + j - i, inters);
    }
  }

  /** Any such path can be cut to one that repeats no certificate, so that the hops suffice. */
  lemma {:induction false} Shorten(pki: Pki, path: seq<Bytes>, inters: seq<Bytes>, anchors: seq<Bytes>, now: nat)
    returns (short: seq<Bytes>)
    requires FirstPath(pki, path, inters, anchors, now)
    ensures FirstPath(pki, short, inters, anchors, now) && short[0] == path[0] && |short| <= |inters| + 1
    decreases |path|
  {
    hide FirstIssuer, AnchoredInTime, AnchorsParse, InWindow;
    if Distinct(path) {
      short := path;
      var tail := path[1..];
      forall x | x in tail ensures x in inters {
        var k :| 0 <= k < |tail| && tail[k] == x;
        assert FirstLink(pki, path, k, inters);
        ListedIssuer(pki, path[k], x, inters);
      }
      assert forall i :: 0 <= i < |tail| ==> tail[i] == path[i + 1];
      Pigeonhole(tail, inters);
    } else {
      var i, j :| 0 <= i < j < |path| && path[i] == path[j];
      CutLoop(pki, path, inters, anchors, now, i, j);
      short := Shorten(pki, path[..i] + path[j..], inters, anchors, now);
    }
  }

  lemma ListedIssuer(pki: Pki, x: Bytes, y: Bytes, inters: seq<Bytes>)
    requires FirstIssuer(pki, x, y, inters)
    ensures y in inters && Issued(pki, x, y)
  {
    hide Issued;
  }

  lemma {:induction false} ClimbFollows(pki: Pki, path: seq<Bytes>, inters: seq<Bytes>, anchors: seq<Bytes>, now: nat,
                                        hops: nat)
    requires FirstPath(pki, path, inters, anchors, now) && |path| <= hops
    ensures Climb(pki, path[0], inters, anchors, now, hops).Ok?
    decreases hops
  {
    hide AnchoredInTime, AnchorsParse, FirstIssuer, FindIssuer, AnchorIssued, Anchored;
    assert InWindow(pki, path[0], now);
    AnchorIssuedIs(pki, path[0], anchors);
    if !AnchoredInTime(pki, path[0], anchors) {
      assert FirstLink(pki, path, 0, inters);
      OneFirstIssuer(pki, path[0], path[1], inters);
      var rest := path[1..];
      assert forall k :: 0 <= k < |rest| ==> rest[k] == path[k + 1];
      forall k | 0 <= k < |rest| - 1 ensures FirstLink(pki, rest, k, inters) {
        assert FirstLink(pki, path, k + 1, inters);
      }
      ClimbFollows(pki, rest, inters, anchors, now, hops - 1);
    }
  }

  /**
   Path building, exactly and for all inputs: it succeeds if and only if there is a path, of whatever
   length, each of whose links goes to the first listed intermediate that issued the certificate
   below, up to an anchor listed before any malformed one (and with no malformed anchor at all when
   the path has a link). A caller can bring this about by the order of its lists.
   */
  lemma ValidateChainExactly(pki: Pki, leaf: Bytes, inters: seq<Bytes>, anchors: seq<Bytes>, now: nat)
    ensures ValidateChain(pki, leaf, inters, anchors, now).Ok? <==>
      exists path :: FirstPath(pki, path, inters, anchors, now) && path[0] == leaf
  {
    hide InWindow, FirstLink, AnchoredInTime, AnchorsParse, Climb;
    if ValidateChain(pki, leaf, inters, anchors, now).Ok? {
      var path := ClimbSound(pki, leaf, inters, anchors, now, |inters| + 1);
    }
    if path :| FirstPath(pki, path, inters, anchors, now) && path[0] == leaf {
      var short := Shorten(pki, path, inters, anchors, now);
      ClimbFollows(pki, short, inters, anchors, now, |inters| + 1);
    }
  }

  /** Every certificate a climb can stand on has at most one issuer among the intermediates. */
  ghost predicate UniqueIssuers(pki: Pki, leaf: Bytes, inters: seq<Bytes>) {
    forall x, a, b ::
      (x == leaf || x in inters) && a in inters && b in inters && Issued(pki, x, a) && Issued(pki, x, b) ==> a == b
  }

  lemma OnlyIssuerIsFirst(pki: Pki, leaf: Bytes, x: Bytes, y: Bytes, inters: seq<Bytes>)
    requires UniqueIssuers(pki, leaf, inters) && (x == leaf || x in inters) && y in inters && Issued(pki, x, y)
    ensures FirstIssuer(pki, x, y, inters)
  {
    FindIssuerIs(pki, x, inters);
    var f := FindIssuer(pki, x, pki.issuer(x).value, inters);
    if f.None? {
      assert false;
    }
    ListedIssuer(pki, x, f.value, inters);
  }

  lemma EveryPathIsFirst(pki: Pki, path: seq<Bytes>, leaf: Bytes, inters: seq<Bytes>, anchors: seq<Bytes>, now: nat)
    requires UniqueIssuers(pki, leaf, inters) && AnchorsParse(pki, anchors)
    requires Path(pki, path, inters, anchors, now) && path[0] == leaf
    ensures FirstPath(pki, path, inters, anchors, now)
  {
    hide Issued, InWindow, UniqueIssuers, FirstIssuer;
    forall k | 0 <= k < |path| - 1 ensures FirstLink(pki, path, k, inters) {
      assert Link(pki, path, k, inters);
      assert k > 0 ==> Link(pki, path, k - 1, inters);
      OnlyIssuerIsFirst(pki, leaf, path[k], path[k + 1], inters);
    }
    var last := path[|path| - 1];
    var k :| 0 <= k < |anchors| && IssuedByAnchor(pki, last, anchors[k]);
    assert AnchoredAt(pki, last, anchors, k);
  }

  /**
   In terms of certification paths at large: success implies one of at most intermediates+1
   certificates; and when issuers are unique and the anchors parse, success means that one exists.
   */
  lemma ValidateChainIff(pki: Pki, leaf: Bytes, inters: seq<Bytes>, anchors: seq<Bytes>, now: nat)
    ensures ValidateChain(pki, leaf, inters, anchors, now).Ok? ==>
      exists path :: Path(pki, path, inters, anchors, now) && path[0] == leaf && |path| <= |inters| + 1
    ensures UniqueIssuers(pki, leaf, inters) && AnchorsParse(pki, anchors) ==>
      (ValidateChain(pki, leaf, inters, anchors, now).Ok? <==>
         exists path :: Path(pki, path, inters, anchors, now) && path[0] == leaf)
  {
    hide UniqueIssuers, AnchorsParse, FirstPath, InWindow, Link, Anchored, Climb;
    if ValidateChain(pki, leaf, inters, anchors, now).Ok? {
      var path := ClimbSound(pki, leaf, inters, anchors, now, |inters| + 1);
      FirstPathIsPath(pki, path, inters, anchors, now);
    }
    if UniqueIssuers(pki, leaf, inters) && AnchorsParse(pki, anchors) {
      if path :| Path(pki, path, inters, anchors, now) && path[0] == leaf {
        EveryPathIsFirst(pki, path, leaf, inters, anchors, now);
        ValidateChainExactly(pki, leaf, inters, anchors, now);
      }
    }
  }

  /** Two intermediates with one name and one key: the greedy climb takes the first and never tries the second. */
  function CrossSigned(): Pki {
    Pki(x => Some((0, 10)),
        x => if x == [3] then Some([9]) else if x == [0] then Some([0]) else Some([7]),
        x => if x == [0] then Some([7]) else if x == [1] then Some([8]) else Some([9]),
        x => Some(true),
        (x, y) => true, (x, n) => true, (l, a, o) => true, x => None)
  }

  /** Without unique issuers completeness fails: a path exists and is not found. */
  lemma GreedyMissesAPath()
    ensures ValidateChain(CrossSigned(), [0], [[1], [2]], [[3]], 5).Err?
    ensures Path(CrossSigned(), [[0], [2]], [[1], [2]], [[3]], 5)
  {
    var pki := CrossSigned();
    assert FindIssuer(pki, [0], [7], [[1], [2]]) == Some([1]);
    assert [[1], [2]][1..] == [[2]] && [[2]][1..] == [] && [[3]][1..] == [];
    assert AnchorIssued(pki, [0], [7], [[3]]) == Ok(false);
    assert AnchorIssued(pki, [1], [8], [[3]]) == Ok(false);
    assert FindIssuer(pki, [1], [8], [[1], [2]]) == None;
    assert Climb(pki, [1], [[1], [2]], [[3]], 5, 2).Err?;
    assert Anchored(pki, [2], [[3]]) by { assert pki.subject([[3]][0]) == pki.issuer([2]); }
  }

  /** One anchor that does not parse, and one that issued every certificate. */
  function OneMalformed(): Pki {
    Pki(x => Some((0, 10)), x => if x == [9] then None else Some([7]), x => Some([7]), x => Some(true),
        (x, y) => true, (x, n) => true, (l, a, o) => true, x => None)
  }

  /** A malformed anchor defeats an existing path when it is listed first, and not when it is listed last. */
  lemma MalformedAnchorBlocks()
    ensures Path(OneMalformed(), [[0]], [], [[9], [3]], 5)
    ensures ValidateChain(OneMalformed(), [0], [], [[9], [3]], 5).Err?
    ensures ValidateChain(OneMalformed(), [0], [], [[3], [9]], 5).Ok?
  {
    var pki := OneMalformed();
    assert Anchored(pki, [0], [[9], [3]]) by { assert pki.subject([[9], [3]][1]) == pki.issuer([0]); }
    assert AnchorIssued(pki, [0], [7], [[9], [3]]).Err?;
    assert AnchorIssued(pki, [0], [7], [[3], [9]]) == Ok(true);
  }

  // ----- the full peer-certificate check -----

  /** Pinned or chained, in its window, named, and the signer of `octets`. */
  function VerifyCertAuth(pki: Pki, leaf: Bytes, inters: seq<Bytes>, trusted: seq<Bytes>, dns: Option<string>, now: nat,
                          authData: Bytes, octets: Bytes): Result<()> {
    var _ :- if leaf in trusted then WithinValidity(pki, leaf, now) else ValidateChain(pki, leaf, inters, trusted, now);
    if dns.Some? && !pki.hasDns(leaf, dns.value) then Err(AuthFailed)
    else if pki.verifyAuth(leaf, authData, octets) then Ok(())
    else Err(AuthFailed)
  }

  /** Pinned and in its window, or at the foot of a path of first listed issuers. */
  ghost predicate Trusted(pki: Pki, leaf: Bytes, inters: seq<Bytes>, trusted: seq<Bytes>, now: nat) {
    if leaf in trusted then
      pki.validity(leaf).Some? && pki.validity(leaf).value.0 <= now <= pki.validity(leaf).value.1
    else exists path :: FirstPath(pki, path, inters, trusted, now) && path[0] == leaf
  }

  /** The whole check, exactly: trusted, named as expected, and the signer of the octets. */
  lemma CertAuthExactly(pki: Pki, leaf: Bytes, inters: seq<Bytes>, trusted: seq<Bytes>, dns: Option<string>, now: nat,
                        authData: Bytes, octets: Bytes)
    ensures VerifyCertAuth(pki, leaf, inters, trusted, dns, now, authData, octets).Ok? <==>
      && Trusted(pki, leaf, inters, trusted, now)
      && (dns.Some? ==> pki.hasDns(leaf, dns.value)) && pki.verifyAuth(leaf, authData, octets)
  {
    hide ValidateChain, FirstPath;
    if leaf !in trusted {
      ValidateChainExactly(pki, leaf, inters, trusted, now);
    }
  }

  /**
   An accepted certificate is in its window, bound to the name, verified the signature, and is
   pinned or has a path.
   */
  lemma CertAuthSound(pki: Pki, leaf: Bytes, inters: seq<Bytes>, trusted: seq<Bytes>, dns: Option<string>, now: nat,
                      authData: Bytes, octets: Bytes)
    requires VerifyCertAuth(pki, leaf, inters, trusted, dns, now, authData, octets).Ok?
    ensures pki.validity(leaf).Some? && pki.validity(leaf).value.0 <= now <= pki.validity(leaf).value.1
    ensures dns.Some? ==> pki.hasDns(leaf, dns.value)
    ensures pki.verifyAuth(leaf, authData, octets)
    ensures leaf in trusted || exists path :: Path(pki, path, inters, trusted, now) && path[0] == leaf
  {
    hide AnchorIssued, FindIssuer;
    ValidateChainIff(pki, leaf, inters, trusted, now);
  }
}
