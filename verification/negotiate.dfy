/**
 Suite negotiation (src/ikev2/negotiate.rs).
 */
module Negotiate {
  import opened Common
  import opened PayloadBodies
  import opened KeySchedule

  datatype ChosenSuite = ChosenSuite(
    proposalNum: Byte, encrId: U16, encrKeyBits: U16, prfId: U16, integId: Option<U16>, dhId: U16)

  function KeyLengthsOf(s: ChosenSuite): KeyLengths {
    KeyLengths(32, if s.integId.Some? then 32 else 0, s.encrKeyBits / 8 + if s.encrId == AES_GCM_16 then 4 else 0)
  }

  predicate Matches(t: Transform, ttype: Byte, tid: U16, keyBits: Option<U16>) {
    t.ttype == ttype && t.tid == tid && (keyBits.Some? ==> t.keyLength == keyBits)
  }

  predicate Has(p: Proposal, ttype: Byte, tid: U16, keyBits: Option<U16>) {
    exists i :: 0 <= i < |p.transforms| && Matches(p.transforms[i], ttype, tid, keyBits)
  }

  /** The group we prefer among those a proposal lists. */
  function PickGroup(p: Proposal): Option<U16> {
    if Has(p, DH, X25519, None) then Some(X25519)
    else if Has(p, DH, MODP_2048, None) then Some(MODP_2048)
    else if Has(p, DH, MODP_1024, None) then Some(MODP_1024)
    else None
  }

  function SelectFromProposal(p: Proposal): Option<ChosenSuite> {
    if p.protocolId != PROTO_IKE then None
    else if !Has(p, PRF, PRF_HMAC_SHA2_256, None) then None
    else
      var dh := PickGroup(p);
      if dh.None? then None
      else if Has(p, ENCR, AES_GCM_16, Some(256)) then
        Some(ChosenSuite(p.num, AES_GCM_16, 256, PRF_HMAC_SHA2_256, None, dh.value))
      else if Has(p, ENCR, AES_CBC, Some(256)) && Has(p, INTEG, AUTH_HMAC_SHA2_256_128, None) then
        Some(ChosenSuite(p.num, AES_CBC, 256, PRF_HMAC_SHA2_256, Some(AUTH_HMAC_SHA2_256_128), dh.value))
      else None
  }

  function SelectFrom(ps: seq<Proposal>): Option<ChosenSuite> {
    if ps == [] then None
    else match SelectFromProposal(ps[0])
      case Some(s) => Some(s)
      case None => SelectFrom(ps[1..])
  }

  function Select(sa: SecurityAssociation): Option<ChosenSuite> {
    SelectFrom(sa.proposals)
  }

  /** The suites the library can choose at all. */
  predicate Supported(s: ChosenSuite) {
    && s.prfId == PRF_HMAC_SHA2_256 && s.encrKeyBits == 256
    && (s.dhId == X25519 || s.dhId == MODP_2048 || s.dhId == MODP_1024)
    && ( || (s.encrId == AES_GCM_16 && s.integId == None)
         || (s.encrId == AES_CBC && s.integId == Some(AUTH_HMAC_SHA2_256_128)))
  }

  /** A suite is the library's choice for a proposal: offered by it, and preferred over everything else it offers. */
  ghost predicate BestOf(s: ChosenSuite, p: Proposal) {
    && Supported(s) && s.proposalNum == p.num && p.protocolId == PROTO_IKE
    && Has(p, PRF, s.prfId, None) && Has(p, ENCR, s.encrId, Some(256)) && Has(p, DH, s.dhId, None)
    && (s.integId.Some? ==> Has(p, INTEG, s.integId.value, None))
    && (Has(p, ENCR, AES_GCM_16, Some(256)) ==> s.encrId == AES_GCM_16)
    && (Has(p, DH, X25519, None) ==> s.dhId == X25519)
    && (s.dhId == MODP_1024 ==> !Has(p, DH, MODP_2048, None))
  }

  /** Selection takes the first proposal for which some suite is acceptable, and its best suite. */
  lemma {:induction false} SelectIsFirstBest(ps: seq<Proposal>)
    ensures var r := SelectFrom(ps);
      && (r.None? ==> forall i, s :: 0 <= i < |ps| ==> !BestOf(s, ps[i]))
      && (r.Some? ==> exists k :: 0 <= k < |ps| && BestOf(r.value, ps[k])
                        && forall i, s :: 0 <= i < k ==> !BestOf(s, ps[i]))
  {
    hide Has;
    if ps != [] {
      forall s ensures BestOf(s, ps[0]) <==> SelectFromProposal(ps[0]) == Some(s) {
      }
      if SelectFromProposal(ps[0]).None? {
        SelectIsFirstBest(ps[1..]);
        var r := SelectFrom(ps);
        if r.Some? {
          var k :| 0 <= k < |ps[1..]| && BestOf(r.value, ps[1..][k])
            && forall i, s :: 0 <= i < k ==> !BestOf(s, ps[1..][i]);
          forall i, s | 0 <= i < k + 1 ensures !BestOf(s, ps[i]) {
            assert i > 0 ==> ps[i] == ps[1..][i - 1];
          }
          assert BestOf(r.value, ps[k + 1]);
        } else {
          forall i, s | 0 <= i < |ps| ensures !BestOf(s, ps[i]) {
            assert i > 0 ==> ps[i] == ps[1..][i - 1];
          }
        }
      } else {
        assert BestOf(SelectFrom(ps).value, ps[0]);
      }
    }
  }

  /** The single-suite proposal echoed in the response. */
  function ToProposal(s: ChosenSuite): Proposal {
    Proposal(s.proposalNum, PROTO_IKE, [],
      [Transform(ENCR, s.encrId, Some(s.encrKeyBits)), Transform(PRF, s.prfId, None)]
      + (if s.integId.Some? then [Transform(INTEG, s.integId.value, None)] else [])
      + [Transform(DH, s.dhId, None)])
  }

  lemma {:induction false} SelectedIsSupported(ps: seq<Proposal>)
    ensures SelectFrom(ps).Some? ==> Supported(SelectFrom(ps).value)
  {
    if ps != [] {
      SelectedIsSupported(ps[1..]);
    }
  }

  lemma EchoOffers(s: ChosenSuite)
    requires Supported(s)
    ensures var p := ToProposal(s);
      && Has(p, PRF, PRF_HMAC_SHA2_256, None)
      && (Has(p, ENCR, AES_GCM_16, Some(256)) <==> s.encrId == AES_GCM_16)
      && (Has(p, ENCR, AES_CBC, Some(256)) <==> s.encrId == AES_CBC)
      && (s.integId.Some? ==> Has(p, INTEG, AUTH_HMAC_SHA2_256_128, None))
      && (forall g :: Has(p, DH, g, None) <==> g == s.dhId)
  {
    var p := ToProposal(s);
    var n := |p.transforms|;
    assert Matches(p.transforms[0], ENCR, s.encrId, Some(256));
    assert Matches(p.transforms[1], PRF, PRF_HMAC_SHA2_256, None);
    assert s.integId.Some? ==> Matches(p.transforms[2], INTEG, s.integId.value, None);
    assert Matches(p.transforms[n - 1], DH, s.dhId, None);
  }

  /** Selecting from the echo of a suite gives that suite back, for every suite selection can produce. */
  lemma SelectEcho(sa: SecurityAssociation)
    requires Select(sa).Some?
    ensures Select(SecurityAssociation([ToProposal(Select(sa).value)])) == Select(sa)
  {
    hide Has;
    SelectedIsSupported(sa.proposals);
    var s := Select(sa).value;
    EchoOffers(s);
  }

  lemma EchoFits(s: ChosenSuite)
    ensures SaFits(SecurityAssociation([ToProposal(s)]))
    ensures |SaBytes(SecurityAssociation([ToProposal(s)]))| <= 56
  {
    hide TransformBytes;
    var p := ToProposal(s);
    ListSize(p.transforms);
    assert |ProposalBytes(p, true)| == ProposalSize(p) <= 56;
    assert [p][1..] == [];
    assert ProposalListBytes([p][1..]) == [];
    assert SaBytes(SecurityAssociation([p])) == ProposalBytes(p, true);
  }

  lemma {:induction false} ListSize(ts: seq<Transform>)
    ensures |TransformListBytes(ts)| <= 12 * |ts|
  {
    if ts != [] {
      ListSize(ts[1..]);
    }
  }
}
