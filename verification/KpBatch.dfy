/** Batches of signed submissions for a KP-set rotation: the operator's checks and the enclave's. */
module KpBatch {
  import opened Text
  import opened Sequences
  import opened Rosters

  type Session = string
  type Digest = string

  const MIN_THRESHOLD := 2

  predicate ValidParams(n: nat, t: nat) {
    MIN_THRESHOLD <= t <= n <= MAX_SHARES
  }

  /** At least two of at most 65535. */
  function NewParams(shares: nat, threshold: nat): (r: Option<Params>)
    ensures r.Some? <==> 2 <= threshold && threshold <= shares && shares <= 65_535
    ensures r.Some? ==> r.value == ParamPair(shares, threshold)
  {
    if threshold < MIN_THRESHOLD then None
    else if shares < threshold then None
    else if shares > MAX_SHARES then None
    else Some(ParamPair(shares, threshold))
  }

  datatype ParamPair = ParamPair(shares: nat, threshold: nat)

  type Params = p: ParamPair | ValidParams(p.shares, p.threshold) witness ParamPair(2, 2)

  /** A signed request; `genuine` is whether its signature verifies under the signer's certificate. */
  datatype Submission = Submission(file: string, signer: Fingerprint, genuine: bool, session: Session, shareId: nat,
                                   deployment: Digest, roster: CertRoster, params: Params)

  datatype Proposal = Proposal(session: Session, deployment: Digest, roster: CertRoster, params: Params)

  /** The dealt set as read from the log. */
  datatype Dealt = Dealt(shares: ShareRoster, params: Params)

  datatype Fault = BadSignature | OtherSession | NotAssigned | Repeated | OtherDeployment | OtherRoster | OtherParams

  datatype BatchError = Bad(index: nat, fault: Fault) | TooFew(count: nat, threshold: nat) | Empty

  // ---- The operator ----

  /** The checks that look at one submission alone. */
  predicate Valid(dealt: Dealt, proposal: Proposal, sub: Submission) {
    && sub.genuine && sub.session == proposal.session && Assigned(dealt.shares, sub.signer, sub.shareId)
    && sub.deployment == proposal.deployment && sub.roster == proposal.roster && sub.params == proposal.params
  }

  predicate DistinctIds(subs: seq<Submission>) {
    DistinctBy((sub: Submission) => sub.shareId, subs)
  }

  /** What the operator accepts. */
  predicate Acceptable(dealt: Dealt, proposal: Proposal, subs: seq<Submission>) {
    && (forall i :: 0 <= i < |subs| ==> Valid(dealt, proposal, subs[i]))
    && DistinctIds(subs)
    && |subs| >= dealt.params.threshold
  }

  /** Whether a fault is one this submission has, its predecessors being given. */
  predicate HasFault(dealt: Dealt, proposal: Proposal, earlier: seq<Submission>, sub: Submission, fault: Fault) {
    match fault
    case BadSignature => !sub.genuine
    case OtherSession => sub.session != proposal.session
    case NotAssigned => !Assigned(dealt.shares, sub.signer, sub.shareId)
    case Repeated => exists i :: 0 <= i < |earlier| && earlier[i].shareId == sub.shareId
    case OtherDeployment => sub.deployment != proposal.deployment
    case OtherRoster => sub.roster != proposal.roster
    case OtherParams => sub.params != proposal.params
  }

  /**
   The batch is accepted, unchanged, exactly when it is acceptable; otherwise the first faulty
   submission is named with a fault it has, or the count is reported.
   */
  method ValidateBatch(submissions: seq<Submission>, dealt: Dealt, proposal: Proposal)
    returns (r: Result<seq<Submission>, BatchError>)
    ensures r.Ok? <==> Acceptable(dealt, proposal, submissions)
    ensures r.Ok? ==> r.value == submissions
    ensures r.Err? && r.error.Bad? ==>
              && r.error.index < |submissions|
              && HasFault(dealt, proposal, submissions[..r.error.index], submissions[r.error.index], r.error.fault)
              && (forall i :: 0 <= i < r.error.index ==> Valid(dealt, proposal, submissions[i]))
              && DistinctIds(submissions[..r.error.index])
    ensures r.Err? && !r.error.Bad? ==> r.error == TooFew(|submissions|, dealt.params.threshold)
  {
    hide Assigned;
    var shareIds: set<nat> := {};
    var verified: seq<Submission> := [];
    for i := 0 to |submissions|
      invariant verified == submissions[..i]
      invariant forall k :: 0 <= k < i ==> Valid(dealt, proposal, submissions[k])
      invariant DistinctIds(submissions[..i])
      invariant shareIds == set k | 0 <= k < i :: submissions[k].shareId
    {
      var sub := submissions[i];
      if !sub.genuine { return Err(Bad(i, BadSignature)); }
      if sub.session != proposal.session { return Err(Bad(i, OtherSession)); }
      if !Assigned(dealt.shares, sub.signer, sub.shareId) { return Err(Bad(i, NotAssigned)); }
      if sub.shareId in shareIds {
        assert exists k :: 0 <= k < |submissions[..i]| && submissions[..i][k].shareId == sub.shareId by {
          var k :| 0 <= k < i && submissions[k].shareId == sub.shareId;
          assert submissions[..i][k] == submissions[k];
        }
        return Err(Bad(i, Repeated));
      }
      shareIds := shareIds + {sub.shareId};
      if sub.deployment != proposal.deployment { return Err(Bad(i, OtherDeployment)); }
      if sub.roster != proposal.roster { return Err(Bad(i, OtherRoster)); }
      if sub.params != proposal.params { return Err(Bad(i, OtherParams)); }
      verified := verified + [sub];
    }
    assert submissions[..|submissions|] == submissions;
    var threshold := dealt.params.threshold;
    if |verified| < threshold { return Err(TooFew(|verified|, threshold)); }
    r := NewBatch(verified);
  }

  method NewBatch(submissions: seq<Submission>) returns (r: Result<seq<Submission>, BatchError>)
    ensures r == if submissions == [] then Err(Empty) else Ok(submissions)
  {
    if submissions == [] { return Err(Empty); }
    return Ok(submissions);
  }

  // ---- What acceptance implies ----


  function Signers(subs: seq<Submission>): set<Fingerprint> {
    set i | 0 <= i < |subs| :: subs[i].signer
  }

  /** Distinct shares are distinct signers, and an accepted batch has between t and n of them. */
  lemma AcceptedSigners(dealt: Dealt, proposal: Proposal, subs: seq<Submission>)
    requires Acceptable(dealt, proposal, subs)
    ensures forall i, j :: 0 <= i < j < |subs| ==> subs[i].signer != subs[j].signer
    ensures |Signers(subs)| == |subs|
    ensures dealt.params.threshold <= |subs| <= |dealt.shares|
  {
    forall i | 0 <= i < |subs|
      ensures 1 <= subs[i].shareId <= |dealt.shares| && dealt.shares[subs[i].shareId - 1].recipient == subs[i].signer
    {
      assert Valid(dealt, proposal, subs[i]);
      AssignedExact(dealt.shares, subs[i].signer, subs[i].shareId);
    }
    SignersDistinct(dealt.shares, subs);
    var key := (sub: Submission) => sub.signer;
    DistinctCount(key, subs);
    assert Signers(subs) == KeysOf(key, subs);
    assert Signers(subs) <= Recipients(dealt.shares);
    SubsetSize(Signers(subs), Recipients(dealt.shares));
    RecipientCount(dealt.shares);
  }

  lemma SignersDistinct(shares: ShareRoster, subs: seq<Submission>)
    requires DistinctIds(subs)
    requires forall i :: 0 <= i < |subs| ==>
               1 <= subs[i].shareId <= |shares| && shares[subs[i].shareId - 1].recipient == subs[i].signer
    ensures forall i, j :: 0 <= i < j < |subs| ==> subs[i].signer != subs[j].signer
  {
    forall i, j | 0 <= i < j < |subs| ensures subs[i].signer != subs[j].signer {
      var a, b := subs[i].shareId - 1, subs[j].shareId - 1;
      assert a != b && shares[a].recipient != shares[b].recipient;
    }
  }

  /** Acceptance does not depend on the order of the files. */
  lemma OrderIrrelevant(dealt: Dealt, proposal: Proposal, subs: seq<Submission>, other: seq<Submission>)
    requires multiset(subs) == multiset(other)
    ensures Acceptable(dealt, proposal, subs) <==> Acceptable(dealt, proposal, other)
  {
    if Acceptable(dealt, proposal, subs) {
      Reordered(dealt, proposal, subs, other);
    }
    if Acceptable(dealt, proposal, other) {
      Reordered(dealt, proposal, other, subs);
    }
  }

  lemma Reordered(dealt: Dealt, proposal: Proposal, subs: seq<Submission>, other: seq<Submission>)
    requires multiset(subs) == multiset(other) && Acceptable(dealt, proposal, subs)
    ensures Acceptable(dealt, proposal, other)
  {
    hide Valid;
    DistinctBag((sub: Submission) => sub.shareId, subs, other);
    assert |multiset(subs)| == |subs| && |multiset(other)| == |other|;
    forall i | 0 <= i < |other| ensures Valid(dealt, proposal, other[i]) {
      assert other[i] in multiset(subs);
    }
  }

  /** Any sub-batch still at the threshold is accepted. */
  lemma SubBatch(dealt: Dealt, proposal: Proposal, subs: seq<Submission>, sub: seq<Submission>)
    requires Acceptable(dealt, proposal, subs) && multiset(sub) <= multiset(subs)
    ensures Acceptable(dealt, proposal, sub) <==> |sub| >= dealt.params.threshold
  {
    if |sub| >= dealt.params.threshold {
      var rest := Complement(sub, subs);
      Reordered(dealt, proposal, subs, sub + rest);
      forall i | 0 <= i < |sub| ensures sub[i] == (sub + rest)[i] {
      }
    }
  }

  // ---- The enclave ----

  datatype EnclaveError = Unauthenticated | WrongSession | WrongDeployment | Disagreement | Unassigned | TooFewShares
    | TooManyShares | ShareRefused | DuplicateShare

  /** What the enclave accepts of a batch it can open: the same proposal from all, shares that are its own. */
  predicate EnclaveAcceptable(dealt: Dealt, session: Session, deployment: Digest, opens: Submission -> bool,
                              subs: seq<Submission>) {
    && subs != []
    && (forall i :: 0 <= i < |subs| ==>
          && subs[i].genuine && subs[i].session == session && subs[i].deployment == deployment
          && subs[i].roster == subs[0].roster && subs[i].params == subs[0].params
          && Assigned(dealt.shares, subs[i].signer, subs[i].shareId) && opens(subs[i]))
    && DistinctIds(subs)
    && dealt.params.threshold <= |subs| <= dealt.params.shares
  }

  /** `verify_signed_submissions`: signatures, session, deployment, and agreement with the first. */
  method VerifySigned(subs: seq<Submission>, session: Session, deployment: Digest)
    returns (r: Result<(CertRoster, Params), EnclaveError>)
    requires subs != []
    ensures r.Ok? <==> forall i :: 0 <= i < |subs| ==>
              && subs[i].genuine && subs[i].session == session && subs[i].deployment == deployment
              && subs[i].roster == subs[0].roster && subs[i].params == subs[0].params
    ensures r.Ok? ==> r.value == (subs[0].roster, subs[0].params)
  {
    var roster: Option<CertRoster>, params: Option<Params> := None, None;
    for i := 0 to |subs|
      invariant i == 0 ==> roster == None && params == None
      invariant i > 0 ==> roster == Some(subs[0].roster) && params == Some(subs[0].params)
      invariant forall k :: 0 <= k < i ==>
        && subs[k].genuine && subs[k].session == session && subs[k].deployment == deployment
        && subs[k].roster == subs[0].roster && subs[k].params == subs[0].params
    {
      if !subs[i].genuine { return Err(Unauthenticated); }
      if subs[i].session != session { return Err(WrongSession); }
      if subs[i].deployment != deployment { return Err(WrongDeployment); }
      match roster {
        case Some(agreed) => if agreed != subs[i].roster { return Err(Disagreement); }
        case None => roster := Some(subs[i].roster);
      }
      match params {
        case Some(agreed) => if agreed != subs[i].params { return Err(Disagreement); }
        case None => params := Some(subs[i].params);
      }
    }
    return Ok((roster.value, params.value));
  }

  /** The enclave's whole decision on a batch, up to reconstructing the key. */
  method Authorize(subs: seq<Submission>, dealt: Dealt, session: Session, deployment: Digest, opens: Submission -> bool)
    returns (r: Result<(CertRoster, Params), EnclaveError>)
    requires subs != []
    ensures r.Ok? <==> EnclaveAcceptable(dealt, session, deployment, opens, subs)
    ensures r.Ok? ==> r.value == (subs[0].roster, subs[0].params)
  {
    hide Assigned;
    r := VerifySigned(subs, session, deployment);
    if r.Err? { return; }
    for i := 0 to |subs|
      invariant forall k :: 0 <= k < i ==> Assigned(dealt.shares, subs[k].signer, subs[k].shareId)
    {
      if !Assigned(dealt.shares, subs[i].signer, subs[i].shareId) { return Err(Unassigned); }
    }
    if |subs| < dealt.params.threshold { return Err(TooFewShares); }
    if |subs| > dealt.params.shares { return Err(TooManyShares); }
    for i := 0 to |subs|
      invariant forall k :: 0 <= k < i ==> opens(subs[k])
      invariant DistinctIds(subs[..i])
    {
      if !opens(subs[i]) { return Err(ShareRefused); }
      if exists k :: 0 <= k < i && subs[k].shareId == subs[i].shareId { return Err(DuplicateShare); }
      assert subs[..i + 1] == subs[..i] + [subs[i]];
    }
    assert subs[..|subs|] == subs;
  }

  /**
   Running the checks first is enough: a batch the operator accepts is accepted by the enclave and
   rotates to the operator's own proposal, and nothing else the enclave would take with that
   proposal is turned away.
   */
  lemma OperatorMatchesEnclave(dealt: Dealt, proposal: Proposal, opens: Submission -> bool, subs: seq<Submission>)
    requires |dealt.shares| == dealt.params.shares && forall i :: 0 <= i < |subs| ==> opens(subs[i])
    ensures Acceptable(dealt, proposal, subs) <==>
            && EnclaveAcceptable(dealt, proposal.session, proposal.deployment, opens, subs)
            && subs[0].roster == proposal.roster && subs[0].params == proposal.params
  {
    if Acceptable(dealt, proposal, subs) {
      AcceptedSigners(dealt, proposal, subs);
      assert forall i :: 0 <= i < |subs| ==> Valid(dealt, proposal, subs[i]);
    }
  }
}
