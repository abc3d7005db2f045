/** Certificate and KP-set rotations under arbitrary replies, and every history that mixes them. */
module KpHistory {
  import opened Text
  import opened Rosters
  import opened KpBatch

  const MAX_U64 := 0xFFFF_FFFF_FFFF_FFFF

  type U64 = n: nat | n <= MAX_U64

  datatype Instance = Instance(sharingSeq: U64, params: Params, commitments: string)

  datatype Ceremony = Ceremony(instance: Instance, btcKey: string, certSeq: U64, shares: ShareRoster)

  /** `CeremonyState::new` over the logged instance and the logged shares. */
  function Combine(instance: Instance, btcKey: string, sharingSeq: U64, certSeq: U64, shares: ShareRoster)
    : Option<Ceremony>
  {
    if sharingSeq != instance.sharingSeq || |shares| != instance.params.shares then None
    else Some(Ceremony(instance, btcKey, certSeq, shares))
  }

  /** A ceremony's record: a key dealt for the first time, or re-dealt from one instance to another. */
  datatype Dealing =
    | NewKey(instance: Instance, btcKey: string)
    | Rotate(oldInstance: Instance, instance: Instance, btcKey: string)

  datatype Proposed = Proposed(dealing: Dealing, shares: ShareRoster)

  /** `CeremonyState::from_proposal`; a rotation that does not advance the sequence aborts the reader. */
  function FromProposal(p: Proposed): Option<Ceremony> {
    if p.dealing.Rotate? && p.dealing.instance.sharingSeq <= p.dealing.oldInstance.sharingSeq then None
    else Combine(p.dealing.instance, p.dealing.btcKey, p.dealing.instance.sharingSeq, 0, p.shares)
  }

  // ---- One certificate replaced ----

  /** What the live guardian and its session log say before the rotation. */
  datatype Live = Live(activated: bool, deployment: string, signingKey: string, loggedKey: string,
                       loggedDeployment: string, btcKey: Option<string>)

  /** Everything a certificate rotation is answered; `None` is a failed read or call. */
  datatype CertReplies = CertReplies(live: Option<Live>, latest: Option<Ceremony>, opens: Share -> bool,
                                     rotated: Option<(U64, Share)>, snapshot: U64 -> Option<ShareRoster>)

  datatype CertConfig = CertConfig(deployment: string, certs: CertRoster, params: Params, signing: Fingerprint,
                                   replacement: Cert)

  datatype CertError = NotInRoster | BadReplacement(why: RosterError) | GuardianRefused | WrongState | NotAddressed
    | CallFailed | WrongSeq | WrongShare | WrongRecipient | SnapshotMissing | SnapshotDiffers

  datatype Rotated = Rotated(certSeq: U64, shares: ShareRoster, certs: CertRoster)

  predicate LiveOk(config: CertConfig, live: Live) {
    && live.activated && live.deployment == config.deployment
    && live.loggedKey == live.signingKey && live.loggedDeployment == live.deployment && live.btcKey.Some?
  }

  predicate LatestOk(pgp: Pgp, config: CertConfig, live: Live, latest: Ceremony) {
    && latest.instance.params == config.params && live.btcKey == Some(latest.btcKey)
    && VerifyRecipients(pgp, latest.shares, config.certs)
  }

  /** The replies that come after the request has been sent. */
  function FinishCert(pgp: Pgp, config: CertConfig, certs: CertRoster, latest: Ceremony, mine: Share,
                      replies: CertReplies)
    : Result<Rotated, CertError>
  {
    match replies.rotated
    case None => Err(CallFailed)
    case Some((certSeq, share)) =>
      if latest.certSeq == MAX_U64 || certSeq != latest.certSeq + 1 then Err(WrongSeq)
      else if share.id != mine.id then Err(WrongShare)
      else if !VerifyRecipient(pgp, share, config.replacement) then Err(WrongRecipient)
      else
        match ReplaceRecipient(latest.shares, config.signing, config.replacement.fingerprint, share.ciphertext)
        case Err(why) => Err(BadReplacement(why))
        case Ok(expected) =>
          match replies.snapshot(certSeq)
          case None => Err(SnapshotMissing)
          case Some(stored) =>
            if !VerifyRecipients(pgp, stored, certs) || stored != expected then Err(SnapshotDiffers)
            else Ok(Rotated(certSeq, stored, certs))
  }

  function RotateCert(pgp: Pgp, config: CertConfig, replies: CertReplies): Result<Rotated, CertError> {
    if config.signing !in config.certs then Err(NotInRoster)
    else
      match ReplaceCert(config.certs, config.signing, config.replacement)
      case Err(why) => Err(BadReplacement(why))
      case Ok(certs) =>
        if replies.live == None then Err(CallFailed)
        else if !LiveOk(config, replies.live.value) then Err(GuardianRefused)
        else if replies.latest == None then Err(CallFailed)
        else if !LatestOk(pgp, config, replies.live.value, replies.latest.value) then Err(WrongState)
        else
          match FindShare(replies.latest.value.shares, config.signing)
          case None => Err(NotAddressed)
          case Some(mine) =>
            if !replies.opens(mine) then Err(NotAddressed)
            else FinishCert(pgp, config, certs, replies.latest.value, mine, replies)
  }

  /** Before any call: a signer outside the roster, then a replacement that cannot take its place, is refused. */
  lemma CertRefusals(pgp: Pgp, config: CertConfig, replies: CertReplies)
    ensures RotateCert(pgp, config, replies) == Err(NotInRoster) <==> config.signing !in config.certs
    ensures RotateCert(pgp, config, replies) == Err(BadReplacement(Unchanged)) <==>
            config.signing in config.certs && config.replacement.fingerprint == config.signing
    ensures config.signing in config.certs && config.replacement.fingerprint in config.certs - {config.signing} ==>
              RotateCert(pgp, config, replies) == Err(BadReplacement(AlreadyPresent))
  {
    hide LiveOk, LatestOk, FindShare, VerifyRecipients;
  }

  /** The one entry that changes: same id, new recipient. */
  predicate OneReplaced(before: ShareRoster, after: ShareRoster, k: nat, recipient: Fingerprint) {
    && |after| == |before| && k < |before|
    && after[k].id == before[k].id && after[k].recipient == recipient
    && forall i :: 0 <= i < |before| && i != k ==> after[i] == before[i]
  }

  /**
   Whatever was replied, an accepted certificate rotation steps the sequence by one, changes
   exactly the signer's entry and no share id, and leaves the shares matching the new certificates.
   */
  lemma CertFrame(pgp: Pgp, config: CertConfig, replies: CertReplies) returns (k: nat)
    requires RotateCert(pgp, config, replies).Ok?
    ensures var Rotated(certSeq, shares, certs) := RotateCert(pgp, config, replies).value;
            && replies.latest.Some?
            && certSeq == replies.latest.value.certSeq + 1
            && OneReplaced(replies.latest.value.shares, shares, k, config.replacement.fingerprint)
            && replies.latest.value.shares[k].recipient == config.signing
            && replies.rotated == Some((certSeq, shares[k])) && replies.opens(replies.latest.value.shares[k])
            && replies.latest.value.instance.params == config.params
            && replies.live.Some? && replies.live.value.activated
            && replies.live.value.deployment == config.deployment == replies.live.value.loggedDeployment
            && replies.live.value.signingKey == replies.live.value.loggedKey
            && replies.live.value.btcKey == Some(replies.latest.value.btcKey)
            && VerifyRecipients(pgp, replies.latest.value.shares, config.certs)
            && VerifyRecipients(pgp, shares, certs)
            && certs == (config.certs - {config.signing})[config.replacement.fingerprint := config.replacement]
  {
    hide VerifyRecipients, VerifyRecipient, FindShare, FinishCert;
    var latest := replies.latest.value;
    SigningIndex(latest.shares, config.signing);
    k := FinishFrame(pgp, config, ReplaceCert(config.certs, config.signing, config.replacement).value, latest, replies);
  }

  lemma FinishFrame(pgp: Pgp, config: CertConfig, certs: CertRoster, latest: Ceremony, replies: CertReplies)
    returns (k: nat)
    requires FindShare(latest.shares, config.signing).Some?
    requires FinishCert(pgp, config, certs, latest, FindShare(latest.shares, config.signing).value, replies).Ok?
    ensures var mine := FindShare(latest.shares, config.signing).value;
            var done := FinishCert(pgp, config, certs, latest, mine, replies).value;
            && k < |latest.shares| && FindShare(latest.shares, config.signing) == Some(latest.shares[k])
            && done.certSeq == latest.certSeq + 1 && done.certs == certs && VerifyRecipients(pgp, done.shares, certs)
            && OneReplaced(latest.shares, done.shares, k, config.replacement.fingerprint)
            && latest.shares[k].recipient == config.signing
            && replies.rotated == Some((done.certSeq, done.shares[k]))
  {
    hide VerifyRecipients, FindShare;
    k := IndexOf(latest.shares, config.signing);
    SigningIndex(latest.shares, config.signing);
    var share := replies.rotated.value.1;
    assert share == Share(latest.shares[k].id, config.replacement.fingerprint, share.ciphertext);
  }

  /** The enclave's side: the request names the sequence it expects. */
  function EnclaveRotateCert(latest: Ceremony, btcKey: string, expectedSeq: U64, signer: Fingerprint, shareId: nat,
                             replacement: Cert, ciphertext: string): Option<(U64, Share, ShareRoster)>
  {
    if latest.btcKey != btcKey || latest.certSeq != expectedSeq || !Assigned(latest.shares, signer, shareId)
       || latest.certSeq == MAX_U64 then None
    else
      match ReplaceRecipient(latest.shares, signer, replacement.fingerprint, ciphertext)
      case Err(_) => None
      case Ok(shares) =>
        Some((latest.certSeq + 1, Share(shareId, replacement.fingerprint, ciphertext), shares))
  }

  /** The enclave rotates exactly a signer's own share, for the key and sequence it holds, to an unused certificate. */
  lemma EnclaveCertExact(latest: Ceremony, btcKey: string, expectedSeq: U64, signer: Fingerprint, shareId: nat,
                         replacement: Cert, ciphertext: string)
    ensures var done := EnclaveRotateCert(latest, btcKey, expectedSeq, signer, shareId, replacement, ciphertext);
            && (done.Some? <==>
                  && latest.btcKey == btcKey && latest.certSeq == expectedSeq && latest.certSeq < 0xFFFF_FFFF_FFFF_FFFF
                  && 1 <= shareId <= |latest.shares| && latest.shares[shareId - 1].recipient == signer
                  && replacement.fingerprint !in Recipients(latest.shares))
            && (done.Some? ==>
                  && done.value.0 == expectedSeq + 1 && done.value.1 == done.value.2[shareId - 1]
                  && OneReplaced(latest.shares, done.value.2, shareId - 1, replacement.fingerprint)
                  && done.value.2[shareId - 1].ciphertext == ciphertext)
  {
    AssignedExact(latest.shares, signer, shareId);
    FoundExact(latest.shares, replacement.fingerprint);
    FoundExact(latest.shares, signer);
    hide FindShare, Assigned;
  }

  /** Against an enclave that follows its own rules the rotation succeeds, unless the sequence is exhausted. */
  lemma HonestRotation(pgp: Pgp, config: CertConfig, replies: CertReplies, ciphertext: string)
    requires config.signing in config.certs && config.replacement.fingerprint !in config.certs
    requires replies.live.Some? && replies.latest.Some?
    requires LiveOk(config, replies.live.value) && LatestOk(pgp, config, replies.live.value, replies.latest.value)
    requires FindShare(replies.latest.value.shares, config.signing).Some? ==>
               replies.opens(FindShare(replies.latest.value.shares, config.signing).value)
    requires var latest := replies.latest.value;
             FindShare(latest.shares, config.signing).Some? ==>
               var id := FindShare(latest.shares, config.signing).value.id;
               var done := EnclaveRotateCert(latest, latest.btcKey, latest.certSeq, config.signing, id,
                                             config.replacement, ciphertext);
               && replies.rotated == (if done == None then None else Some((done.value.0, done.value.1)))
               && (done.Some? ==> replies.snapshot(done.value.0) == Some(done.value.2))
    requires VerifyRecipient(pgp, Share(0, config.replacement.fingerprint, ciphertext), config.replacement)
    ensures RotateCert(pgp, config, replies).Ok? <==> replies.latest.value.certSeq < MAX_U64
  {
    hide VerifyRecipients, FindShare;
    var latest := replies.latest.value;
    SigningFound(pgp, latest.shares, config);
    if latest.certSeq < MAX_U64 {
      var expected := ReplaceRecipient(latest.shares, config.signing, config.replacement.fingerprint, ciphertext).value;
      var k := IndexOf(latest.shares, config.signing);
      SigningIndex(latest.shares, config.signing);
      ReplacedVerify(pgp, latest.shares, config, expected, k);
    }
  }

  lemma SigningIndex(shares: ShareRoster, signing: Fingerprint)
    requires FindShare(shares, signing).Some?
    ensures IndexOf(shares, signing) < |shares| && FindShare(shares, signing) == Some(shares[IndexOf(shares, signing)])
  {
    var k := IndexOf(shares, signing);
    assert k < |shares|;
    FindsAt(shares, k);
  }

  lemma SigningFound(pgp: Pgp, shares: ShareRoster, config: CertConfig)
    requires VerifyRecipients(pgp, shares, config.certs)
    requires config.signing in config.certs && config.replacement.fingerprint !in config.certs
    ensures FindShare(shares, config.signing).Some? && FindShare(shares, config.replacement.fingerprint).None?
    ensures Assigned(shares, config.signing, FindShare(shares, config.signing).value.id)
  {
    VerifyExact(pgp, shares, config.certs);
    assert config.replacement.fingerprint !in Recipients(shares);
  }

  lemma ReplacedRecipients(shares: ShareRoster, after: ShareRoster, k: nat, recipient: Fingerprint)
    requires OneReplaced(shares, after, k, recipient)
    ensures Recipients(after) == Recipients(shares) - {shares[k].recipient} + {recipient}
  {
    var gone := shares[k].recipient;
    forall f | f in Recipients(after) ensures f in Recipients(shares) - {gone} + {recipient} {
      var i :| 0 <= i < |after| && after[i].recipient == f;
      assert i != k ==> shares[i].recipient == f;
    }
    forall f | f in Recipients(shares) - {gone} + {recipient} ensures f in Recipients(after) {
      if f == recipient {
        assert after[k].recipient == f;
      } else {
        var i :| 0 <= i < |shares| && shares[i].recipient == f;
        assert after[i].recipient == f;
      }
    }
  }

  lemma ReplacedVerify(pgp: Pgp, before: ShareRoster, config: CertConfig, after: ShareRoster, k: nat)
    requires VerifyRecipients(pgp, before, config.certs)
    requires config.signing in config.certs && config.replacement.fingerprint !in config.certs
    requires OneReplaced(before, after, k, config.replacement.fingerprint) && before[k].recipient == config.signing
    requires VerifyRecipient(pgp, after[k], config.replacement)
    ensures VerifyRecipients(pgp, after, ReplaceCert(config.certs, config.signing, config.replacement).value)
  {
    hide FindShare, VerifyRecipient;
    var certs := ReplaceCert(config.certs, config.signing, config.replacement).value;
    VerifyExact(pgp, before, config.certs);
    VerifyExact(pgp, after, certs);
    ReplacedRecipients(before, after, k, config.replacement.fingerprint);
    hide VerifyRecipients;
    forall i | 0 <= i < |after|
      ensures after[i].recipient in certs && VerifyRecipient(pgp, after[i], certs[after[i].recipient])
    {
      if i != k {
        assert before[i].recipient != before[k].recipient;
        assert after[i].recipient != config.replacement.fingerprint;
      }
    }
  }

  // ---- The whole set re-dealt ----

  datatype SetConfig = SetConfig(certs: CertRoster, params: Params, newCerts: CertRoster, newParams: Params,
                                 session: Session, deployment: Digest)

  datatype SetReplies = SetReplies(latest: Option<Ceremony>, dealt: Option<(Instance, ShareRoster)>,
                                   logged: Option<Proposed>, confirmed: bool)

  datatype SetError = StateDiffers | BatchRefused | RpcFailed | SeqNotAdvanced | RecipientsDiffer | Inconsistent
    | ParamsDiffer | ProposalDiffers | NothingSubmitted | Unconfirmed

  function RotateSet(pgp: Pgp, config: SetConfig, subs: seq<Submission>, replies: SetReplies)
    : Result<Ceremony, SetError>
  {
    match replies.latest
    case None => Err(StateDiffers)
    case Some(latest) =>
      if latest.instance.params != config.params then Err(StateDiffers)
      else if !VerifyRecipients(pgp, latest.shares, config.certs) then Err(StateDiffers)
      else if !Acceptable(Dealt(latest.shares, latest.instance.params),
                          Proposal(config.session, config.deployment, config.newCerts, config.newParams), subs)
        then Err(BatchRefused)
      else
        match replies.dealt
        case None => Err(RpcFailed)
        case Some((instance, shares)) =>
          if instance.sharingSeq <= latest.instance.sharingSeq then Err(SeqNotAdvanced)
          else if !VerifyRecipients(pgp, shares, config.newCerts) then Err(RecipientsDiffer)
          else
            match Combine(instance, latest.btcKey, instance.sharingSeq, 0, shares)
            case None => Err(Inconsistent)
            case Some(live) =>
              if live.instance.params != config.newParams then Err(ParamsDiffer)
              else if replies.logged.None? || FromProposal(replies.logged.value) != Some(live) then Err(ProposalDiffers)
              else if !replies.confirmed then Err(Unconfirmed)
              else Ok(live)
  }

  /**
   Whatever was replied, an accepted re-deal was signed for by at least the old threshold of distinct
   old provisioners, each naming exactly the new roster and parameters that were dealt, logged and
   confirmed.
   */
  lemma SetAuthorized(pgp: Pgp, config: SetConfig, subs: seq<Submission>, replies: SetReplies)
    requires RotateSet(pgp, config, subs, replies).Ok?
    ensures var dealt := RotateSet(pgp, config, subs, replies).value;
            && replies.latest.Some? && replies.confirmed
            && replies.logged.Some? && FromProposal(replies.logged.value) == Some(dealt)
            && |Signers(subs)| >= replies.latest.value.instance.params.threshold
            && Signers(subs) <= config.certs.Keys
            && (forall i :: 0 <= i < |subs| ==>
                  subs[i].genuine && subs[i].session == config.session && subs[i].deployment == config.deployment
                  && subs[i].roster == config.newCerts && subs[i].params == dealt.instance.params)
            && Recipients(dealt.shares) == config.newCerts.Keys && |dealt.shares| == dealt.instance.params.shares
            && dealt.btcKey == replies.latest.value.btcKey
            && dealt.instance.sharingSeq > replies.latest.value.instance.sharingSeq && dealt.certSeq == 0
  {
    hide VerifyRecipients, Valid;
    var latest, dealt := replies.latest.value, RotateSet(pgp, config, subs, replies).value;
    var former := Dealt(latest.shares, latest.instance.params);
    var proposal := Proposal(config.session, config.deployment, config.newCerts, config.newParams);
    VerifyExact(pgp, latest.shares, config.certs);
    VerifyExact(pgp, dealt.shares, config.newCerts);
    AcceptedSigners(former, proposal, subs);
    Endorsed(former, proposal, subs);
  }

  lemma Endorsed(former: Dealt, proposal: Proposal, subs: seq<Submission>)
    requires Acceptable(former, proposal, subs)
    ensures Signers(subs) <= Recipients(former.shares)
    ensures forall i :: 0 <= i < |subs| ==>
              subs[i].genuine && subs[i].session == proposal.session && subs[i].deployment == proposal.deployment
              && subs[i].roster == proposal.roster && subs[i].params == proposal.params
  {
    forall i | 0 <= i < |subs| ensures Valid(former, proposal, subs[i]) && subs[i].signer in Recipients(former.shares) {
      AssignedExact(former.shares, subs[i].signer, subs[i].shareId);
      assert former.shares[subs[i].shareId - 1].recipient == subs[i].signer;
    }
  }

  /** The dealing is for the proposed certificates and parameters. */
  predicate DealsFor(pgp: Pgp, config: SetConfig, instance: Instance, shares: ShareRoster) {
    && VerifyRecipients(pgp, shares, config.newCerts)
    && instance.params == config.newParams && |shares| == config.newParams.shares
  }

  /** With the latest state matching and an acceptable batch, a dealing is accepted exactly if its sequence is later. */
  lemma HonestRedeal(pgp: Pgp, config: SetConfig, subs: seq<Submission>, latest: Ceremony, instance: Instance,
                     shares: ShareRoster)
    requires latest.instance.params == config.params && VerifyRecipients(pgp, latest.shares, config.certs)
    requires Acceptable(Dealt(latest.shares, config.params),
                        Proposal(config.session, config.deployment, config.newCerts, config.newParams), subs)
    requires DealsFor(pgp, config, instance, shares)
    ensures var logged := Proposed(Rotate(latest.instance, instance, latest.btcKey), shares);
            var replies := SetReplies(Some(latest), Some((instance, shares)), Some(logged), true);
            && (RotateSet(pgp, config, subs, replies).Ok? <==>
                  instance.sharingSeq > latest.instance.sharingSeq)
            && (RotateSet(pgp, config, subs, replies).Ok? ==>
                  RotateSet(pgp, config, subs, replies).value == Ceremony(instance, latest.btcKey, 0, shares))
  {
    hide VerifyRecipients, Acceptable;
  }

  // ---- A re-deal resumed ----

  /** What `wait` is answered: whether the guardian has dealt, its own proposal, and every confirmation. */
  datatype ResumeReplies = ResumeReplies(submitted: bool, logged: Option<Proposed>, confirmed: bool)

  /** `wait` looks at the guardian's proposal alone: not at the latest state, nor at any submission. */
  function ResumeSet(pgp: Pgp, newCerts: CertRoster, newParams: Params, replies: ResumeReplies)
    : Result<Ceremony, SetError>
  {
    if !replies.submitted then Err(NothingSubmitted)
    else if replies.logged.None? then Err(RpcFailed)
    else
      match FromProposal(replies.logged.value)
      case None => Err(Inconsistent)
      case Some(logged) =>
        if logged.instance.params != newParams then Err(ParamsDiffer)
        else if !VerifyRecipients(pgp, logged.shares, newCerts) then Err(RecipientsDiffer)
        else if !replies.confirmed then Err(Unconfirmed)
        else Ok(logged)
  }

  /** Whether a ceremony re-deals the latest one's key under a later sequence number. */
  predicate Continues(latest: Ceremony, logged: Ceremony) {
    logged.instance.sharingSeq > latest.instance.sharingSeq && logged.btcKey == latest.btcKey
  }

  /** A proposal that records a rotation of the latest instance, with the latest key, does continue it. */
  lemma RotationContinues(pgp: Pgp, latest: Ceremony, newCerts: CertRoster, newParams: Params, replies: ResumeReplies)
    requires ResumeSet(pgp, newCerts, newParams, replies).Ok?
    requires var dealing := replies.logged.value.dealing;
             dealing.Rotate? && dealing.oldInstance == latest.instance && dealing.btcKey == latest.btcKey
    ensures Continues(latest, ResumeSet(pgp, newCerts, newParams, replies).value)
  {
    hide VerifyRecipients;
  }

  /** A confirmed rotation of the latest instance is resumed exactly when it has a later sequence. */
  lemma HonestResume(pgp: Pgp, newCerts: CertRoster, latest: Ceremony, instance: Instance, shares: ShareRoster)
    requires VerifyRecipients(pgp, shares, newCerts) && |shares| == instance.params.shares
    ensures var logged := Proposed(Rotate(latest.instance, instance, latest.btcKey), shares);
            var replies := ResumeReplies(true, Some(logged), true);
            && (ResumeSet(pgp, newCerts, instance.params, replies).Ok? <==>
                  instance.sharingSeq > latest.instance.sharingSeq)
            && (ResumeSet(pgp, newCerts, instance.params, replies).Ok? ==>
                  ResumeSet(pgp, newCerts, instance.params, replies).value
                  == Ceremony(instance, latest.btcKey, 0, shares))
  {
    hide VerifyRecipients;
  }

  /** Whatever is replied, a resumed re-deal was submitted, dealt to the new roster as configured, and confirmed. */
  lemma ResumeChecks(pgp: Pgp, newCerts: CertRoster, newParams: Params, replies: ResumeReplies)
    requires ResumeSet(pgp, newCerts, newParams, replies).Ok?
    ensures var dealt := ResumeSet(pgp, newCerts, newParams, replies).value;
            && replies.submitted && replies.confirmed && replies.logged.Some?
            && FromProposal(replies.logged.value) == Some(dealt)
            && dealt.instance.params == newParams && |dealt.shares| == newParams.shares
            && VerifyRecipients(pgp, dealt.shares, newCerts)
  {
    hide VerifyRecipients;
  }

  /** What a logged proposal reads as: a rotation must advance the sequence, and shares must be as many as dealt. */
  lemma ProposalExact(p: Proposed)
    ensures FromProposal(p).Some? <==>
            && |p.shares| == p.dealing.instance.params.shares
            && (p.dealing.Rotate? ==> p.dealing.instance.sharingSeq > p.dealing.oldInstance.sharingSeq)
    ensures FromProposal(p).Some? ==>
              FromProposal(p).value == Ceremony(p.dealing.instance, p.dealing.btcKey, 0, p.shares)
  {
  }

  // ---- Histories ----

  /** The latest ceremony state, and the certificates the deployment is configured with. */
  datatype View = View(state: Ceremony, certs: CertRoster)

  datatype Step =
    | CertStep(certConfig: CertConfig, certReplies: CertReplies)
    | SetStep(setConfig: SetConfig, subs: seq<Submission>, setReplies: SetReplies)
    | ResumeStep(newCerts: CertRoster, newParams: Params, resumeReplies: ResumeReplies)

  /** A step accepted by the program that ran it, on the latest state, with everything else replied at will. */
  predicate Accepts(pgp: Pgp, v: View, step: Step, v': View) {
    match step
    case CertStep(config, replies) =>
      && config.certs == v.certs && replies.latest == Some(v.state)
      && match RotateCert(pgp, config, replies) {
           case Err(_) => false
           case Ok(Rotated(certSeq, shares, certs)) =>
             v' == View(v.state.(certSeq := certSeq, shares := shares), certs)
         }
    case SetStep(config, subs, replies) =>
      && config.certs == v.certs && replies.latest == Some(v.state)
      && RotateSet(pgp, config, subs, replies) == Ok(v'.state) && v'.certs == config.newCerts
    case ResumeStep(newCerts, newParams, replies) =>
      ResumeSet(pgp, newCerts, newParams, replies) == Ok(v'.state) && v'.certs == newCerts
  }

  predicate IsHistory(pgp: Pgp, views: seq<View>, steps: seq<Step>) {
    && |views| == |steps| + 1
    && forall i :: 0 <= i < |steps| ==> Accepts(pgp, views[i], steps[i], views[i + 1])
  }

  predicate Before(a: Ceremony, b: Ceremony) {
    || a.instance.sharingSeq < b.instance.sharingSeq
    || (a.instance.sharingSeq == b.instance.sharingSeq && a.certSeq < b.certSeq)
  }

  /** The next state comes later and keeps the key. */
  predicate Advances(a: Ceremony, b: Ceremony) {
    Before(a, b) && b.btcKey == a.btcKey
  }

  /**
   Every accepted step leaves shares matching the new certificates. A step other than a resumed re-deal
   also checked the old ones, and advances; a resumed one advances exactly when the logged sequence
   exceeds the latest and the logged key is the latest.
   */
  lemma StepSound(pgp: Pgp, v: View, step: Step, v': View)
    requires Accepts(pgp, v, step, v')
    ensures VerifyRecipients(pgp, v'.state.shares, v'.certs)
    ensures !step.ResumeStep? ==> VerifyRecipients(pgp, v.state.shares, v.certs) && Advances(v.state, v'.state)
    ensures step.ResumeStep? ==> (Advances(v.state, v'.state) <==> Continues(v.state, v'.state))
    ensures step.CertStep? ==> v'.state.instance == v.state.instance && v'.state.certSeq == v.state.certSeq + 1
    ensures !step.CertStep? ==> v'.state.certSeq == 0 && |v'.state.shares| == v'.state.instance.params.shares
    ensures step.SetStep? ==> v'.state.instance.params == step.setConfig.newParams
    ensures step.ResumeStep? ==> v'.state.instance.params == step.newParams
    ensures |v.state.shares| == v.state.instance.params.shares ==> |v'.state.shares| == v'.state.instance.params.shares
  {
    hide VerifyRecipients, VerifyRecipient;
    if step.CertStep? {
      var k := CertFrame(pgp, step.certConfig, step.certReplies);
    }
  }

  /**
   A resumed re-deal of any instance and any key is accepted after any state whatever, from a proposal
   that records a new key.
   */
  lemma ResumeTakesAnyKey(pgp: Pgp, v: View, instance: Instance, btcKey: string, certs: CertRoster, shares: ShareRoster)
    requires VerifyRecipients(pgp, shares, certs) && |shares| == instance.params.shares
    ensures var replies := ResumeReplies(true, Some(Proposed(NewKey(instance, btcKey), shares)), true);
            Accepts(pgp, v, ResumeStep(certs, instance.params, replies),
                    View(Ceremony(instance, btcKey, 0, shares), certs))
  {
    hide VerifyRecipients;
  }

  /** So the key may change: a verified state has a one-step history that does not advance. */
  lemma KeyMayChange(pgp: Pgp, v: View, btcKey: string) returns (step: Step, v': View)
    requires VerifyRecipients(pgp, v.state.shares, v.certs) && |v.state.shares| == v.state.instance.params.shares
    requires btcKey != v.state.btcKey
    ensures IsHistory(pgp, [v, v'], [step]) && v'.state.btcKey == btcKey && !Advances(v.state, v'.state)
  {
    hide VerifyRecipients, Accepts;
    var instance := v.state.instance;
    step := ResumeStep(v.certs, instance.params,
                       ResumeReplies(true, Some(Proposed(NewKey(instance, btcKey), v.state.shares)), true));
    v' := View(Ceremony(instance, btcKey, 0, v.state.shares), v.certs);
    ResumeTakesAnyKey(pgp, v, instance, btcKey, v.certs, v.state.shares);
  }

  /** The share a fingerprint is assigned, or zero. */
  function ShareIdOf(v: View, f: Fingerprint): nat {
    match FindShare(v.state.shares, f) case None => 0 case Some(share) => share.id
  }

  /** Every certificate has a share, recorded under it. */
  predicate EachHasShare(v: View) {
    forall f :: f in v.certs ==>
      1 <= ShareIdOf(v, f) <= |v.state.shares| && v.state.shares[ShareIdOf(v, f) - 1].recipient == f
  }

  /** Every share is some certificate's. */
  predicate EachHasCert(v: View) {
    forall i :: 0 <= i < |v.state.shares| ==>
      v.state.shares[i].recipient in v.certs && ShareIdOf(v, v.state.shares[i].recipient) == i + 1
  }

  /** Certificates and share ids 1 to n correspond, each way. */
  predicate Bijective(v: View) {
    EachHasShare(v) && EachHasCert(v)
  }

  lemma ShareIdAt(v: View, i: nat)
    requires i < |v.state.shares|
    ensures ShareIdOf(v, v.state.shares[i].recipient) == i + 1
  {
    FindsAt(v.state.shares, i);
  }

  lemma CertHasShare(v: View, f: Fingerprint)
    requires f in Recipients(v.state.shares)
    ensures 1 <= ShareIdOf(v, f) <= |v.state.shares| && v.state.shares[ShareIdOf(v, f) - 1].recipient == f
  {
    var i :| 0 <= i < |v.state.shares| && v.state.shares[i].recipient == f;
    ShareIdAt(v, i);
  }

  lemma CertsHaveShares(v: View)
    requires Recipients(v.state.shares) == v.certs.Keys
    ensures EachHasShare(v)
  {
    hide Recipients, ShareIdOf;
    forall f | f in v.certs
      ensures 1 <= ShareIdOf(v, f) <= |v.state.shares| && v.state.shares[ShareIdOf(v, f) - 1].recipient == f
    {
      CertHasShare(v, f);
    }
  }

  lemma SharesHaveCerts(v: View)
    requires Recipients(v.state.shares) == v.certs.Keys
    ensures EachHasCert(v)
  {
    hide ShareIdOf;
    forall i | 0 <= i < |v.state.shares|
      ensures v.state.shares[i].recipient in v.certs && ShareIdOf(v, v.state.shares[i].recipient) == i + 1
    {
      assert v.state.shares[i].recipient in Recipients(v.state.shares);
      ShareIdAt(v, i);
    }
  }

  lemma VerifiedBijective(pgp: Pgp, v: View)
    requires VerifyRecipients(pgp, v.state.shares, v.certs)
    ensures Bijective(v) && Recipients(v.state.shares) == v.certs.Keys
  {
    hide VerifyRecipients, VerifyRecipient, Recipients, EachHasShare, EachHasCert;
    VerifyExact(pgp, v.state.shares, v.certs);
    CertsHaveShares(v);
    SharesHaveCerts(v);
  }

  lemma HistoryStep(pgp: Pgp, views: seq<View>, steps: seq<Step>, k: nat)
    requires IsHistory(pgp, views, steps) && k < |steps|
    ensures var v, v' := views[k], views[k + 1];
            && (Advances(v.state, v'.state) <==> (steps[k].ResumeStep? ==> Continues(v.state, v'.state)))
            && (!steps[k].ResumeStep? ==> VerifyRecipients(pgp, v.state.shares, v.certs))
            && VerifyRecipients(pgp, v'.state.shares, v'.certs)
  {
    hide Accepts, VerifyRecipients, Before;
    assert Accepts(pgp, views[k], steps[k], views[k + 1]);
    StepSound(pgp, views[k], steps[k], views[k + 1]);
  }

  /** Every resumed re-deal of the history continues the state before it. */
  predicate ResumesContinue(views: seq<View>, steps: seq<Step>)
    requires |views| == |steps| + 1
  {
    forall k :: 0 <= k < |steps| && steps[k].ResumeStep? ==> Continues(views[k].state, views[k + 1].state)
  }

  lemma AdvancesOn(a: Ceremony, b: Ceremony, c: Ceremony)
    requires Advances(a, b) && Advances(b, c)
    ensures Advances(a, c)
  {
  }

  /** Between resumed re-deals that continue, the sequence pair increases and the key stays. */
  lemma {:induction false} HistoryOrdered(pgp: Pgp, views: seq<View>, steps: seq<Step>, i: nat, j: nat)
    requires IsHistory(pgp, views, steps) && i < j < |views|
    requires forall k :: i <= k < j && steps[k].ResumeStep? ==> Continues(views[k].state, views[k + 1].state)
    ensures Advances(views[i].state, views[j].state)
    decreases j
  {
    hide Accepts, VerifyRecipients, Advances, Continues;
    HistoryStep(pgp, views, steps, j - 1);
    if i < j - 1 {
      HistoryOrdered(pgp, views, steps, i, j - 1);
      AdvancesOn(views[i].state, views[j - 1].state, views[j].state);
    }
  }

  /**
   Over every history of accepted rotations, the pair of sequence numbers strictly increases and the
   BTC master key never changes exactly when every resumed re-deal continues the state before it. And
   unconditionally, from the first step on, certificates and share ids are in bijection.
   */
  lemma HistoryInvariant(pgp: Pgp, views: seq<View>, steps: seq<Step>)
    requires IsHistory(pgp, views, steps)
    ensures (forall i, j :: 0 <= i < j < |views| ==> Advances(views[i].state, views[j].state)) <==>
            ResumesContinue(views, steps)
    ensures forall i :: 0 < i < |views| ==>
              Bijective(views[i]) && Recipients(views[i].state.shares) == views[i].certs.Keys
    ensures steps != [] && !steps[0].ResumeStep? ==>
              Bijective(views[0]) && Recipients(views[0].state.shares) == views[0].certs.Keys
  {
    hide Accepts, Bijective, Advances, Continues, VerifyRecipients, Recipients;
    if ResumesContinue(views, steps) {
      forall i, j | 0 <= i < j < |views| ensures Advances(views[i].state, views[j].state) {
        HistoryOrdered(pgp, views, steps, i, j);
      }
    }
    if forall i, j :: 0 <= i < j < |views| ==> Advances(views[i].state, views[j].state) {
      forall k | 0 <= k < |steps| && steps[k].ResumeStep? ensures Continues(views[k].state, views[k + 1].state) {
        HistoryStep(pgp, views, steps, k);
      }
    }
    forall i | 0 < i < |views|
      ensures Bijective(views[i]) && Recipients(views[i].state.shares) == views[i].certs.Keys
    {
      HistoryStep(pgp, views, steps, i - 1);
      VerifiedBijective(pgp, views[i]);
    }
    if steps != [] && !steps[0].ResumeStep? {
      HistoryStep(pgp, views, steps, 0);
      VerifiedBijective(pgp, views[0]);
    }
  }
}
