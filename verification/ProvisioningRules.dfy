/** Provisioning check by check: what a finished run has seen, and that an honest guardian passes. */
module ProvisioningRules {
  import opened Text
  import opened Rosters
  import opened KpBatch
  import opened KpHistory
  import opened Provisioning

  /** Nothing has been installed in the guardian. */
  predicate IsBlank(info: Info) {
    && info.stage == None && info.instance == None && info.deployment == None && info.configHash == None
    && info.genesisHash == None && info.btcKey == None && info.limiterState == None && info.limiterConfig == None
    && info.epoch == None && info.masterG == None
  }

  /** The guardian after initialization for withdrawals, and no further. */
  function Armed(d: Digests, blank: Info, config: Config, instance: Instance, hash: Option<Digest>,
                 masterG: string): Info
  {
    blank.(stage := Some(WithdrawReady), instance := Some(instance), deployment := Some(d.summary(config.deployment)),
           configHash := Some(d.config(config.limiter, config.deployment)), genesisHash := hash,
           limiterConfig := Some(config.limiter), objectId := Some(config.objectId), masterG := Some(masterG))
  }

  function ArmedRecord(d: Digests, blank: Info, config: Config, instance: Instance, hash: Option<Digest>,
                       masterG: string): Record
  {
    Record(blank.signingKey, blank.encryptionKey, config.deployment,
           Some(Withdraw(instance, d.config(config.limiter, config.deployment), config.limiter, config.objectId,
                         masterG, hash)))
  }

  /** Genesis is asked for where there is none and the chain has its committee, or not asked for where there is one. */
  predicate GenesisDecided(go: bool, latest: Option<Committee>, chain: Option<Chain>) {
    if go then latest.None? && chain.Some? && chain.value.committee.Some? && chain.value.masterG.Some?
    else latest.Some?
  }

  function GenesisHash(d: Digests, go: bool, chain: Option<Chain>, objectId: string): Option<Digest> {
    if go && chain.Some? && chain.value.committee.Some? && chain.value.masterG.Some? then
      Some(d.genesis(GenesisState(chain.value.committee.value, objectId, chain.value.masterG.value)))
    else None
  }

  /** Against a guardian that installs and records what it is given, the operator finishes exactly when it should. */
  lemma HonestOperator(d: Digests, pgp: Pgp, config: Config, go: bool, r: OperatorReplies, pre: Seen, c: Ceremony,
                       masterG: string)
    requires r.latest.Some? && r.preflight == Some(pre) && r.ceremony == Some(c) && r.initOk
    requires var hash := GenesisHash(d, go, r.chain, config.objectId);
             && r.post == Some(Seen(pre.session, Armed(d, pre.info, config, c.instance, hash, masterG)))
             && r.record(pre.session) == Some(ArmedRecord(d, pre.info, config, c.instance, hash, masterG))
    ensures OperatorRun(d, pgp, config, go, r).Ok? <==>
            && IsBlank(pre.info) && GenesisDecided(go, r.latest.value, r.chain)
            && c.instance.params == config.params && VerifyRecipients(pgp, c.shares, config.certs)
    ensures OperatorRun(d, pgp, config, go, r).Ok? ==>
              OperatorRun(d, pgp, config, go, r).value ==
              Binding(pre.session, d.config(config.limiter, config.deployment),
                      GenesisHash(d, go, r.chain, config.objectId), c.instance)
  {
    hide VerifyRecipients;
  }

  /** The record of a ceremony-only guardian is matched by a guardian with nothing for withdrawals. */
  lemma CeremonyRecord(d: Digests, record: Record, info: Info)
    requires record.withdraw.None?
    ensures MatchesRecord(d, record, info) <==>
            && info.encryptionKey == record.encryptionKey && info.objectId == None
            && IsBlank(info.(stage := None, deployment := None))
            && info.stage == Some(CeremonyReady) && info.deployment == Some(d.summary(record.deployment))
  {
  }

  /** What a guardian shows, and its record holds, when it is armed for a binding. */
  predicate ShowsArmed(d: Digests, config: Config, info: Info, record: Record, b: Binding) {
    && info.stage == Some(WithdrawReady) && info.deployment == Some(d.summary(config.deployment))
    && info.limiterConfig == Some(config.limiter) && info.btcKey == None && info.limiterState == None
    && info.epoch == None && info.configHash == Some(b.configHash) && info.genesisHash == b.genesisHash
    && info.instance == Some(b.instance) && info.encryptionKey == record.encryptionKey
    && d.summary(record.deployment) == d.summary(config.deployment)
    && record.withdraw.Some?
    && record.withdraw.value.instance == b.instance && record.withdraw.value.configHash == b.configHash
    && record.withdraw.value.genesisHash == b.genesisHash && record.withdraw.value.limiter == config.limiter
    && info.objectId == Some(record.withdraw.value.objectId) && info.masterG == Some(record.withdraw.value.masterG)
  }

  /** Whatever is replied, a finished operator armed a blank guardian that kept its session and its attested key. */
  lemma OperatorSees(d: Digests, pgp: Pgp, config: Config, go: bool, r: OperatorReplies)
    requires OperatorRun(d, pgp, config, go, r).Ok?
    ensures var b := OperatorRun(d, pgp, config, go, r).value;
            && r.latest.Some? && r.preflight.Some? && r.post.Some? && r.ceremony.Some? && r.initOk
            && IsBlank(r.preflight.value.info) && GenesisDecided(go, r.latest.value, r.chain)
            && b == Binding(r.preflight.value.session, d.config(config.limiter, config.deployment),
                            GenesisHash(d, go, r.chain, config.objectId), r.ceremony.value.instance)
            && r.post.value.session == b.session && r.record(b.session).Some?
            && r.post.value.info.signingKey == r.preflight.value.info.signingKey
            && r.record(b.session).value.attestedKey == r.preflight.value.info.signingKey
            && ShowsArmed(d, config, r.post.value.info, r.record(b.session).value, b)
            && b.instance.params == config.params && VerifyRecipients(pgp, r.ceremony.value.shares, config.certs)
  {
    hide VerifyRecipients;
  }

  /** Whatever is replied, a provisioner submits to an armed, live guardian and for its own decision on genesis. */
  lemma ProvisionerSees(d: Digests, pgp: Pgp, config: Config, me: Fingerprint, go: bool, r: KpReplies)
    requires KpRun(d, pgp, config, me, go, r).Ok?
    ensures var Request(b, shareId, sealedTo) := KpRun(d, pgp, config, me, go, r).value;
            && me in config.certs && r.first.Some? && r.second == r.first && r.live
            && r.latest.Some? && r.chain.Some? && r.ceremony.Some? && r.record(b.session).Some?
            && GenesisDecided(go, r.latest.value, r.chain)
            && b == Binding(r.first.value.session, d.config(config.limiter, config.deployment),
                            GenesisHash(d, go, r.chain, config.objectId), r.ceremony.value.instance)
            && ShowsArmed(d, config, r.second.value.info, r.record(b.session).value, b)
            && r.chain.value.btcKey == Some(r.ceremony.value.btcKey)
            && b.instance.params == config.params && VerifyRecipients(pgp, r.ceremony.value.shares, config.certs)
            && sealedTo == r.second.value.info.encryptionKey
            && 1 <= shareId <= |r.ceremony.value.shares| && r.ceremony.value.shares[shareId - 1].recipient == me
            && r.opens(r.ceremony.value.shares[shareId - 1])
  {
    hide VerifyRecipients, FindShare;
    var request := KpRun(d, pgp, config, me, go, r).value;
    var shares := r.ceremony.value.shares;
    SigningIndex(shares, me);
    AssignedExact(shares, me, request.shareId);
  }
}
