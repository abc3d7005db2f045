/** Provisioning a standby guardian: what the operator arms it with, and what each key provisioner checks. */
module Provisioning {
  import opened Text
  import opened Rosters
  import opened KpBatch
  import opened KpHistory

  type Committee = string
  type Limiter = string
  type DeploymentConfig = string
  type Summary = string

  datatype GenesisState = GenesisState(committee: Committee, objectId: string, masterG: string)

  /** The digests both sides compute. */
  datatype Digests = Digests(config: (Limiter, DeploymentConfig) -> Digest, genesis: GenesisState -> Digest,
                             summary: DeploymentConfig -> Summary)

  datatype Stage = CeremonyReady | WithdrawReady | LaterStage

  datatype Info = Info(signingKey: string, encryptionKey: string, stage: Option<Stage>, instance: Option<Instance>,
                       deployment: Option<Summary>, configHash: Option<Digest>, genesisHash: Option<Digest>,
                       btcKey: Option<string>, limiterState: Option<string>, limiterConfig: Option<Limiter>,
                       epoch: Option<nat>, objectId: Option<string>, masterG: Option<string>)

  datatype Seen = Seen(session: Session, info: Info)

  datatype Chain = Chain(committee: Option<Committee>, masterG: Option<string>, btcKey: Option<string>)

  /** A session's write-once operator-init record in the log, under the key its attestation carries. */
  datatype Record = Record(attestedKey: string, encryptionKey: string, deployment: DeploymentConfig,
                           withdraw: Option<Withdraw>)

  datatype Withdraw = Withdraw(instance: Instance, configHash: Digest, limiter: Limiter, objectId: string,
                               masterG: string, genesisHash: Option<Digest>)

  datatype Config = Config(limiter: Limiter, deployment: DeploymentConfig, objectId: string, certs: CertRoster,
                           params: Params)

  datatype Refusal = ReadFailed | GenesisExists | GenesisMissing | NoChainState | NotUninitialized | WrongRoster
    | InitFailed | SessionMoved | KeyMoved | InfoDiffers | RecordDiffers | NotLiveSession | BtcKeyDiffers
    | InstanceDiffers | ConfigDiffers | GenesisDiffers | NoShare | TargetMoved

  // ---- The genesis decision, made once on each side ----

  function OperatorGenesis(doGenesis: bool, latest: Option<Committee>, chain: Option<Chain>, objectId: string)
    : Result<Option<GenesisState>, Refusal>
  {
    if !doGenesis && latest.Some? then Ok(None)
    else if doGenesis && latest.None? then
      match chain
      case None => Err(NoChainState)
      case Some(c) =>
        if c.masterG.None? || c.committee.None? then Err(NoChainState)
        else Ok(Some(GenesisState(c.committee.value, objectId, c.masterG.value)))
    else if doGenesis then Err(GenesisExists)
    else Err(GenesisMissing)
  }

  function KpGenesis(d: Digests, doGenesis: bool, latest: Option<Committee>, chain: Chain, objectId: string)
    : Result<Option<Digest>, Refusal>
  {
    match (doGenesis, latest)
    case (false, Some(_)) => Ok(None)
    case (true, None) =>
      if chain.masterG.None? then Err(NoChainState)
      else if chain.committee.None? then Err(NoChainState)
      else Ok(Some(d.genesis(GenesisState(chain.committee.value, objectId, chain.masterG.value))))
    case (true, Some(_)) => Err(GenesisExists)
    case (false, None) => Err(GenesisMissing)
  }

  // ---- Checks on what a guardian reports ----

  predicate Uninitialized(info: Info) {
    && info.stage.None? && info.instance.None? && info.deployment.None? && info.configHash.None?
    && info.genesisHash.None? && info.btcKey.None? && info.limiterState.None? && info.limiterConfig.None?
    && info.epoch.None? && info.masterG.None?
  }

  predicate NotFurther(info: Info) {
    info.btcKey.None? && info.limiterState.None? && info.epoch.None?
  }

  predicate Initialized(d: Digests, config: Config, info: Info, instance: Instance, genesis: Option<Digest>) {
    && info.stage == Some(WithdrawReady) && info.instance == Some(instance)
    && info.deployment == Some(d.summary(config.deployment))
    && info.configHash == Some(d.config(config.limiter, config.deployment)) && info.genesisHash == genesis
    && NotFurther(info) && info.limiterConfig == Some(config.limiter)
  }

  /** `match_post_oi_guardian_info`. */
  predicate MatchesRecord(d: Digests, record: Record, info: Info) {
    && info.stage == Some(if record.withdraw.Some? then WithdrawReady else CeremonyReady)
    && info.deployment == Some(d.summary(record.deployment)) && info.encryptionKey == record.encryptionKey
    && NotFurther(info)
    && match record.withdraw
       case None =>
         && info.instance.None? && info.configHash.None? && info.limiterConfig.None? && info.objectId.None?
         && info.masterG.None? && info.genesisHash.None?
       case Some(w) =>
         && info.instance == Some(w.instance) && info.configHash == Some(w.configHash)
         && info.limiterConfig == Some(w.limiter) && info.objectId == Some(w.objectId)
         && info.masterG == Some(w.masterG) && info.genesisHash == w.genesisHash
  }

  // ---- The operator's run ----

  /** Everything the operator is answered, in order; `None` is a failed read or call. */
  datatype OperatorReplies = OperatorReplies(latest: Option<Option<Committee>>, chain: Option<Chain>,
                                             preflight: Option<Seen>, ceremony: Option<Ceremony>, initOk: bool,
                                             post: Option<Seen>, record: Session -> Option<Record>)

  /** What a run binds to its session. */
  datatype Binding = Binding(session: Session, configHash: Digest, genesisHash: Option<Digest>, instance: Instance)

  function OperatorRun(d: Digests, pgp: Pgp, config: Config, doGenesis: bool, r: OperatorReplies)
    : Result<Binding, Refusal>
  {
    if r.latest.None? then Err(ReadFailed)
    else
      match OperatorGenesis(doGenesis, r.latest.value, r.chain, config.objectId)
      case Err(why) => Err(why)
      case Ok(genesis) =>
        if r.preflight.None? then Err(ReadFailed)
        else if !Uninitialized(r.preflight.value.info) then Err(NotUninitialized)
        else if r.ceremony.None? then Err(ReadFailed)
        else if r.ceremony.value.instance.params != config.params then Err(WrongRoster)
        else if !VerifyRecipients(pgp, r.ceremony.value.shares, config.certs) then Err(WrongRoster)
        else if !r.initOk then Err(InitFailed)
        else OperatorPostcheck(d, config, genesis, r.preflight.value, r.ceremony.value.instance, r)
  }

  function OperatorPostcheck(d: Digests, config: Config, genesis: Option<GenesisState>, pre: Seen, instance: Instance,
                             r: OperatorReplies): Result<Binding, Refusal>
  {
    var genesisHash := match genesis { case None => None case Some(g) => Some(d.genesis(g)) };
    match r.post
    case None => Err(ReadFailed)
    case Some(post) =>
      if post.session != pre.session then Err(SessionMoved)
      else if post.info.signingKey != pre.info.signingKey then Err(KeyMoved)
      else if !Initialized(d, config, post.info, instance, genesisHash) then Err(InfoDiffers)
      else
        match r.record(pre.session)
        case None => Err(ReadFailed)
        case Some(record) =>
          if record.attestedKey != pre.info.signingKey then Err(KeyMoved)
          else if !MatchesRecord(d, record, post.info) then Err(RecordDiffers)
          else Ok(Binding(pre.session, d.config(config.limiter, config.deployment), genesisHash, instance))
  }

  // ---- A key provisioner's run ----

  datatype KpReplies = KpReplies(first: Option<Seen>, record: Session -> Option<Record>, live: bool,
                                 ceremony: Option<Ceremony>, chain: Option<Chain>,
                                 latest: Option<Option<Committee>>, opens: Share -> bool, second: Option<Seen>)

  /** The signed share submission. */
  datatype Request = Request(binding: Binding, shareId: nat, sealedTo: string)

  predicate StandbyReady(d: Digests, config: Config, info: Info) {
    && info.stage == Some(WithdrawReady) && info.instance.Some? && info.configHash.Some?
    && info.deployment == Some(d.summary(config.deployment)) && info.limiterConfig == Some(config.limiter)
    && NotFurther(info)
  }

  function KpRun(d: Digests, pgp: Pgp, config: Config, me: Fingerprint, doGenesis: bool, r: KpReplies)
    : Result<Request, Refusal>
  {
    if me !in config.certs then Err(WrongRoster)
    else if r.first.None? then Err(ReadFailed)
    else
      var Seen(session, info) := r.first.value;
      match r.record(session)
      case None => Err(ReadFailed)
      case Some(record) =>
        if !StandbyReady(d, config, info) then Err(InfoDiffers)
        else if !MatchesRecord(d, record, info) then Err(RecordDiffers)
        else if !r.live then Err(NotLiveSession)
        else if r.ceremony.None? || r.chain.None? then Err(ReadFailed)
        else if r.chain.value.btcKey != Some(r.ceremony.value.btcKey) then Err(BtcKeyDiffers)
        else if info.instance != Some(r.ceremony.value.instance) then Err(InstanceDiffers)
        else if info.configHash != Some(d.config(config.limiter, config.deployment)) then Err(ConfigDiffers)
        else if r.latest.None? then Err(ReadFailed)
        else
          match KpGenesis(d, doGenesis, r.latest.value, r.chain.value, config.objectId)
          case Err(why) => Err(why)
          case Ok(genesisHash) =>
            if genesisHash != info.genesisHash then Err(GenesisDiffers)
            else KpSubmit(d, pgp, config, me, genesisHash, r.first.value, r.ceremony.value, r)
  }

  function KpSubmit(d: Digests, pgp: Pgp, config: Config, me: Fingerprint, genesisHash: Option<Digest>, seen: Seen,
                    ceremony: Ceremony, r: KpReplies): Result<Request, Refusal>
  {
    if ceremony.instance.params != config.params then Err(WrongRoster)
    else if !VerifyRecipients(pgp, ceremony.shares, config.certs) then Err(WrongRoster)
    else
      match FindShare(ceremony.shares, me)
      case None => Err(NoShare)
      case Some(share) =>
        if !r.opens(share) then Err(NoShare)
        else if r.second.None? then Err(ReadFailed)
        else if r.second.value != seen then Err(TargetMoved)
        else
          var configHash := d.config(config.limiter, config.deployment);
          var binding := Binding(seen.session, configHash, genesisHash, ceremony.instance);
          Ok(Request(binding, share.id, seen.info.encryptionKey))
  }

  // ---- What a submission is worth ----

  /** A provisioner's own derivation of what a session must be bound to. */
  predicate Derives(d: Digests, config: Config, doGenesis: bool, r: KpReplies, b: Binding) {
    && r.first.Some? && r.ceremony.Some? && r.chain.Some? && r.latest.Some?
    && b.session == r.first.value.session
    && b.configHash == d.config(config.limiter, config.deployment)
    && KpGenesis(d, doGenesis, r.latest.value, r.chain.value, config.objectId) == Ok(b.genesisHash)
    && b.instance == r.ceremony.value.instance
  }

  predicate Reports(info: Info, b: Binding) {
    info.configHash == Some(b.configHash) && info.genesisHash == b.genesisHash && info.instance == Some(b.instance)
  }

  /**
   Whatever is replied, a share leaves only sealed to the guardian that was read twice alike, bound
   to exactly what the provisioner derived itself, and it is the provisioner's own share of the key
   on chain.
   */
  lemma SubmitsOnlyOwnDerivation(d: Digests, pgp: Pgp, config: Config, me: Fingerprint, doGenesis: bool, r: KpReplies)
    requires KpRun(d, pgp, config, me, doGenesis, r).Ok?
    ensures var Request(b, shareId, sealedTo) := KpRun(d, pgp, config, me, doGenesis, r).value;
            && r.second == r.first && Derives(d, config, doGenesis, r, b)
            && Reports(r.second.value.info, b) && sealedTo == r.second.value.info.encryptionKey
            && r.chain.value.btcKey == Some(r.ceremony.value.btcKey)
            && Assigned(r.ceremony.value.shares, me, shareId) && r.live
            && VerifyRecipients(pgp, r.ceremony.value.shares, config.certs) && b.instance.params == config.params
            && r.record(b.session).Some? && MatchesRecord(d, r.record(b.session).value, r.second.value.info)
  {
    hide MatchesRecord, StandbyReady, VerifyRecipients, FindShare, KpGenesis;
  }

  /** The operator finishes only with its own derivation in the session's record. */
  lemma OperatorBinds(d: Digests, pgp: Pgp, config: Config, doGenesis: bool, r: OperatorReplies)
    requires OperatorRun(d, pgp, config, doGenesis, r).Ok?
    ensures var b := OperatorRun(d, pgp, config, doGenesis, r).value;
            && r.post.Some? && b.session == r.post.value.session && Reports(r.post.value.info, b)
            && r.record(b.session).Some? && MatchesRecord(d, r.record(b.session).value, r.post.value.info)
            && b.configHash == d.config(config.limiter, config.deployment)
            && r.ceremony.Some? && b.instance == r.ceremony.value.instance
  {
    hide MatchesRecord, VerifyRecipients, Uninitialized, OperatorGenesis;
  }

  /** A record decides what its session is bound to. */
  lemma RecordDecides(d: Digests, record: Record, x: Info, y: Info, a: Binding, b: Binding)
    requires MatchesRecord(d, record, x) && MatchesRecord(d, record, y) && Reports(x, a) && Reports(y, b)
    requires a.session == b.session
    ensures a == b
  {
  }

  /** All shares submitted for one session are bound alike, whoever submits and whatever else they read. */
  lemma ProvisionersAgree(d: Digests, pgp: Pgp, config: Config, me: Fingerprint, go: bool, r: KpReplies,
                          config': Config, other: Fingerprint, go': bool, r': KpReplies)
    requires KpRun(d, pgp, config, me, go, r).Ok? && KpRun(d, pgp, config', other, go', r').Ok?
    requires var s := KpRun(d, pgp, config, me, go, r).value.binding.session;
             KpRun(d, pgp, config', other, go', r').value.binding.session == s && r.record(s) == r'.record(s)
    ensures KpRun(d, pgp, config, me, go, r).value.binding == KpRun(d, pgp, config', other, go', r').value.binding
  {
    hide KpRun, MatchesRecord;
    SubmitsOnlyOwnDerivation(d, pgp, config, me, go, r);
    SubmitsOnlyOwnDerivation(d, pgp, config', other, go', r');
    var b, b' := KpRun(d, pgp, config, me, go, r).value.binding, KpRun(d, pgp, config', other, go', r').value.binding;
    RecordDecides(d, r.record(b.session).value, r.second.value.info, r'.second.value.info, b, b');
  }

  /** And alike to what the operator armed the session with. */
  lemma OperatorAgrees(d: Digests, pgp: Pgp, config: Config, go: bool, r: OperatorReplies,
                       config': Config, me: Fingerprint, go': bool, r': KpReplies)
    requires OperatorRun(d, pgp, config, go, r).Ok? && KpRun(d, pgp, config', me, go', r').Ok?
    requires var s := OperatorRun(d, pgp, config, go, r).value.session;
             KpRun(d, pgp, config', me, go', r').value.binding.session == s && r.record(s) == r'.record(s)
    ensures KpRun(d, pgp, config', me, go', r').value.binding == OperatorRun(d, pgp, config, go, r).value
  {
    hide KpRun, OperatorRun, MatchesRecord;
    OperatorBinds(d, pgp, config, go, r);
    SubmitsOnlyOwnDerivation(d, pgp, config', me, go', r');
    var b, b' := OperatorRun(d, pgp, config, go, r).value, KpRun(d, pgp, config', me, go', r').value.binding;
    RecordDecides(d, r.record(b.session).value, r.post.value.info, r'.second.value.info, b, b');
  }

  // ---- The genesis decision across the two runs ----

  /** The same views give the same decision and the same hash. */
  lemma SameViewsAgree(d: Digests, doGenesis: bool, latest: Option<Committee>, chain: Chain, objectId: string)
    ensures KpGenesis(d, doGenesis, latest, chain, objectId) ==
            match OperatorGenesis(doGenesis, latest, Some(chain), objectId) {
              case Err(why) => Err(why)
              case Ok(None) => Ok(None)
              case Ok(Some(genesis)) => Ok(Some(d.genesis(genesis)))
            }
  {
  }

  /** If a serving committee appears after an operator armed genesis, every provisioner refuses that session. */
  lemma LateCommitteeRefused(d: Digests, pgp: Pgp, config: Config, go: bool, r: OperatorReplies,
                             config': Config, me: Fingerprint, go': bool, r': KpReplies)
    requires OperatorRun(d, pgp, config, go, r).Ok? && r.latest == Some(None)
    requires r'.latest.Some? && r'.latest.value.Some?
    requires var session := OperatorRun(d, pgp, config, go, r).value.session;
             && (r'.first.Some? ==> r'.first.value.session == session)
             && r'.record(session) == r.record(session)
    ensures KpRun(d, pgp, config', me, go', r').Err?
  {
    assert OperatorRun(d, pgp, config, go, r).value.genesisHash.Some?;
    if KpRun(d, pgp, config', me, go', r').Ok? {
      hide KpRun, OperatorRun, MatchesRecord;
      SubmitsOnlyOwnDerivation(d, pgp, config', me, go', r');
      OperatorAgrees(d, pgp, config, go, r, config', me, go', r');
      assert false;
    }
  }

  /** A provisioner that sees what a finished operator saw. */
  predicate SeesSame(r: OperatorReplies, r': KpReplies, go: bool) {
    && r'.first == r.post && r'.second == r.post && r'.ceremony == r.ceremony && r'.latest == r.latest
    && r'.chain.Some? && (go ==> r'.chain == r.chain)
    && (r.post.Some? ==> r'.record(r.post.value.session) == r.record(r.post.value.session))
  }

  /**
   The checks refuse nothing good: where the operator finished and the views have not changed, every
   provisioner of the roster submits, if the session beats, the key on chain is the dealt one and its
   own share opens; and it submits exactly then.
   */
  lemma HonestSubmits(d: Digests, pgp: Pgp, config: Config, go: bool, r: OperatorReplies, me: Fingerprint,
                      r': KpReplies)
    requires OperatorRun(d, pgp, config, go, r).Ok? && SeesSame(r, r', go) && me in config.certs
    ensures r.ceremony.Some? && FindShare(r.ceremony.value.shares, me).Some?
    ensures KpRun(d, pgp, config, me, go, r').Ok? <==>
            && r'.live && r'.chain.value.btcKey == Some(r.ceremony.value.btcKey)
            && r'.opens(FindShare(r.ceremony.value.shares, me).value)
    ensures KpRun(d, pgp, config, me, go, r').Ok? ==>
              KpRun(d, pgp, config, me, go, r').value.binding == OperatorRun(d, pgp, config, go, r).value
  {
    hide MatchesRecord, FindShare, Uninitialized;
    ShareOfMine(pgp, r.ceremony.value.shares, config.certs, me);
    hide VerifyRecipients;
    GenesisAgain(d, go, r, r', config.objectId);
    hide OperatorGenesis, KpGenesis;
  }

  lemma ShareOfMine(pgp: Pgp, shares: ShareRoster, certs: CertRoster, me: Fingerprint)
    requires VerifyRecipients(pgp, shares, certs) && me in certs
    ensures FindShare(shares, me).Some?
  {
  }

  lemma GenesisAgain(d: Digests, go: bool, r: OperatorReplies, r': KpReplies, objectId: string)
    requires r.latest.Some? && r'.chain.Some? && (go ==> r'.chain == r.chain)
    requires OperatorGenesis(go, r.latest.value, r.chain, objectId).Ok?
    ensures KpGenesis(d, go, r.latest.value, r'.chain.value, objectId) ==
            match OperatorGenesis(go, r.latest.value, r.chain, objectId).value {
              case None => Ok(None)
              case Some(genesis) => Ok(Some(d.genesis(genesis)))
            }
  {
  }
}
