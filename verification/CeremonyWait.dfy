/** Connecting to a ceremony guardian, pinning its session, and waiting for every confirmation. */
module CeremonyWait {
  import opened Text

  type Session = string
  type Key = string

  datatype Lifecycle =
    | Uninitialized | CeremonyInitialized | AwaitingConfirmations | Completed
    | WithdrawInitialized | Provisioned | Activated

  datatype Code = Cancelled | DeadlineExceeded | Unavailable | Other

  /** One answer to a status request: an RPC failure, an attestation that does not verify, or a status. */
  datatype Reply =
    | Failure(code: Code)
    | Unverified
    | Status(session: Session, key: Key, lifecycle: Lifecycle, deployment: Option<string>)

  datatype Pinned = Pinned(session: Session, key: Key)

  datatype WaitError = Rpc(code: Code) | BadAttestation | SessionChanged | Unexpected(lifecycle: Lifecycle)

  /** How a wait ends within the replies given: at the reply it names, or not yet. */
  datatype Ending = Confirmed(at: nat) | Refused(at: nat, why: WaitError) | Waiting

  predicate IsTransient(code: Code) {
    code.Cancelled? || code.DeadlineExceeded? || code.Unavailable?
  }

  /** What a reply that neither confirms nor keeps the wait going is reported as. */
  predicate Reports(pinned: Pinned, reply: Reply, why: WaitError) {
    match reply
    case Failure(code) => why == Rpc(code)
    case Unverified => why == BadAttestation
    case Status(session, key, lifecycle, _) =>
      why == if session != pinned.session || key != pinned.key then SessionChanged else Unexpected(lifecycle)
  }

  predicate IsPinned(pinned: Pinned, reply: Reply) {
    reply.Status? && reply.session == pinned.session && reply.key == pinned.key
  }

  /** A reply that leaves the wait going. */
  predicate Patient(pinned: Pinned, reply: Reply) {
    || (reply.Failure? && (reply.code.Cancelled? || reply.code.DeadlineExceeded? || reply.code.Unavailable?))
    || (IsPinned(pinned, reply) && reply.lifecycle.AwaitingConfirmations?)
  }

  predicate Final(pinned: Pinned, reply: Reply) {
    IsPinned(pinned, reply) && reply.lifecycle.Completed?
  }

  function LiveInfo(pinned: Pinned, reply: Reply): Result<Lifecycle, WaitError> {
    match reply
    case Failure(code) => Err(Rpc(code))
    case Unverified => Err(BadAttestation)
    case Status(session, key, lifecycle, _) =>
      if session == pinned.session && key == pinned.key then Ok(lifecycle) else Err(SessionChanged)
  }

  /**
   Success comes exactly at the first `Completed` of the pinned session with only patient replies
   before it; any other reply ends the wait with an error; patient replies alone never end it.
   */
  method WaitForConfirmations(pinned: Pinned, replies: seq<Reply>) returns (ending: Ending)
    ensures !ending.Waiting? ==> ending.at < |replies| && forall k :: 0 <= k < ending.at ==> Patient(pinned, replies[k])
    ensures ending.Confirmed? ==> Final(pinned, replies[ending.at]) && SucceedsAt(pinned, replies, ending.at)
    ensures ending.Refused? ==> !Final(pinned, replies[ending.at]) && !Patient(pinned, replies[ending.at])
    ensures ending.Refused? ==> Reports(pinned, replies[ending.at], ending.why)
    ensures ending.Waiting? ==> forall k :: 0 <= k < |replies| ==> Patient(pinned, replies[k])
  {
    for i := 0 to |replies|
      invariant forall k :: 0 <= k < i ==> Patient(pinned, replies[k])
    {
      var live := LiveInfo(pinned, replies[i]);
      if live.Err? {
        if !(live.error.Rpc? && IsTransient(live.error.code)) {
          return Refused(i, live.error);
        }
      } else if live.value.Completed? {
        return Confirmed(i);
      } else if !live.value.AwaitingConfirmations? {
        return Refused(i, Unexpected(live.value));
      }
    }
    return Waiting;
  }

  /** Where a wait over any replies succeeds: nothing else does. */
  ghost predicate SucceedsAt(pinned: Pinned, replies: seq<Reply>, at: nat) {
    at < |replies| && Final(pinned, replies[at]) && forall k :: 0 <= k < at ==> Patient(pinned, replies[k])
  }

  /** Success is decided by the replies read, at one place, and no longer stream changes it. */
  lemma SuccessOnce(pinned: Pinned, replies: seq<Reply>, more: seq<Reply>, at: nat, other: nat)
    requires SucceedsAt(pinned, replies, at)
    ensures SucceedsAt(pinned, replies + more, other) <==> other == at
  {
    if other < at {
      assert Patient(pinned, replies[other]);
    }
    if at < other < |replies + more| {
      assert (replies + more)[at] == replies[at];
    }
  }

  // ---- Connecting ----

  datatype ConnectError = NoStatus | NotInitialized | InitFailed | NotCeremony | SessionMoved | WrongDeployment
    | NoSession | KeyDiffers

  /** The answers met while connecting, in order; the last is the signing key logged for a session. */
  datatype Answers = Answers(preflight: Reply, initOk: bool, verified: Reply, logged: Session -> Option<Key>)

  /** The pinned session, and whether `OperatorInit` was called. */
  function Connect(deployment: string, operatorInit: bool, a: Answers): (Result<Pinned, ConnectError>, bool) {
    if !a.preflight.Status? then (Err(NoStatus), false)
    else
      match a.preflight.lifecycle
      case Uninitialized =>
        if !operatorInit then (Err(NotInitialized), false)
        else if !a.initOk then (Err(InitFailed), true)
        else (Pin(deployment, a), true)
      case CeremonyInitialized => (Pin(deployment, a), false)
      case AwaitingConfirmations => (Pin(deployment, a), false)
      case Completed => (Pin(deployment, a), false)
      case _ => (Err(NotCeremony), false)
  }

  function Pin(deployment: string, a: Answers): Result<Pinned, ConnectError>
    requires a.preflight.Status?
  {
    if !a.verified.Status? then Err(NoStatus)
    else if a.verified.session != a.preflight.session then Err(SessionMoved)
    else if a.verified.deployment != Some(deployment) then Err(WrongDeployment)
    else
      match a.logged(a.verified.session)
      case None => Err(NoSession)
      case Some(key) => if key != a.verified.key then Err(KeyDiffers) else Ok(Pinned(a.verified.session, key))
  }

  /**
   Connecting succeeds exactly with a ceremony guardian, or an uninitialized one that may be and is
   initialized, that then shows the same session, the expected deployment, and the key its log attests.
   */
  lemma ConnectExact(deployment: string, operatorInit: bool, a: Answers)
    ensures Connect(deployment, operatorInit, a).0.Ok? <==>
            && a.preflight.Status? && a.verified.Status?
            && (|| a.preflight.lifecycle.CeremonyInitialized? || a.preflight.lifecycle.AwaitingConfirmations?
                || a.preflight.lifecycle.Completed?
                || (a.preflight.lifecycle.Uninitialized? && operatorInit && a.initOk))
            && a.verified.session == a.preflight.session && a.verified.deployment == Some(deployment)
            && a.logged(a.verified.session) == Some(a.verified.key)
    ensures Connect(deployment, operatorInit, a).0.Ok? ==>
              Connect(deployment, operatorInit, a).0.value == Pinned(a.preflight.session, a.verified.key)
    ensures Connect(deployment, operatorInit, a).1 <==>
            a.preflight.Status? && a.preflight.lifecycle.Uninitialized? && operatorInit
  {
  }

  /**
   A ceremony that connects and is confirmed was one session throughout: seen before initialization,
   configured as expected, holding the key its own log attests, and completed under that key. A run
   that resumes never initializes.
   */
  lemma OneSession(deployment: string, operatorInit: bool, a: Answers, replies: seq<Reply>, at: nat)
    requires Connect(deployment, operatorInit, a).0.Ok?
    requires SucceedsAt(Connect(deployment, operatorInit, a).0.value, replies, at)
    ensures a.preflight.Status? && replies[at].Status? && a.verified.Status?
    ensures a.preflight.session == a.verified.session == replies[at].session
    ensures a.verified.deployment == Some(deployment)
    ensures a.logged(replies[at].session) == Some(replies[at].key)
    ensures forall k :: 0 <= k < at && replies[k].Status? ==>
              replies[k].session == replies[at].session && replies[k].key == replies[at].key
    ensures Connect(deployment, operatorInit, a).1 <==> a.preflight.lifecycle.Uninitialized?
    ensures !operatorInit ==> !Connect(deployment, operatorInit, a).1
  {
    var pinned := Connect(deployment, operatorInit, a).0.value;
    forall k | 0 <= k < at && replies[k].Status?
      ensures replies[k].session == replies[at].session && replies[k].key == replies[at].key
    {
      assert Patient(pinned, replies[k]);
    }
  }
}
