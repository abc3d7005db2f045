/** Waiting for the activation conditions, with one deadline per kind of failure. Times are in milliseconds. */
module ActivationWait {
  import opened Text
  import opened Heartbeats

  const CURRENT_WINDOW := 600_000
  const PRIOR_WINDOW := QUIET_PERIOD + 300_000

  /** What each scan reads (`None`: the read failed), how long it takes, and how late each sleep ends. */
  datatype World = World(logs: nat -> Option<seq<Log>>, took: nat -> nat, late: nat -> nat)

  /** One turn of the loop: the scan began, its outcome was seen at `now`, and sleep was asked for until `until`. */
  datatype Round = Round(began: nat, now: nat, outcome: Outcome, until: nat)

  function Deadline(start: nat, error: Error): Option<nat> {
    match error
    case NotLive(_, _) => Some(start + CURRENT_WINDOW)
    case StillRecent(_, _) => Some(start + PRIOR_WINDOW)
    case Invalid => None
  }

  function Scan(world: World, k: nat, began: nat, now: nat, live: Session): Outcome {
    match world.logs(k)
    case None => Failed(Invalid)
    case Some(logs) => CheckSpec(logs, began, now, live)
  }

  function Min(a: nat, b: nat): nat {
    if a < b then a else b
  }

  /** A round at the right time that saw what the logs held. */
  predicate RoundOk(start: nat, world: World, live: Session, trace: seq<Round>, k: nat)
    requires k < |trace|
  {
    && trace[k].began == (if k == 0 then start else trace[k - 1].until + world.late(k - 1))
    && trace[k].now == trace[k].began + world.took(k)
    && trace[k].outcome == Scan(world, k, trace[k].began, trace[k].now, live)
  }

  /** A round after which the loop goes on: a failure of a class whose deadline is ahead, never slept past. */
  predicate Retries(start: nat, round: Round) {
    && round.outcome.Failed?
    && Deadline(start, round.outcome.error).Some? && RetryAfterSecs(round.outcome.error).Some?
    && var deadline := Deadline(start, round.outcome.error).value;
       && round.now < deadline
       && round.until == Min(round.now + 1000 * RetryAfterSecs(round.outcome.error).value, deadline)
  }

  /** The result is the last round's; an error only if not retryable, or past the deadline of its own class. */
  predicate Ends(start: nat, round: Round, r: Result<(), Error>) {
    && (r.Ok? <==> round.outcome == Fine)
    && (r.Err? ==>
          && round.outcome == Failed(r.error)
          && (r.error.Invalid? || Deadline(start, r.error).value <= round.now))
  }

  predicate IsWait(start: nat, world: World, live: Session, trace: seq<Round>, r: Result<(), Error>) {
    && trace != []
    && (forall k :: 0 <= k < |trace| ==> RoundOk(start, world, live, trace, k))
    && (forall k :: 0 <= k < |trace| - 1 ==> Retries(start, trace[k]))
    && Ends(start, trace[|trace| - 1], r)
  }

  /** The rounds so far have been paid for at a second each, but for the one cut short at each deadline. */
  predicate Paid(start: nat, rounds: nat, time: nat) {
    || start + 1000 * rounds <= time
    || (start + CURRENT_WINDOW <= time && start + 1000 * (rounds - 1) <= time)
    || start + PRIOR_WINDOW <= time
  }

  lemma RetryPaid(start: nat, rounds: nat, round: Round, world: World, k: nat, live: Session)
    requires Paid(start, rounds, round.began) && round.began <= round.now && Retries(start, round)
    requires round.outcome == Scan(world, k, round.began, round.now, live)
    ensures round.now < round.until && round.now < start + PRIOR_WINDOW
    ensures Paid(start, rounds + 1, round.until) && rounds <= 900
  {
    DelaysPositive(world.logs(k).value, round.began, round.now, live);
    hide CheckSpec;
  }

  datatype Decision = Return(result: Result<(), Error>) | SleepUntil(time: nat)

  predicate Concludes(start: nat, round: Round, r: Result<(), Error>) {
    match r
    case Ok(_) => round.outcome == Fine
    case Err(error) =>
      && round.outcome == Failed(error)
      && (Deadline(start, error).None? || Deadline(start, error).value <= round.now)
  }

  /** The loop body after the check. */
  method Decide(currentDeadline: nat, priorDeadline: nat, ghost start: nat, round: Round) returns (d: Decision)
    requires currentDeadline == start + CURRENT_WINDOW && priorDeadline == start + PRIOR_WINDOW
    ensures d.Return? ==> Concludes(start, round, d.result)
    ensures d.SleepUntil? ==> Retries(start, round.(until := d.time))
  {
    if round.outcome.Fine? { return Return(Ok(())); }
    var error := round.outcome.error;
    var deadline;
    match error {
      case NotLive(_, _) => deadline := currentDeadline;
      case StillRecent(_, _) => deadline := priorDeadline;
      case Invalid => return Return(Err(error));
    }
    var retryAfter := RetryAfterSecs(error).value;
    if round.now >= deadline { return Return(Err(error)); }
    return SleepUntil(Min(round.now + 1000 * retryAfter, deadline));
  }

  /** The wait loop ends after at most 902 scans, whatever they read and however the two failures alternate. */
  method Wait(start: nat, world: World, live: Session) returns (r: Result<(), Error>, trace: seq<Round>)
    ensures IsWait(start, world, live, trace, r)
    ensures |trace| <= 902
  {
    hide Scan, RoundOk, IsWait, Paid, Retries, Concludes;
    var currentDeadline := start + CURRENT_WINDOW;
    var priorDeadline := start + PRIOR_WINDOW;
    var began := start;
    trace := [];
    NothingPaid(start);
    while true
      invariant forall k :: 0 <= k < |trace| ==> RoundOk(start, world, live, trace, k) && Retries(start, trace[k])
      invariant began == if trace == [] then start else trace[|trace| - 1].until + world.late(|trace| - 1)
      invariant Paid(start, |trace|, began) && |trace| <= 901
      decreases priorDeadline - began
    {
      var k := |trace|;
      var now := began + world.took(k);
      var outcome := ReadScan(world, k, began, now, live);
      var round := Round(began, now, outcome, now);
      var d := Decide(currentDeadline, priorDeadline, start, round);
      match d {
        case Return(result) =>
          Finished(start, world, live, trace, round, result);
          return result, trace + [round];
        case SleepUntil(time) =>
          round := round.(until := time);
          RetryPaid(start, k, round, world, k, live);
          Extended(start, world, live, trace, round);
          PaidLater(start, k + 1, time, time + world.late(k));
          trace := trace + [round];
          began := time + world.late(k);
      }
    }
    assert false;
  }

  lemma NothingPaid(start: nat)
    ensures Paid(start, 0, start)
  {
  }

  method ReadScan(world: World, k: nat, began: nat, now: nat, live: Session) returns (outcome: Outcome)
    ensures outcome == Scan(world, k, began, now, live)
  {
    match world.logs(k) {
      case None => return Failed(Invalid);
      case Some(logs) => outcome := CheckHeartbeats(logs, began, now, live);
    }
  }

  lemma PaidLater(start: nat, rounds: nat, time: nat, later: nat)
    requires Paid(start, rounds, time) && time <= later
    ensures Paid(start, rounds, later)
  {
  }

  /** The round that comes next. */
  predicate Timely(start: nat, world: World, live: Session, trace: seq<Round>, round: Round) {
    && round.began == (if trace == [] then start else trace[|trace| - 1].until + world.late(|trace| - 1))
    && round.now == round.began + world.took(|trace|)
    && round.outcome == Scan(world, |trace|, round.began, round.now, live)
  }

  lemma Finished(start: nat, world: World, live: Session, trace: seq<Round>, round: Round, r: Result<(), Error>)
    requires forall k :: 0 <= k < |trace| ==> RoundOk(start, world, live, trace, k) && Retries(start, trace[k])
    requires Timely(start, world, live, trace, round)
    requires Concludes(start, round, r)
    ensures IsWait(start, world, live, trace + [round], r)
  {
    Extended(start, world, live, trace, round);
    hide RoundOk, Retries, Timely;
  }

  lemma Extended(start: nat, world: World, live: Session, trace: seq<Round>, round: Round)
    requires forall k :: 0 <= k < |trace| ==> RoundOk(start, world, live, trace, k)
    requires Timely(start, world, live, trace, round)
    ensures forall k :: 0 <= k < |trace| + 1 ==> RoundOk(start, world, live, trace + [round], k)
  {
    hide Scan;
    forall k | 0 <= k < |trace| + 1 ensures RoundOk(start, world, live, trace + [round], k) {
      if k < |trace| {
        assert RoundOk(start, world, live, trace, k);
      }
    }
  }

  // ---- The windows are wide enough ----

  /** Every scan reads heartbeats only, with one of the live session that is recent enough. */
  predicate AlwaysLive(world: World, live: Session, trace: seq<Round>) {
    forall k :: 0 <= k < |trace| ==>
      && world.logs(k).Some? && (forall i :: 0 <= i < |world.logs(k).value| ==> world.logs(k).value[i].heartbeat)
      && BeatsAt(world.logs(k).value, live, trace[k].now)
  }

  /** No other session beats later than this. */
  predicate OthersStopBy(world: World, live: Session, trace: seq<Round>, time: int) {
    forall k :: 0 <= k < |trace| && world.logs(k).Some? ==>
      forall i :: 0 <= i < |world.logs(k).value| && world.logs(k).value[i].session != live ==>
        world.logs(k).value[i].time <= time
  }

  /**
   If every other session stops within five minutes of the start, less the time one scan takes, and
   the live one keeps beating, activation goes ahead.
   */
  lemma QuietActivates(start: nat, world: World, live: Session, trace: seq<Round>, r: Result<(), Error>, bound: nat)
    requires IsWait(start, world, live, trace, r) && AlwaysLive(world, live, trace)
    requires forall k :: 0 <= k < |trace| ==> world.took(k) <= bound
    requires OthersStopBy(world, live, trace, start + 300_000 - bound)
    ensures r.Ok?
  {
    var n := |trace| - 1;
    assert RoundOk(start, world, live, trace, n) && world.logs(n).Some? && world.took(n) <= bound;
    CheckExact(world.logs(n).value, trace[n].began, trace[n].now, live);
    hide CheckSpec, BeatsAt;
  }

  // ---- What each ending means ----

  /**
   Activation goes ahead only beside quiet: the last scan read heartbeats only, one of the live session
   at most three minutes old when it ended, and of every other session none within ten minutes of its start.
   */
  lemma OkMeansQuiet(start: nat, world: World, live: Session, trace: seq<Round>, r: Result<(), Error>)
    requires IsWait(start, world, live, trace, r) && r.Ok?
    ensures var n := |trace| - 1;
            && world.logs(n).Some?
            && (forall i :: 0 <= i < |world.logs(n).value| ==> world.logs(n).value[i].heartbeat)
            && BeatsAt(world.logs(n).value, live, trace[n].now)
            && OthersQuietAt(world.logs(n).value, live, trace[n].began)
  {
    var n := |trace| - 1;
    assert RoundOk(start, world, live, trace, n);
    CheckExact(world.logs(n).value, trace[n].began, trace[n].now, live);
    hide CheckSpec, BeatsAt, OthersQuietAt;
  }

  /** It fails only on an unreadable log, ten minutes without the live session, or fifteen beside another. */
  lemma ErrMeansLate(start: nat, world: World, live: Session, trace: seq<Round>, r: Result<(), Error>)
    requires IsWait(start, world, live, trace, r) && r.Err?
    ensures var n := |trace| - 1;
            match world.logs(n)
            case None => r.error.Invalid?
            case Some(logs) =>
              if exists i :: 0 <= i < |logs| && !logs[i].heartbeat then r.error.Invalid?
              else if !BeatsAt(logs, live, trace[n].now) then r.error.NotLive? && start + 600_000 <= trace[n].now
              else !OthersQuietAt(logs, live, trace[n].began) && r.error.StillRecent? && start + 900_000 <= trace[n].now
  {
    var n := |trace| - 1;
    assert RoundOk(start, world, live, trace, n);
    if world.logs(n).Some? {
      CheckExact(world.logs(n).value, trace[n].began, trace[n].now, live);
    }
    hide CheckSpec, BeatsAt, OthersQuietAt;
  }

  /** Between scans it sleeps a minute for the live session, or until the others are quiet, to the deadline at most. */
  lemma SleepsMean(start: nat, world: World, live: Session, trace: seq<Round>, r: Result<(), Error>, k: nat)
    requires IsWait(start, world, live, trace, r) && k < |trace| - 1
    ensures world.logs(k).Some? && forall i :: 0 <= i < |world.logs(k).value| ==> world.logs(k).value[i].heartbeat
    ensures var logs := world.logs(k).value;
            if !BeatsAt(logs, live, trace[k].now) then
              trace[k].until == (if trace[k].now < start + 540_000 then trace[k].now + 60_000 else start + 600_000)
            else !OthersQuietAt(logs, live, trace[k].began) && trace[k].until <= start + 900_000 &&
                 (trace[k].until < start + 900_000 ==> OthersQuietAt(logs, live, trace[k].until)
                                                       || trace[k].until == trace[k].now + 600_000)
    ensures trace[k + 1].began >= trace[k].until > trace[k].now
  {
    assert RoundOk(start, world, live, trace, k) && Retries(start, trace[k]);
    assert RoundOk(start, world, live, trace, k + 1);
    var logs := world.logs(k).value;
    CheckExact(logs, trace[k].began, trace[k].now, live);
    RetryTimes(logs, trace[k].began, trace[k].now, live);
    DelaysPositive(logs, trace[k].began, trace[k].now, live);
    QuietExact(logs, live, trace[k].until);
    hide CheckSpec, BeatsAt, OthersQuietAt, LatestOther;
  }
}
