/** Heartbeat checks over the session logs. Times are in milliseconds, retry delays in seconds. */
module Heartbeats {
  import opened Text

  type Session = string

  const HEARTBEAT_INTERVAL_SECS := 60
  const LIVE_MAX_AGE := 180_000
  const QUIET_PERIOD := 600_000

  datatype Log = Log(session: Session, time: nat, heartbeat: bool)

  datatype Error =
    | NotLive(ageSecs: Option<nat>, retrySecs: nat)
    | StillRecent(priorAgeSecs: nat, quietSecs: nat)
    | Invalid

  datatype Outcome = Fine | Failed(error: Error)

  function SaturatingSub(a: nat, b: nat): nat {
    if a >= b then a - b else 0
  }

  function RetryAfterSecs(error: Error): Option<nat> {
    match error
    case NotLive(_, retrySecs) => Some(retrySecs)
    case StillRecent(age, quiet) => Some(SaturatingSub(quiet, age))
    case Invalid => None
  }

  function Later(a: Option<nat>, time: nat): Option<nat> {
    match a case None => Some(time) case Some(t) => Some(if t < time then time else t)
  }

  /** The latest heartbeat of one session. */
  function LastOf(logs: seq<Log>, session: Session): Option<nat> {
    if logs == [] then None
    else
      var n := |logs| - 1;
      var before := LastOf(logs[..n], session);
      if logs[n].session == session then Later(before, logs[n].time) else before
  }

  /** The latest heartbeat of any other session. */
  function LatestOther(logs: seq<Log>, live: Session): Option<nat> {
    if logs == [] then None
    else
      var n := |logs| - 1;
      var before := LatestOther(logs[..n], live);
      if logs[n].session == live then before else Later(before, logs[n].time)
  }

  predicate AllHeartbeats(logs: seq<Log>) {
    forall i :: 0 <= i < |logs| ==> logs[i].heartbeat
  }

  /** The live session beat recently at the end of the scan, and every other was quiet at its start. */
  function CheckSpec(logs: seq<Log>, started: nat, completed: nat, live: Session): Outcome {
    if !AllHeartbeats(logs) then Failed(Invalid)
    else
      match LastOf(logs, live)
      case None => Failed(NotLive(None, HEARTBEAT_INTERVAL_SECS))
      case Some(last) =>
        var age := SaturatingSub(completed, last);
        if age > LIVE_MAX_AGE then Failed(NotLive(Some(age / 1000), HEARTBEAT_INTERVAL_SECS))
        else
          match LatestOther(logs, live)
          case None => Fine
          case Some(other) =>
            var quiet := SaturatingSub(started, other);
            if quiet < QUIET_PERIOD then Failed(StillRecent(quiet / 1000, QUIET_PERIOD / 1000)) else Fine
  }

  datatype Span = Span(first: nat, last: nat)

  /** The summary holds exactly the logged sessions, each with the last time it logged. */
  ghost predicate LastsOk(summary: map<Session, Span>, logs: seq<Log>) {
    && (forall s :: s in summary ==> LastOf(logs, s) == Some(summary[s].last))
    && (forall s :: s !in summary ==> LastOf(logs, s) == None)
  }

  /** And with the first. */
  ghost predicate FirstsOk(summary: map<Session, Span>, logs: seq<Log>) {
    && (forall i :: 0 <= i < |logs| ==> logs[i].session in summary && summary[logs[i].session].first <= logs[i].time)
    && (forall s :: s in summary ==> exists i :: 0 <= i < |logs| && logs[i] == Log(s, summary[s].first, true))
  }

  ghost predicate Summarizes(summary: map<Session, Span>, logs: seq<Log>) {
    LastsOk(summary, logs) && FirstsOk(summary, logs)
  }

  function Widen(summary: map<Session, Span>, session: Session, time: nat): Span {
    if session !in summary then Span(time, time)
    else
      var Span(first, last) := summary[session];
      Span(if time < first then time else first, if last < time then time else last)
  }

  method Summarize(logs: seq<Log>) returns (r: Option<map<Session, Span>>)
    ensures r.Some? <==> AllHeartbeats(logs)
    ensures r.Some? ==> Summarizes(r.value, logs)
  {
    var summary: map<Session, Span> := map[];
    for i := 0 to |logs|
      invariant forall k :: 0 <= k < i ==> logs[k].heartbeat
      invariant Summarizes(summary, logs[..i])
    {
      hide Summarizes;
      var Log(session, time, heartbeat) := logs[i];
      if !heartbeat { return None; }
      SummaryStep(summary, logs, i);
      if session in summary {
        var Span(first, last) := summary[session];
        summary := summary[session := Span(if time < first then time else first, if last < time then time else last)];
      } else {
        summary := summary[session := Span(time, time)];
      }
    }
    assert logs[..|logs|] == logs;
    return Some(summary);
  }

  lemma SummaryStep(before: map<Session, Span>, logs: seq<Log>, i: nat)
    requires i < |logs| && logs[i].heartbeat && Summarizes(before, logs[..i])
    ensures Summarizes(before[logs[i].session := Widen(before, logs[i].session, logs[i].time)], logs[..i + 1])
  {
    LastsStep(before, logs, i);
    FirstsStep(before, logs, i);
  }

  lemma LastsStep(before: map<Session, Span>, logs: seq<Log>, i: nat)
    requires i < |logs| && LastsOk(before, logs[..i])
    ensures LastsOk(before[logs[i].session := Widen(before, logs[i].session, logs[i].time)], logs[..i + 1])
  {
    assert logs[..i + 1][..i] == logs[..i];
  }

  lemma FirstsStep(before: map<Session, Span>, logs: seq<Log>, i: nat)
    requires i < |logs| && logs[i].heartbeat && FirstsOk(before, logs[..i])
    ensures FirstsOk(before[logs[i].session := Widen(before, logs[i].session, logs[i].time)], logs[..i + 1])
  {
    var shorter, longer := logs[..i], logs[..i + 1];
    var after := before[logs[i].session := Widen(before, logs[i].session, logs[i].time)];
    forall s | s in after ensures exists k :: 0 <= k < |longer| && longer[k] == Log(s, after[s].first, true) {
      if s in before && after[s].first == before[s].first {
        var k :| 0 <= k < |shorter| && shorter[k] == Log(s, before[s].first, true);
        assert longer[k] == shorter[k];
      } else {
        assert longer[i] == Log(s, after[s].first, true);
      }
    }
    forall k | 0 <= k < |longer|
      ensures longer[k].session in after && after[longer[k].session].first <= longer[k].time
    {
      if k < i {
        assert longer[k] == shorter[k];
      }
    }
  }

  /** The latest of the other sessions' last heartbeats. */
  method MostRecentOther(summary: map<Session, Span>, logs: seq<Log>, live: Session) returns (latest: Option<nat>)
    requires Summarizes(summary, logs)
    ensures latest == LatestOther(logs, live)
  {
    latest := None;
    var left := summary.Keys - {live};
    while left != {}
      invariant left <= summary.Keys - {live}
      invariant latest.Some? ==> exists s :: s in summary && s != live && summary[s].last == latest.value
      invariant forall s :: s in summary.Keys - {live} - left ==> latest.Some? && summary[s].last <= latest.value
      decreases |left|
    {
      var s :| s in left;
      if latest.None? || latest.value < summary[s].last {
        latest := Some(summary[s].last);
      }
      left := left - {s};
    }
    OtherLatest(summary, logs, live, latest);
  }

  lemma OtherLatest(summary: map<Session, Span>, logs: seq<Log>, live: Session, latest: Option<nat>)
    requires Summarizes(summary, logs)
    requires latest.Some? ==> exists s :: s in summary && s != live && summary[s].last == latest.value
    requires forall s :: s in summary && s != live ==> latest.Some? && summary[s].last <= latest.value
    ensures latest == LatestOther(logs, live)
  {
    OtherBounds(logs, live);
    if latest.Some? {
      var s :| s in summary && s != live && summary[s].last == latest.value;
      LastAt(logs, s);
    }
    if LatestOther(logs, live).Some? {
      var k :| 0 <= k < |logs| && logs[k].session != live && LatestOther(logs, live) == Some(logs[k].time);
      LastBounds(logs, logs[k].session, k);
    }
  }

  lemma {:induction false} LastAt(logs: seq<Log>, s: Session)
    requires LastOf(logs, s).Some?
    ensures exists k :: 0 <= k < |logs| && logs[k].session == s && logs[k].time == LastOf(logs, s).value
  {
    var n := |logs| - 1;
    if logs[n].session == s && LastOf(logs, s) == Some(logs[n].time) {
    } else {
      LastAt(logs[..n], s);
      var k :| 0 <= k < n && logs[..n][k].session == s && logs[..n][k].time == LastOf(logs[..n], s).value;
      assert logs[k] == logs[..n][k];
    }
  }

  lemma {:induction false} LastBounds(logs: seq<Log>, s: Session, k: nat)
    requires k < |logs| && logs[k].session == s
    ensures LastOf(logs, s).Some? && logs[k].time <= LastOf(logs, s).value
  {
    if k < |logs| - 1 {
      LastBounds(logs[..|logs| - 1], s, k);
    }
  }

  lemma {:induction false} OtherBounds(logs: seq<Log>, live: Session)
    ensures forall k :: 0 <= k < |logs| && logs[k].session != live ==>
              LatestOther(logs, live).Some? && logs[k].time <= LatestOther(logs, live).value
    ensures LatestOther(logs, live).Some? ==>
              exists k :: 0 <= k < |logs| && logs[k].session != live && LatestOther(logs, live) == Some(logs[k].time)
  {
    if logs != [] {
      var n := |logs| - 1;
      OtherBounds(logs[..n], live);
      forall k | 0 <= k < |logs| && logs[k].session != live
        ensures LatestOther(logs, live).Some? && logs[k].time <= LatestOther(logs, live).value
      {
        if k < n {
          assert logs[..n][k] == logs[k];
        }
      }
      if LatestOther(logs, live).Some? && !(logs[n].session != live && LatestOther(logs, live) == Some(logs[n].time)) {
        var k :| 0 <= k < n && logs[..n][k].session != live && LatestOther(logs[..n], live) == Some(logs[..n][k].time);
        assert logs[k] == logs[..n][k];
      }
    }
  }

  /** The scan's summary decides as the logs themselves do. */
  method CheckHeartbeats(logs: seq<Log>, started: nat, completed: nat, live: Session) returns (outcome: Outcome)
    ensures outcome == CheckSpec(logs, started, completed, live)
  {
    hide LastOf, LatestOther;
    var summarized := Summarize(logs);
    if summarized.None? { return Failed(Invalid); }
    var summary := summarized.value;
    if live !in summary { return Failed(NotLive(None, HEARTBEAT_INTERVAL_SECS)); }
    var age := SaturatingSub(completed, summary[live].last);
    if age > LIVE_MAX_AGE { return Failed(NotLive(Some(age / 1000), HEARTBEAT_INTERVAL_SECS)); }
    var other := MostRecentOther(summary, logs, live);
    if other.Some? {
      var quiet := SaturatingSub(started, other.value);
      if quiet < QUIET_PERIOD { return Failed(StillRecent(quiet / 1000, QUIET_PERIOD / 1000)); }
    }
    return Fine;
  }

  /** Every retryable failure asks for a positive delay. */
  lemma DelaysPositive(logs: seq<Log>, started: nat, completed: nat, live: Session)
    requires CheckSpec(logs, started, completed, live).Failed?
    ensures var error := CheckSpec(logs, started, completed, live).error;
            && (RetryAfterSecs(error).Some? <==> !error.Invalid?)
            && (RetryAfterSecs(error).Some? ==> 1 <= RetryAfterSecs(error).value <= 600)
  {
  }

  // ---- What the check means for the logs themselves ----

  /** Some log of the live session is at most three minutes old. */
  predicate BeatsAt(logs: seq<Log>, live: Session, now: nat) {
    exists i :: 0 <= i < |logs| && logs[i].session == live && now <= logs[i].time + 180_000
  }

  /** Every log of another session is at least ten minutes old. */
  predicate OthersQuietAt(logs: seq<Log>, live: Session, now: nat) {
    forall i :: 0 <= i < |logs| && logs[i].session != live ==> logs[i].time + 600_000 <= now
  }

  lemma LiveExact(logs: seq<Log>, live: Session, now: nat)
    ensures BeatsAt(logs, live, now) <==>
            LastOf(logs, live).Some? && SaturatingSub(now, LastOf(logs, live).value) <= LIVE_MAX_AGE
  {
    if BeatsAt(logs, live, now) {
      var i :| 0 <= i < |logs| && logs[i].session == live && now <= logs[i].time + 180_000;
      LastBounds(logs, live, i);
    }
    if LastOf(logs, live).Some? {
      LastAt(logs, live);
    }
  }

  lemma QuietExact(logs: seq<Log>, live: Session, now: nat)
    ensures OthersQuietAt(logs, live, now) <==>
            LatestOther(logs, live).None? || QUIET_PERIOD <= SaturatingSub(now, LatestOther(logs, live).value)
  {
    OtherBounds(logs, live);
  }

  /** Which logs pass, and which fail as what: the live session is judged first. */
  lemma CheckExact(logs: seq<Log>, started: nat, completed: nat, live: Session)
    ensures var outcome := CheckSpec(logs, started, completed, live);
            var heartbeats := forall i :: 0 <= i < |logs| ==> logs[i].heartbeat;
            var beats := BeatsAt(logs, live, completed);
            var quiet := OthersQuietAt(logs, live, started);
            && (outcome == Fine <==> heartbeats && beats && quiet)
            && (outcome == Failed(Invalid) <==> !heartbeats)
            && (outcome.Failed? && outcome.error.NotLive? <==> heartbeats && !beats)
            && (outcome.Failed? && outcome.error.StillRecent? <==> heartbeats && beats && !quiet)
  {
    hide LastOf, LatestOther;
    LiveExact(logs, live, completed);
    QuietExact(logs, live, started);
  }

  /**
   A session that is not live is looked for again after a minute. A recent other session is given the
   least whole number of seconds after which its last heartbeat is ten minutes old.
   */
  lemma RetryTimes(logs: seq<Log>, started: nat, completed: nat, live: Session)
    requires CheckSpec(logs, started, completed, live).Failed?
    ensures var error := CheckSpec(logs, started, completed, live).error;
            && (error.NotLive? ==> RetryAfterSecs(error) == Some(60))
            && (error.NotLive? ==> (error.ageSecs.None? <==> LastOf(logs, live).None?))
            && (error.NotLive? && error.ageSecs.Some? ==>
                  var aged := LastOf(logs, live).value + 1000 * error.ageSecs.value;
                  aged <= completed < aged + 1000)
            && (error.StillRecent? ==>
                  && RetryAfterSecs(error).Some? && LatestOther(logs, live).Some?
                  && var retry, last := RetryAfterSecs(error).value, LatestOther(logs, live).value;
                     if last <= started then started + 1000 * retry - 1000 < last + 600_000 <= started + 1000 * retry
                     else retry == 600)
  {
    hide LastOf, LatestOther;
  }
}
