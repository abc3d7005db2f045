/**
 The severable TCP proxy: an accept loop racing with `sever`, `restore` and `drop` over an atomic
 flag and a mutex-guarded list of abort handles.
 */
module TcpProxy {
  import opened Sequences

  type Task = nat
  type Caller = nat

  datatype Acceptor =
    | Waiting               // in `accept().await`
    | Accepted              // a connection in hand, the flag not read yet
    | Cleared               // the flag read as enabled
    | Holding(task: Task)   // the forward spawned, its handle not pushed yet
    | Stopped

  datatype Phase = Locking | Draining

  datatype State = State(enabled: bool, dropped: bool, live: seq<Task>, running: set<Task>, spawned: set<Task>,
                         acceptor: Acceptor, callers: map<Caller, Phase>)

  datatype Event =
    | Accept
    | AcceptFails
    | Check
    | Spawn(task: Task)
    | Push
    | Finish(task: Task)        // a forward ends on its own
    | Sever(caller: Caller)     // stores `false`
    | Restore
    | Drop(caller: Caller)      // aborts the accept loop
    | Lock(caller: Caller)
    | AbortNext(caller: Caller) // one handle of the drain, under the lock
    | Done(caller: Caller)      // the drain is over and the lock released

  const START := State(true, false, [], {}, {}, Waiting, map[])

  predicate Unlocked(s: State) {
    forall c :: c in s.callers ==> s.callers[c] != Draining
  }

  /** `retain(|handle| !handle.is_finished())`. */
  function Retain(live: seq<Task>, running: set<Task>): seq<Task> {
    if live == [] then []
    else (if live[0] in running then [live[0]] else []) + Retain(live[1..], running)
  }

  predicate Enabled(s: State, e: Event) {
    match e
    case Accept => s.acceptor == Waiting && !s.dropped
    case AcceptFails => s.acceptor == Waiting && !s.dropped
    case Check => s.acceptor == Accepted
    case Spawn(t) => s.acceptor == Cleared && t !in s.spawned
    case Push => s.acceptor.Holding? && Unlocked(s)
    case Finish(t) => t in s.running
    case Sever(c) => c !in s.callers && !s.dropped
    case Restore => !s.dropped
    case Drop(c) => s.callers == map[] && !s.dropped
    case Lock(c) => c in s.callers && s.callers[c] == Locking && Unlocked(s)
    case AbortNext(c) => c in s.callers && s.callers[c] == Draining && s.live != []
    case Done(c) => c in s.callers && s.callers[c] == Draining && s.live == []
  }

  function Next(s: State, e: Event): State
    requires Enabled(s, e)
  {
    match e
    case Accept => s.(acceptor := Accepted)
    case AcceptFails => s.(acceptor := Stopped)
    case Check => s.(acceptor := if s.enabled then Cleared else Waiting)
    case Spawn(t) => s.(acceptor := Holding(t), running := s.running + {t}, spawned := s.spawned + {t})
    case Push => s.(acceptor := Waiting, live := Retain(s.live, s.running) + [s.acceptor.task])
    case Finish(t) => s.(running := s.running - {t})
    case Sever(c) => s.(enabled := false, callers := s.callers[c := Locking])
    case Restore => s.(enabled := true)
    case Drop(c) => s.(dropped := true, callers := s.callers[c := Locking])
    case Lock(c) => s.(callers := s.callers[c := Draining])
    case AbortNext(c) => s.(live := s.live[1..], running := s.running - {s.live[0]})
    case Done(c) => s.(callers := s.callers - {c})
  }

  predicate IsRun(states: seq<State>, events: seq<Event>) {
    && |states| == |events| + 1 && states[0] == START
    && forall i :: 0 <= i < |events| ==> Enabled(states[i], events[i]) && states[i + 1] == Next(states[i], events[i])
  }

  // ---- No running forward is ever out of reach ----

  predicate InHand(s: State, t: Task) {
    s.acceptor == Holding(t)
  }

  /** Each running forward is in the list, or is the one in the accept loop's hands. */
  predicate Tracked(s: State) {
    forall t :: t in s.running ==> t in s.live || InHand(s, t)
  }

  /** Pruning keeps exactly the running ones, in their order. */
  lemma {:induction false} RetainKeeps(live: seq<Task>, running: set<Task>)
    ensures |Retain(live, running)| <= |live|
    ensures forall t :: t in Retain(live, running) <==> t in live && t in running
  {
    if live != [] {
      RetainKeeps(live[1..], running);
      assert live == [live[0]] + live[1..];
    }
  }

  /** After a push the list is the running forwards of before, then the new one. */
  lemma PushPrunes(s: State)
    requires Enabled(s, Push)
    ensures var live := Next(s, Push).live;
            && live != [] && live[|live| - 1] == s.acceptor.task
            && forall t :: t in live[..|live| - 1] <==> t in s.live && t in s.running
  {
    RetainKeeps(s.live, s.running);
    var kept := Retain(s.live, s.running);
    assert (kept + [s.acceptor.task])[..|kept|] == kept;
  }

  lemma StepTracked(s: State, e: Event)
    requires Tracked(s) && Enabled(s, e)
    ensures Tracked(Next(s, e))
  {
    hide Retain;
    RetainKeeps(s.live, s.running);
    assert s.live != [] ==> s.live == [s.live[0]] + s.live[1..];
  }

  lemma {:induction false} AlwaysTracked(states: seq<State>, events: seq<Event>, i: nat)
    requires IsRun(states, events) && i < |states|
    ensures Tracked(states[i])
  {
    if i > 0 {
      hide Next, Enabled;
      AlwaysTracked(states, events, i - 1);
      StepTracked(states[i - 1], events[i - 1]);
    }
  }

  // ---- Sever ----

  /** Forwards that are listed, or that the accept loop may still add. */
  function Exposure(s: State): nat {
    |s.live| + if s.acceptor.Cleared? || s.acceptor.Holding? then 1 else 0
  }

  lemma StepExposure(s: State, e: Event)
    requires !s.enabled && Enabled(s, e) && e != Restore
    ensures !Next(s, e).enabled && Exposure(Next(s, e)) <= Exposure(s)
  {
    RetainKeeps(s.live, s.running);
  }

  lemma ExposureBounds(s: State)
    requires Tracked(s)
    ensures |s.running| <= Exposure(s)
  {
    var held := if s.acceptor.Holding? then {s.acceptor.task} else {};
    var listed := set i | 0 <= i < |s.live| :: s.live[i];
    ListedSize(s.live);
    assert s.running <= listed + held;
    SubsetSize(s.running, listed + held);
  }

  lemma {:induction false} ListedSize(live: seq<Task>)
    ensures |set i | 0 <= i < |live| :: live[i]| <= |live|
  {
    var all := set i | 0 <= i < |live| :: live[i];
    if live == [] {
      assert all == {};
    } else {
      var n := |live| - 1;
      var fewer := set i | 0 <= i < |live[..n]| :: live[..n][i];
      ListedSize(live[..n]);
      assert all == fewer + {live[n]} by {
        assert forall i :: 0 <= i < n ==> live[..n][i] == live[i];
      }
    }
  }

  predicate NoRestore(events: seq<Event>, from: nat, to: nat)
    requires to <= |events|
  {
    forall k :: from <= k < to ==> events[k] != Restore
  }

  lemma {:induction false} StaysSevered(states: seq<State>, events: seq<Event>, h: nat, j: nat)
    requires IsRun(states, events) && h <= j < |states| && !states[h].enabled && NoRestore(events, h, j)
    ensures !states[j].enabled && Exposure(states[j]) <= Exposure(states[h])
    decreases j
  {
    if h < j {
      hide Next, Enabled, Exposure;
      StaysSevered(states, events, h, j - 1);
      assert events[j - 1] != Restore;
      StepExposure(states[j - 1], events[j - 1]);
    }
  }

  /** From the end of a `sever` until the next `restore` at most one forward is running. */
  lemma SeverBound(states: seq<State>, events: seq<Event>, h: nat, i: nat, j: nat, c: Caller)
    requires IsRun(states, events) && h < i < j < |states|
    requires events[h] == Sever(c) && events[i] == Done(c) && NoRestore(events, h + 1, j)
    ensures |states[j].running| <= 1
  {
    assert Enabled(states[h], events[h]) && Enabled(states[i], events[i]);
    assert !states[h + 1].enabled && states[i].live == [];
    StaysSevered(states, events, h + 1, i);
    StaysSevered(states, events, i, j);
    AlwaysTracked(states, events, j);
    ExposureBounds(states[j]);
  }

  /** The accept loop is past its check: about to spawn, or holding a forward that runs. */
  predicate PastCheck(s: State) {
    s.acceptor.Cleared? || (s.acceptor.Holding? && s.acceptor.task in s.running)
  }

  /** However the run goes on without a `restore`, nothing is left running. */
  ghost predicate StaysClean(states: seq<State>, events: seq<Event>) {
    forall after: seq<State>, more: seq<Event> ::
      IsRun(states + after, events + more) && Restore !in more ==> (states + after)[|events + more|].running == {}
  }

  /** `sever` leaves nothing running, ever, exactly when the accept loop is not past its check at the end. */
  lemma SeverExact(states: seq<State>, events: seq<Event>, h: nat, c: Caller)
    requires IsRun(states, events) && h < |events| - 1
    requires events[h] == Sever(c) && events[|events| - 1] == Done(c) && NoRestore(events, h + 1, |events|)
    ensures StaysClean(states, events) <==> !PastCheck(states[|events|])
  {
    var n := |events|;
    assert Enabled(states[h], events[h]) && Enabled(states[n - 1], events[n - 1]);
    StaysSevered(states, events, h + 1, n);
    AlwaysTracked(states, events, n);
    if PastCheck(states[n]) {
      DirtyRun(states, events);
    } else {
      forall after: seq<State>, more: seq<Event> | IsRun(states + after, events + more) && Restore !in more
        ensures (states + after)[|events + more|].running == {}
      {
        CleanRun(states + after, events + more, n, |events + more|);
      }
    }
  }

  lemma {:induction false} CleanRun(states: seq<State>, events: seq<Event>, i: nat, j: nat)
    requires IsRun(states, events) && i <= j < |states| && NoRestore(events, i, j)
    requires !states[i].enabled && states[i].running == {} && !states[i].acceptor.Cleared?
    ensures !states[j].enabled && states[j].running == {} && !states[j].acceptor.Cleared?
    decreases j
  {
    if i < j {
      CleanRun(states, events, i, j - 1);
      assert events[j - 1] != Restore && Enabled(states[j - 1], events[j - 1]);
    }
  }

  lemma DirtyRun(states: seq<State>, events: seq<Event>)
    requires IsRun(states, events) && PastCheck(states[|events|])
    ensures !StaysClean(states, events)
  {
    if states[|events|].running != {} {
      assert states + [] == states && events + [] == events;
      assert IsRun(states + [], events + []) && (states + [])[|events + []|].running != {};
    } else {
      var t := Fresh(states[|events|].spawned);
      SurvivorPossible(states, events, t);
      var after, more := [Next(states[|events|], Spawn(t))], [Spawn(t)];
      assert IsRun(states + after, events + more) && t in (states + after)[|events + more|].running;
    }
  }

  lemma {:induction false} Fresh(used: set<Task>) returns (t: Task)
    ensures forall u :: u in used ==> u < t
  {
    if used == {} {
      t := 0;
    } else {
      var u :| u in used;
      var v := Fresh(used - {u});
      assert forall w :: w in used ==> w == u || w in used - {u};
      t := if u < v then v else u + 1;
    }
  }

  /** Past the check, the run can go on with a new forward. */
  lemma SurvivorPossible(states: seq<State>, events: seq<Event>, t: Task)
    requires IsRun(states, events) && states[|events|].acceptor.Cleared? && t !in states[|events|].spawned
    ensures IsRun(states + [Next(states[|events|], Spawn(t))], events + [Spawn(t)])
    ensures t in Next(states[|events|], Spawn(t)).running
  {
    var last := states[|events|];
    var longer, more := states + [Next(last, Spawn(t))], events + [Spawn(t)];
    forall i | 0 <= i < |more| ensures Enabled(longer[i], more[i]) && longer[i + 1] == Next(longer[i], more[i]) {
      if i < |events| {
        assert Enabled(states[i], events[i]);
      }
    }
  }

  /** At most one connection is forwarded after the flag is stored: one already past its check. */
  lemma {:induction false} RefusesNew(states: seq<State>, events: seq<Event>, h: nat, j: nat)
    requires IsRun(states, events) && h <= j < |states| && !states[h].enabled && NoRestore(events, h, j)
    ensures states[h].spawned <= states[j].spawned
    ensures |states[j].spawned| + Pending(states[j]) <= |states[h].spawned| + Pending(states[h])
    ensures |states[j].spawned| <= |states[h].spawned| + if states[h].acceptor.Cleared? then 1 else 0
    decreases j
  {
    if h < j {
      RefusesNew(states, events, h, j - 1);
      StaysSevered(states, events, h, j - 1);
      assert events[j - 1] != Restore;
      StepRefuses(states[j - 1], events[j - 1]);
      hide Next, Enabled;
    }
  }

  function Pending(s: State): nat {
    if s.acceptor.Cleared? then 1 else 0
  }

  lemma StepRefuses(s: State, e: Event)
    requires !s.enabled && Enabled(s, e)
    ensures s.spawned <= Next(s, e).spawned
    ensures |Next(s, e).spawned| + Pending(Next(s, e)) <= |s.spawned| + Pending(s)
  {
  }

  // ---- Restore ----

  /** Whether the latest of the `sever` and `restore` steps before a point is a `sever`. */
  predicate LatestSevers(events: seq<Event>, j: nat)
    requires j <= |events|
  {
    exists k :: 0 <= k < j && events[k].Sever? && forall m :: k < m < j ==> events[m] != Restore
  }

  lemma LatestStep(events: seq<Event>, j: nat)
    requires j < |events|
    ensures LatestSevers(events, j + 1) <==> events[j].Sever? || (events[j] != Restore && LatestSevers(events, j))
  {
    if LatestSevers(events, j) && events[j] != Restore {
      var k :| 0 <= k < j && events[k].Sever? && forall m :: k < m < j ==> events[m] != Restore;
      assert forall m :: k < m < j + 1 ==> events[m] != Restore;
    }
  }

  lemma StepFlag(s: State, e: Event)
    requires Enabled(s, e)
    ensures Next(s, e).enabled == if e.Sever? then false else if e == Restore then true else s.enabled
  {
  }

  /** In every run the flag is off exactly while the latest of `sever` and `restore` is a `sever`. */
  lemma {:induction false} FlagExact(states: seq<State>, events: seq<Event>, j: nat)
    requires IsRun(states, events) && j < |states|
    ensures states[j].enabled <==> !LatestSevers(events, j)
  {
    if j > 0 {
      hide Next, Enabled, LatestSevers;
      FlagExact(states, events, j - 1);
      LatestStep(events, j - 1);
      StepFlag(states[j - 1], events[j - 1]);
    }
  }

  /** So a connection checked then is let through exactly if no `sever` is outstanding, and refused otherwise. */
  lemma CheckExact(states: seq<State>, events: seq<Event>, j: nat)
    requires IsRun(states, events) && j < |events| && events[j] == Check
    ensures states[j + 1].acceptor == if LatestSevers(events, j) then Waiting else Cleared
  {
    FlagExact(states, events, j);
    assert Enabled(states[j], events[j]);
  }

  /** After a `restore`, and until the next `sever`, every connection is let through. */
  lemma RestoreLets(states: seq<State>, events: seq<Event>, i: nat, j: nat)
    requires IsRun(states, events) && i < j < |events| && events[i] == Restore && events[j] == Check
    requires forall k :: i < k < j ==> !events[k].Sever?
    ensures states[j].enabled && states[j + 1].acceptor == Cleared
  {
    assert !LatestSevers(events, j) by {
      assert forall k :: 0 <= k < j && events[k].Sever? ==> k < i < j;
    }
    FlagExact(states, events, j);
    CheckExact(states, events, j);
  }

  // ---- Drop ----

  /** What can still be running once the accept loop has been told to stop. */
  function Residue(s: State): nat {
    |s.live| + if s.acceptor.Accepted? || s.acceptor.Cleared? || s.acceptor.Holding? then 1 else 0
  }

  lemma StepResidue(s: State, e: Event)
    requires s.dropped && Enabled(s, e)
    ensures Next(s, e).dropped && Residue(Next(s, e)) <= Residue(s)
  {
    RetainKeeps(s.live, s.running);
  }

  lemma {:induction false} StaysDropped(states: seq<State>, events: seq<Event>, h: nat, j: nat)
    requires IsRun(states, events) && h <= j < |states| && states[h].dropped
    ensures states[j].dropped && Residue(states[j]) <= Residue(states[h])
    decreases j
  {
    if h < j {
      hide Next, Enabled, Residue;
      StaysDropped(states, events, h, j - 1);
      StepResidue(states[j - 1], events[j - 1]);
    }
  }

  /** After `drop` at most one forward is ever running; none if the accept loop was back in `accept`. */
  lemma DropBound(states: seq<State>, events: seq<Event>, h: nat, i: nat, j: nat, c: Caller)
    requires IsRun(states, events) && h < i < j < |states|
    requires events[h] == Drop(c) && events[i] == Done(c)
    ensures |states[j].running| <= 1
    ensures states[i].acceptor.Waiting? || states[i].acceptor.Stopped? ==> states[j].running == {}
  {
    assert Enabled(states[h], events[h]) && Enabled(states[i], events[i]);
    StaysDropped(states, events, h + 1, i);
    StaysDropped(states, events, i, j);
    AlwaysTracked(states, events, j);
    ExposureBounds(states[j]);
    assert Exposure(states[j]) <= Residue(states[j]);
  }

  /** While `drop` runs, and after, nothing else calls: no `sever`, no `restore`, no second `drop`. */
  lemma {:induction false} DropAlone(states: seq<State>, events: seq<Event>, h: nat, j: nat, c: Caller)
    requires IsRun(states, events) && h < j < |states| && events[h] == Drop(c)
    ensures states[j].dropped && states[j].callers.Keys <= {c}
    ensures j < |events| ==> !events[j].Sever? && events[j] != Restore && !events[j].Drop?
    decreases j
  {
    assert Enabled(states[j - 1], events[j - 1]) && states[j] == Next(states[j - 1], events[j - 1]);
    assert j < |events| ==> Enabled(states[j], events[j]);
    if h < j - 1 {
      DropAlone(states, events, h, j - 1, c);
    }
  }

  // ---- The drain ----

  /** A caller with the lock, left to finish: every handle aborted, then the lock released. */
  function Drain(s: State, c: Caller): State
    requires c in s.callers && s.callers[c] == Draining
    decreases |s.live|
  {
    if s.live == [] then Next(s, Done(c)) else Drain(Next(s, AbortNext(c)), c)
  }

  /** The drain ends, with no listed forward running, every other one untouched, and the lock free again. */
  lemma {:induction false} DrainExact(s: State, c: Caller)
    requires c in s.callers && s.callers[c] == Draining
    ensures var listed := set i | 0 <= i < |s.live| :: s.live[i];
            Drain(s, c) == s.(live := [], running := s.running - listed, callers := s.callers - {c})
    decreases |s.live|
  {
    var listed := set i | 0 <= i < |s.live| :: s.live[i];
    if s.live == [] {
      assert s.running - listed == s.running;
    } else {
      var s' := Next(s, AbortNext(c));
      DrainExact(s', c);
      var rest := set i | 0 <= i < |s'.live| :: s'.live[i];
      assert listed == {s.live[0]} + rest by {
        assert forall i :: 0 < i < |s.live| ==> s.live[i] == s'.live[i - 1];
      }
      assert s.running - {s.live[0]} - rest == s.running - listed;
    }
  }

  /** Only one caller drains at a time. */
  predicate OneDrains(s: State) {
    forall c, d :: c in s.callers && d in s.callers && s.callers[c] == Draining && s.callers[d] == Draining ==> c == d
  }

  lemma {:induction false} AlwaysOneDrains(states: seq<State>, events: seq<Event>, i: nat)
    requires IsRun(states, events) && i < |states|
    ensures OneDrains(states[i])
  {
    if i > 0 {
      AlwaysOneDrains(states, events, i - 1);
      assert Enabled(states[i - 1], events[i - 1]) && states[i] == Next(states[i - 1], events[i - 1]);
      hide Retain;
    }
  }

  // ---- The bound is reached ----

  const RACE: seq<Event> := [Accept, Check, Sever(0), Lock(0), Done(0), Spawn(7), Push]

  /** The states of the race. */
  const RACE_STATES: seq<State> := [
    START,
    START.(acceptor := Accepted),
    START.(acceptor := Cleared),
    State(false, false, [], {}, {}, Cleared, map[0 := Locking]),
    State(false, false, [], {}, {}, Cleared, map[0 := Draining]),
    State(false, false, [], {}, {}, Cleared, map[]),
    State(false, false, [], {7}, {7}, Holding(7), map[]),
    State(false, false, [7], {7}, {7}, Waiting, map[])]

  /** A connection accepted before `sever` outlives it. */
  lemma SurvivorHappens()
    ensures IsRun(RACE_STATES, RACE) && RACE[2] == Sever(0) && RACE[4] == Done(0) && NoRestore(RACE, 0, 7)
    ensures RACE_STATES[7].running == {7}
  {
    assert forall i :: 0 <= i < 7 ==> RACE[i] != Restore;
    forall i | 0 <= i < |RACE|
      ensures Enabled(RACE_STATES[i], RACE[i]) && RACE_STATES[i + 1] == Next(RACE_STATES[i], RACE[i])
    {
      assert i == 0 || i == 1 || i == 2 || i == 3 || i == 4 || i == 5 || i == 6;
    }
  }
}
