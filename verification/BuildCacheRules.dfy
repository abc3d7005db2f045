/** When a process of the build cache returns a cached artifact, waits, or builds. */
module BuildCacheRules {
  import opened Text
  import opened BuildCache

  /** A read that meets a cache file returns that file's artifact, first or while waiting, in every run. */
  lemma CachedReturns(w: World, states: seq<State>, events: seq<Event>, i: nat, p: Pid)
    requires Faithful(w) && IsRun(w, states, events) && i < |events|
    requires events[i] == ReadFirst(p, false) || events[i] == PollRead(p, false)
    requires p in states[i].procs && w.key(states[i].procs[p].package) in states[i].files
    ensures p in states[i + 1].procs && states[i + 1].procs[p].pc.Returned?
    ensures w.encode(states[i + 1].procs[p].pc.value) == states[i].files[w.key(states[i].procs[p].package)]
  {
    var s, key := states[i], w.key(states[i].procs[p].package);
    assert Enabled(w, s, events[i]) && states[i + 1] == Next(w, s, events[i]);
    RunGood(w, states, events, i);
    assert Whole(w, key, s.files[key]);
    var package :| w.admits(package) && w.key(package) == key && s.files[key] == w.encode(w.build(package));
    assert Cached(w, s, key, false) == Some(w.build(package));
  }

  /** Without one, or unable to read it, a process goes on: to the lock at first, to look at the lock's age later. */
  lemma MissGoesOn(w: World, s: State, e: Event, p: Pid)
    requires Enabled(w, s, e) && Actor(e) == Some(p) && (e.ReadFirst? || e.PollRead?)
    requires e.ioError || w.key(s.procs[p].package) !in s.files
    ensures p in Next(w, s, e).procs
    ensures var pc := Next(w, s, e).procs[p].pc;
            if e.ReadFirst? then pc == Rooting
            else pc == Inspecting(s.procs[p].pc.started, s.procs[p].pc.polls)
  {
    hide GivesUp;
  }

  /**
   A process turns to building exactly when it takes the lock, when ten minutes of waiting are over, or
   when it finds the lock gone, unreadable, or more than fifteen minutes old.
   */
  lemma BuildsWhen(w: World, s: State, e: Event, p: Pid)
    requires Enabled(w, s, e) && Actor(e) == Some(p) && p in s.procs && !s.procs[p].pc.Building? && !e.Exit?
    ensures p in Next(w, s, e).procs
    ensures Next(w, s, e).procs[p].pc.Building? <==>
            var key := w.key(s.procs[p].package);
            || (e.Lock? && !e.ioError && key !in s.locks)
            || (e.Guard? && s.procs[p].pc.started + 600_000 <= s.now)
            || (e.PollLock? && (e.ioError || key !in s.locks || s.locks[key] + 900_000 < s.now))
  {
    hide Cached;
    if e.Spawn? {
      assert false;
    }
  }

  /** A waiter sleeps two seconds between polls, and polls again while its ten minutes last. */
  lemma WaitsWhen(w: World, s: State, e: Event, p: Pid)
    requires Enabled(w, s, e) && Actor(e) == Some(p) && p in Next(w, s, e).procs
    ensures var pc, pc' := if p in s.procs then s.procs[p].pc else Starting, Next(w, s, e).procs[p].pc;
            && (e.PollLock? && !pc'.Building? ==> pc' == Sleeping(pc.started, pc.polls, s.now + 2_000))
            && (e.Wake? ==> pc.until <= s.now && pc' == Guarding(pc.started, pc.polls + 1))
            && (e.Guard? && s.now < pc.started + 600_000 ==> pc' == Reading(pc.started, pc.polls))
            && (e.Lock? && !pc'.Building? ==> pc' == Guarding(s.now, 0))
  {
    hide Cached;
  }

  /** The lock is taken by the one that builds under it, dated, and given up after its build, however that ended. */
  lemma LockRules(w: World, s: State, e: Event, key: Key)
    requires Enabled(w, s, e)
    ensures var s' := Next(w, s, e);
            && (key in s'.locks && key !in s.locks <==>
                  e.Lock? && !e.ioError && key !in s.locks && key == w.key(s.procs[e.pid].package))
            && (key in s'.locks && key !in s.locks ==> s'.locks[key] == s.now)
            && (key in s.locks && key !in s'.locks <==>
                  key in s.locks && e.Unlock? && !e.ioError && key == w.key(s.procs[e.pid].package))
            && (key in s.locks && key in s'.locks ==> s'.locks[key] == s.locks[key])
  {
    hide Cached, GivesUp, Output;
  }

  /** A build is returned, after it was published if it could be written, and a failed build is a failure. */
  lemma BuildEnds(w: World, s: State, e: Event, p: Pid)
    requires Enabled(w, s, e) && Actor(e) == Some(p) && p in s.procs && !e.Exit?
    ensures var pc, pc', built := s.procs[p].pc, Next(w, s, e).procs[p].pc, w.build(s.procs[p].package);
            && (e.Root? ==> pc' == if e.ok then Locking else Failed)
            && (e.Build? ==> pc' == Unlocking(e.ok))
            && (e.Unlock? ==> pc' == if pc == Unlocking(false) then Failed
                                     else if e.serialized then Writing else Returned(built))
            && (e.WriteEnds? ==> pc' == if e.ok then Publishing else Returned(built))
            && (e.Publish? ==> pc' == Returned(built))
  {
    hide Cached, GivesUp;
  }

  predicate PublishesKey(w: World, s: State, e: Event, key: Key)
    requires Enabled(w, s, e)
  {
    e.Publish? && !e.ioError && key == w.key(s.procs[e.pid].package)
  }

  /** A cache file comes or changes by nothing but a rename that succeeded, which puts the whole temporary in place. */
  lemma FileRules(w: World, s: State, e: Event, key: Key)
    requires Enabled(w, s, e)
    ensures var files := Next(w, s, e).files;
            && (key in files <==> key in s.files || PublishesKey(w, s, e, key))
            && (PublishesKey(w, s, e, key) ==> files[key] == s.temps[(key, e.pid)])
            && (!PublishesKey(w, s, e, key) && key in s.files ==> files[key] == s.files[key])
  {
    hide Cached, GivesUp, Output;
  }

  /** A step of the process that goes well. */
  function OwnStep(p: Pid, pc: Pc): Event {
    match pc
    case Starting => ReadFirst(p, false)
    case Rooting => Root(p, true)
    case Locking => Lock(p, false)
    case Guarding(_, _) => Guard(p)
    case Reading(_, _) => PollRead(p, false)
    case Inspecting(_, _) => PollLock(p, false)
    case Sleeping(_, _, _) => Wake(p)
    case Building => Build(p, true)
    case Unlocking(_) => Unlock(p, false, true)
    case Writing => WriteEnds(p, true)
    case Publishing => Publish(p, false)
    case Returned(_) => Exit(p)
    case Failed => Exit(p)
  }

  /** In every run, no process is ever stuck: it can step on, a sleeping one from the moment it is due. */
  lemma NeverStuck(w: World, states: seq<State>, events: seq<Event>, i: nat, p: Pid)
    requires Faithful(w) && IsRun(w, states, events) && i < |states| && p in states[i].procs
    requires states[i].procs[p].pc.Sleeping? ==> states[i].procs[p].pc.until <= states[i].now
    ensures Enabled(w, states[i], OwnStep(p, states[i].procs[p].pc))
  {
    RunGood(w, states, events, i);
    assert ProcessOk(w, states[i], p);
  }
}
