/** From wherever it is, a process whose own steps do not fail gets its commit's tree into place. */
module ExtractionProgress {
  import opened Text
  import opened Extraction

  /** A tree already extracted is used as it is; without one the commit is looked up. */
  lemma LookUses(source: Source, states: seq<State>, events: seq<Event>, i: nat, p: Pid)
    requires IsRun(source, states, events) && i < |events| && events[i] == Look(p)
    ensures p in states[i + 1].procs && states[i + 1].fs == states[i].fs
    ensures states[i + 1].procs[p].pc ==
            if states[i + 1].procs[p].commit in states[i].fs.finals then Done(true) else Resolving
  {
    assert Enabled(source, states[i], events[i]);
  }

  predicate IsChain(source: Source, states: seq<State>, events: seq<Event>) {
    && |states| == |events| + 1
    && forall i :: 0 <= i < |events| ==>
         Enabled(source, states[i], events[i]) && states[i + 1] == Next(source, states[i], events[i])
  }

  /** The step a process takes next when nothing fails. */
  ghost function OwnStep(source: Source, s: State, p: Pid): Event
    requires p in s.procs && s.procs[p].commit in source
  {
    match s.procs[p].pc
    case Looking => Look(p)
    case Resolving => Resolve(p, true)
    case Clearing => ClearDone(p)
    case Making => Make(p, true, false)
    case Archiving => Archive(p, true, "")
    case Untarring(written) =>
      var left := source[s.procs[p].commit].Keys - written;
      if left == {} then UntarEnds(p, true) else var path :| path in left; UntarOne(p, path)
    case Renaming => Rename(p, false)
    case Cleaning(_, _) => CleanEnds(p, true)
    case Settling(_, _, _) => Settle(p)
    case Done(_) => Exit(p)
  }

  function Stage(pc: Pc): nat {
    match pc
    case Looking => 9
    case Resolving => 8
    case Clearing => 7
    case Making => 6
    case Archiving => 5
    case Untarring(_) => 4
    case Renaming => 3
    case Cleaning(_, _) => 2
    case Settling(_, _, _) => 1
    case Done(_) => 0
  }

  function Remaining(source: Source, s: State, p: Pid): nat
    requires p in s.procs && s.procs[p].commit in source
  {
    if s.procs[p].pc.Untarring? then |source[s.procs[p].commit].Keys - s.procs[p].pc.written| else 0
  }

  /** A step of its own is open to it, fails nothing, and brings it on. */
  predicate BringsOn(source: Source, s: State, p: Pid, e: Event)
    requires p in s.procs && s.procs[p].commit in source
  {
    && Actor(e) == Some(p) && !Fails(e) && !e.Exit? && Enabled(source, s, e)
    && var s' := Next(source, s, e);
       && p in s'.procs && s'.procs[p].commit == s.procs[p].commit
       && (Stage(s'.procs[p].pc) < Stage(s.procs[p].pc)
           || (Stage(s'.procs[p].pc) == Stage(s.procs[p].pc) && Remaining(source, s', p) < Remaining(source, s, p)))
  }

  lemma StepsOn(source: Source, s: State, p: Pid)
    requires Good(source, s) && p in s.procs && s.procs[p].commit in source && !s.procs[p].pc.Done?
    ensures BringsOn(source, s, p, OwnStep(source, s, p))
  {
    hide BringsOn, OwnStep, ProcessOk, Extracted;
    if s.procs[p].pc.Untarring? {
      UntarsOn(source, s, p);
    } else {
      assert ProcessOk(source, s, p);
      if Stage(s.procs[p].pc) > 4 {
        StartsOn(source, s, p);
      } else {
        EndsOn(source, s, p);
      }
    }
  }

  lemma StartsOn(source: Source, s: State, p: Pid)
    requires p in s.procs && s.procs[p].commit in source && Stage(s.procs[p].pc) > 4 && ProcessOk(source, s, p)
    ensures BringsOn(source, s, p, OwnStep(source, s, p))
  {
    hide Remaining;
  }

  lemma EndsOn(source: Source, s: State, p: Pid)
    requires p in s.procs && s.procs[p].commit in source && 0 < Stage(s.procs[p].pc) < 4 && ProcessOk(source, s, p)
    ensures BringsOn(source, s, p, OwnStep(source, s, p))
  {
    hide Remaining;
  }

  lemma UntarsOn(source: Source, s: State, p: Pid)
    requires Good(source, s) && p in s.procs && s.procs[p].commit in source && s.procs[p].pc.Untarring?
    ensures BringsOn(source, s, p, OwnStep(source, s, p))
  {
    var keys, written := source[s.procs[p].commit].Keys, s.procs[p].pc.written;
    assert ProcessOk(source, s, p);
    assert written <= keys && HasPartial(s, p) && MyPartial(s, p).tree.Some?;
    hide ProcessOk, Extracted;
    if keys - written == {} {
      assert forall path :: path in keys ==> path in (keys - written) || path in written;
      assert written == keys;
      UntarStops(source, s, p);
    } else {
      var e := OwnStep(source, s, p);
      assert e.UntarOne? && e.pid == p && e.path in keys - written;
      hide OwnStep;
      UntarsOne(source, s, p, e.path);
    }
  }

  lemma UntarStops(source: Source, s: State, p: Pid)
    requires p in s.procs && s.procs[p].commit in source
    requires s.procs[p].pc == Untarring(source[s.procs[p].commit].Keys)
    ensures BringsOn(source, s, p, OwnStep(source, s, p))
  {
    assert source[s.procs[p].commit].Keys - s.procs[p].pc.written == {};
  }

  lemma UntarsOne(source: Source, s: State, p: Pid, path: string)
    requires p in s.procs && s.procs[p].commit in source && s.procs[p].pc.Untarring?
    requires HasPartial(s, p) && MyPartial(s, p).tree.Some?
    requires path in source[s.procs[p].commit].Keys - s.procs[p].pc.written
    ensures BringsOn(source, s, p, UntarOne(p, path))
  {
    var keys, written := source[s.procs[p].commit].Keys, s.procs[p].pc.written;
    assert keys - (written + {path}) == (keys - written) - {path};
  }

  /**
   From every reachable state, a process none of whose steps has failed can finish by steps of its own,
   none failing, and then its commit's full tree is in place.
   */
  lemma {:induction false} Finishes(source: Source, s: State, p: Pid) returns (states: seq<State>, events: seq<Event>)
    requires Good(source, s) && p in s.procs && s.procs[p].commit in source && Healthy(s, p)
    ensures IsChain(source, states, events) && states[0] == s
    ensures forall k :: 0 <= k < |events| ==> Actor(events[k]) == Some(p) && !Fails(events[k]) && !events[k].Exit?
    ensures var last := states[|events|];
            At(last, p, Done(true)) && last.procs[p].commit == s.procs[p].commit
            && Extracted(source, last.fs, s.procs[p].commit)
    decreases Stage(s.procs[p].pc), Remaining(source, s, p)
  {
    if s.procs[p].pc.Done? {
      states, events := [s], [];
      assert ProcessOk(source, s, p);
      assert Extracted(source, s.fs, s.procs[p].commit);
    } else {
      hide OwnStep, Next, Enabled, Healthy, ProcessOk, Fails, Extracted;
      var e := OwnStep(source, s, p);
      StepsOn(source, s, p);
      var s' := Next(source, s, e);
      StepGood(source, s, e);
      HealthyStep(source, s, e, p);
      var rest, more := Finishes(source, s', p);
      states, events := [s] + rest, [e] + more;
      assert states[1..] == rest && events[1..] == more;
      forall i | 0 <= i < |events|
        ensures Enabled(source, states[i], events[i]) && states[i + 1] == Next(source, states[i], events[i])
      {
        if i > 0 {
          assert states[i] == rest[i - 1] && events[i] == more[i - 1] && states[i + 1] == rest[i];
        }
      }
    }
  }
}
