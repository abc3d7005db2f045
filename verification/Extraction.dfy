/**
 Extracting a commit's tree beside its final directory and renaming it into place, by any number of
 processes that may fail, crash and have their process ids reused.
 */
module Extraction {
  import opened Text

  type Commit = string
  type Pid = nat

  /** Files by path. */
  type Tree = map<string, string>

  /** A process's own directory: an archive and a `tree/` being filled. */
  datatype Partial = Partial(archive: Option<string>, tree: Option<Tree>)

  /** The final directory of a commit: its tree, and what builds have added under `target/`. */
  datatype Final = Final(tree: Tree, target: Tree)

  /** The extraction root: `<commit>` and `.<commit>.partial-<pid>` entries. */
  datatype Fs = Fs(finals: map<Commit, Final>, partials: map<(Commit, Pid), Partial>)

  /** Where a process is in `Tree::at`. */
  datatype Pc =
    | Looking                                  // about to test whether the final directory exists
    | Resolving                                // asking git for the commit
    | Clearing                                 // removing what an earlier process of this id left
    | Making                                   // creating `tree/`
    | Archiving                                // running git archive
    | Untarring(written: set<string>)          // running tar
    | Renaming                                 // about to rename `tree/` into place
    | Cleaning(unpacked: bool, renamed: bool)  // removing the partial directory
    | Settling(unpacked: bool, renamed: bool, cleaned: bool)
    | Done(ok: bool)

  datatype Process = Process(commit: Commit, pc: Pc)

  /** `source` is what git holds; it never changes. */
  datatype State = State(fs: Fs, procs: map<Pid, Process>)

  type Source = map<Commit, Tree>

  datatype Event =
    | Spawn(pid: Pid, commit: Commit)
    | Exit(pid: Pid)  // at any point: finished, failed or killed
    | Look(pid: Pid)
    | Resolve(pid: Pid, found: bool)
    | ClearSome(pid: Pid, left: Partial)
    | ClearDone(pid: Pid)
    | ClearFails(pid: Pid)
    | Make(pid: Pid, ok: bool, begun: bool)
    | Archive(pid: Pid, ok: bool, bytes: string)
    | UntarOne(pid: Pid, path: string)
    | UntarEnds(pid: Pid, ok: bool)
    | Rename(pid: Pid, ioError: bool)
    | CleanSome(pid: Pid, left: Partial)
    | CleanEnds(pid: Pid, ok: bool)
    | Settle(pid: Pid)
    | Build(commit: Commit, target: Tree)

  // ---- Steps ----

  function SetPc(s: State, p: Pid, pc: Pc): State
    requires p in s.procs
  {
    s.(procs := s.procs[p := s.procs[p].(pc := pc)])
  }

  function SetPartial(s: State, p: Pid, partial: Partial): State
    requires p in s.procs
  {
    s.(fs := s.fs.(partials := s.fs.partials[(s.procs[p].commit, p) := partial]))
  }

  function DropPartial(s: State, p: Pid): State
    requires p in s.procs
  {
    s.(fs := s.fs.(partials := s.fs.partials - {(s.procs[p].commit, p)}))
  }

  /** POSIX rename onto an existing directory succeeds only if that directory is empty. */
  predicate Occupied(fs: Fs, commit: Commit) {
    commit in fs.finals && (fs.finals[commit].tree != map[] || fs.finals[commit].target != map[])
  }

  predicate At(s: State, p: Pid, pc: Pc) {
    p in s.procs && s.procs[p].pc == pc
  }

  predicate HasPartial(s: State, p: Pid) {
    p in s.procs && (s.procs[p].commit, p) in s.fs.partials
  }

  function MyPartial(s: State, p: Pid): Partial
    requires HasPartial(s, p)
  {
    s.fs.partials[(s.procs[p].commit, p)]
  }

  /** `remove_dir_all` part way: nothing new appears. */
  predicate Shrinks(before: Partial, after: Partial) {
    && (after.archive.Some? ==> after.archive == before.archive)
    && (after.tree.Some? ==> before.tree.Some? && after.tree.value.Items <= before.tree.value.Items)
  }

  predicate Enabled(source: Source, s: State, e: Event) {
    match e
    case Spawn(p, _) => p !in s.procs
    case Exit(p) => p in s.procs
    case Look(p) => At(s, p, Looking)
    case Resolve(p, found) => At(s, p, Resolving) && (found ==> s.procs[p].commit in source)
    case ClearSome(p, left) => At(s, p, Clearing) && HasPartial(s, p) && Shrinks(MyPartial(s, p), left)
    case ClearDone(p) => At(s, p, Clearing)
    case ClearFails(p) => At(s, p, Clearing) && HasPartial(s, p)
    case Make(p, _, _) => At(s, p, Making)
    case Archive(p, _, _) => At(s, p, Archiving) && HasPartial(s, p)
    case UntarOne(p, path) =>
      && p in s.procs && s.procs[p].pc.Untarring? && HasPartial(s, p) && MyPartial(s, p).tree.Some?
      && s.procs[p].commit in source && path in source[s.procs[p].commit]
    case UntarEnds(p, ok) =>
      && p in s.procs && s.procs[p].pc.Untarring? && s.procs[p].commit in source
      && (ok ==> s.procs[p].pc.written == source[s.procs[p].commit].Keys)
    case Rename(p, _) => At(s, p, Renaming) && HasPartial(s, p) && MyPartial(s, p).tree.Some?
    case CleanSome(p, left) =>
      p in s.procs && s.procs[p].pc.Cleaning? && HasPartial(s, p) && Shrinks(MyPartial(s, p), left)
    case CleanEnds(p, ok) => p in s.procs && s.procs[p].pc.Cleaning?
    case Settle(p) => p in s.procs && s.procs[p].pc.Settling?
    case Build(c, _) => c in s.fs.finals
  }

  function Next(source: Source, s: State, e: Event): State
    requires Enabled(source, s, e)
  {
    match e
    case Spawn(p, c) => s.(procs := s.procs[p := Process(c, Looking)])
    case Exit(p) => s.(procs := s.procs - {p})
    case Look(p) => SetPc(s, p, if s.procs[p].commit in s.fs.finals then Done(true) else Resolving)
    case Resolve(p, found) => SetPc(s, p, if found then Clearing else Done(false))
    case ClearSome(p, left) => SetPartial(s, p, left)
    case ClearDone(p) => SetPc(DropPartial(s, p), p, Making)
    case ClearFails(p) => SetPc(s, p, Done(false))
    case Make(p, ok, begun) =>
      if ok then SetPc(SetPartial(s, p, Partial(None, Some(map[]))), p, Archiving)
      else SetPc(if begun then SetPartial(s, p, Partial(None, None)) else s, p, Cleaning(false, false))
    case Archive(p, ok, bytes) =>
      var s' := SetPartial(s, p, MyPartial(s, p).(archive := Some(bytes)));
      SetPc(s', p, if ok then Untarring({}) else Cleaning(false, false))
    case UntarOne(p, path) =>
      var tree := MyPartial(s, p).tree.value[path := source[s.procs[p].commit][path]];
      SetPc(SetPartial(s, p, MyPartial(s, p).(tree := Some(tree))), p, Untarring(s.procs[p].pc.written + {path}))
    case UntarEnds(p, ok) => SetPc(s, p, if ok then Renaming else Cleaning(false, false))
    case Rename(p, ioError) =>
      var c := s.procs[p].commit;
      if ioError || Occupied(s.fs, c) then SetPc(s, p, Cleaning(true, false))
      else
        var final := Final(MyPartial(s, p).tree.value, map[]);
        var moved := SetPartial(s, p, MyPartial(s, p).(tree := None));
        SetPc(moved.(fs := moved.fs.(finals := moved.fs.finals[c := final])), p, Cleaning(true, true))
    case CleanSome(p, left) => SetPartial(s, p, left)
    case CleanEnds(p, ok) =>
      var s' := if ok then DropPartial(s, p) else s;
      SetPc(s', p, Settling(s.procs[p].pc.unpacked, s.procs[p].pc.renamed, ok))
    case Settle(p) =>
      var pc := s.procs[p].pc;
      var inPlace := pc.renamed || s.procs[p].commit in s.fs.finals;
      SetPc(s, p, Done(pc.unpacked && inPlace && pc.cleaned))
    case Build(c, target) => s.(fs := s.fs.(finals := s.fs.finals[c := s.fs.finals[c].(target := target)]))
  }

  // ---- What every step keeps ----

  predicate Extracted(source: Source, fs: Fs, c: Commit) {
    c in fs.finals && c in source && fs.finals[c].tree == source[c]
  }

  /** What a process at each point can rely on. */
  predicate ProcessOk(source: Source, s: State, p: Pid)
    requires p in s.procs
  {
    var c := s.procs[p].commit;
    match s.procs[p].pc
    case Looking => true
    case Resolving => true
    case Clearing => c in source
    case Making => c in source
    case Archiving => c in source && HasPartial(s, p) && MyPartial(s, p).tree == Some(map[])
    case Untarring(written) =>
      && c in source && HasPartial(s, p) && MyPartial(s, p).tree.Some?
      && var tree := MyPartial(s, p).tree.value;
         tree.Keys == written <= source[c].Keys && forall path :: path in tree ==> tree[path] == source[c][path]
    case Renaming => c in source && HasPartial(s, p) && MyPartial(s, p).tree == Some(source[c])
    case Cleaning(_, renamed) => renamed ==> c in s.fs.finals
    case Settling(_, renamed, cleaned) => (renamed ==> c in s.fs.finals) && (cleaned ==> !HasPartial(s, p))
    case Done(ok) => ok ==> c in s.fs.finals
  }

  ghost predicate Good(source: Source, s: State) {
    && (forall c :: c in s.fs.finals ==> Extracted(source, s.fs, c))
    && (forall p :: p in s.procs ==> ProcessOk(source, s, p))
  }

  function Actor(e: Event): Option<Pid> {
    match e
    case Build(_, _) => None
    case _ => Some(e.pid)
  }

  /** A step touches no partial directory but its own process's. */
  lemma StepIsolated(source: Source, s: State, e: Event, c: Commit, q: Pid)
    requires Enabled(source, s, e) && Actor(e) != Some(q)
    ensures var s' := Next(source, s, e);
            && ((c, q) in s.fs.partials <==> (c, q) in s'.fs.partials)
            && ((c, q) in s.fs.partials ==> s'.fs.partials[(c, q)] == s.fs.partials[(c, q)])
            && (q in s.procs <==> q in s'.procs) && (q in s.procs ==> s'.procs[q] == s.procs[q])
  {
  }

  /** A final directory, once there, is changed by nothing but a build's own output. */
  lemma FinalKept(source: Source, s: State, e: Event, c: Commit)
    requires Good(source, s) && Enabled(source, s, e) && c in s.fs.finals
    ensures c in Next(source, s, e).fs.finals
    ensures Next(source, s, e).fs.finals[c].tree == s.fs.finals[c].tree
    ensures !e.Build? ==> Next(source, s, e).fs.finals[c] == s.fs.finals[c]
  {
    if e.Rename? {
      assert ProcessOk(source, s, e.pid);
      assert Extracted(source, s.fs, c);
    }
  }

  lemma OthersKept(source: Source, s: State, e: Event, q: Pid)
    requires Good(source, s) && Enabled(source, s, e) && Actor(e) != Some(q) && q in s.procs
    ensures q in Next(source, s, e).procs && ProcessOk(source, Next(source, s, e), q)
  {
    StepIsolated(source, s, e, s.procs[q].commit, q);
    assert ProcessOk(source, s, q);
    if s.procs[q].commit in s.fs.finals {
      FinalKept(source, s, e, s.procs[q].commit);
    }
  }

  lemma ActorKept(source: Source, s: State, e: Event, p: Pid)
    requires Good(source, s) && Enabled(source, s, e) && Actor(e) == Some(p)
    ensures p in Next(source, s, e).procs ==> ProcessOk(source, Next(source, s, e), p)
  {
    if p in s.procs {
      assert ProcessOk(source, s, p);
      if e.UntarEnds? && e.ok {
        assert MyPartial(s, p).tree.value == source[s.procs[p].commit];
      }
    }
  }

  lemma FinalsKept(source: Source, s: State, e: Event, c: Commit)
    requires Good(source, s) && Enabled(source, s, e) && c in Next(source, s, e).fs.finals
    ensures Extracted(source, Next(source, s, e).fs, c)
  {
    if c in s.fs.finals {
      FinalKept(source, s, e, c);
      assert Extracted(source, s.fs, c);
    } else {
      assert ProcessOk(source, s, e.pid);
    }
  }

  lemma StepGood(source: Source, s: State, e: Event)
    requires Good(source, s) && Enabled(source, s, e)
    ensures Good(source, Next(source, s, e))
  {
    hide Next, Enabled, ProcessOk, Extracted;
    var s' := Next(source, s, e);
    forall c | c in s'.fs.finals ensures Extracted(source, s'.fs, c) {
      FinalsKept(source, s, e, c);
    }
    forall p | p in s'.procs ensures ProcessOk(source, s', p) {
      if Actor(e) == Some(p) {
        ActorKept(source, s, e, p);
      } else {
        NoNewcomer(source, s, e, p);
        OthersKept(source, s, e, p);
      }
    }
  }

  lemma NoNewcomer(source: Source, s: State, e: Event, p: Pid)
    requires Enabled(source, s, e) && Actor(e) != Some(p) && p in Next(source, s, e).procs
    ensures p in s.procs
  {
    StepIsolated(source, s, e, "", p);
  }

  // ---- Whole runs ----

  /** A run from a root where every final directory is complete; partial ones may hold anything. */
  ghost predicate IsRun(source: Source, states: seq<State>, events: seq<Event>) {
    && |states| == |events| + 1
    && states[0].procs == map[] && (forall c :: c in states[0].fs.finals ==> Extracted(source, states[0].fs, c))
    && forall i :: 0 <= i < |events| ==>
         Enabled(source, states[i], events[i]) && states[i + 1] == Next(source, states[i], events[i])
  }

  lemma {:induction false} RunGood(source: Source, states: seq<State>, events: seq<Event>, i: nat)
    requires IsRun(source, states, events) && i < |states|
    ensures Good(source, states[i])
  {
    hide Next, Enabled, ProcessOk, Extracted;
    if i > 0 {
      RunGood(source, states, events, i - 1);
      StepGood(source, states[i - 1], events[i - 1]);
    }
  }

  /** A final directory in place stays, with the commit's full tree, to the end of the run. */
  lemma {:induction false} FinalForever(source: Source, states: seq<State>, events: seq<Event>, i: nat, j: nat,
                                        c: Commit)
    requires IsRun(source, states, events) && i <= j < |states| && c in states[i].fs.finals
    ensures c in source && c in states[j].fs.finals && states[j].fs.finals[c].tree == source[c]
    ensures (forall k :: i <= k < j ==> !events[k].Build?) ==> states[j].fs.finals[c] == states[i].fs.finals[c]
    decreases j - i
  {
    hide Next, Enabled, ProcessOk;
    RunGood(source, states, events, i);
    assert Extracted(source, states[i].fs, c);
    if i < j {
      FinalKept(source, states[i], events[i], c);
      FinalForever(source, states, events, i + 1, j, c);
    }
  }

  /** A process that was told the tree is there always finds it, complete. */
  lemma SuccessLasts(source: Source, states: seq<State>, events: seq<Event>, i: nat, j: nat, p: Pid)
    requires IsRun(source, states, events) && i <= j < |states| && At(states[i], p, Done(true))
    ensures Extracted(source, states[j].fs, states[i].procs[p].commit)
  {
    hide Next, Enabled;
    RunGood(source, states, events, i);
    assert ProcessOk(source, states[i], p);
    FinalForever(source, states, events, i, j, states[i].procs[p].commit);
  }

  /** While a live process takes no step, its partial directory is untouched, whatever the others do. */
  lemma {:induction false} PartialUndisturbed(source: Source, states: seq<State>, events: seq<Event>, i: nat,
                                              j: nat, p: Pid)
    requires IsRun(source, states, events) && i <= j < |states| && p in states[i].procs
    requires forall k :: i <= k < j ==> Actor(events[k]) != Some(p)
    ensures p in states[j].procs && states[j].procs[p] == states[i].procs[p]
    ensures HasPartial(states[j], p) <==> HasPartial(states[i], p)
    ensures HasPartial(states[i], p) ==> MyPartial(states[j], p) == MyPartial(states[i], p)
    decreases j - i
  {
    hide Next, Enabled;
    if i < j {
      StepIsolated(source, states[i], events[i], states[i].procs[p].commit, p);
      PartialUndisturbed(source, states, events, i + 1, j, p);
    }
  }

  /** An extraction that succeeds leaves nothing behind. */
  lemma SuccessCleans(source: Source, states: seq<State>, events: seq<Event>, i: nat, p: Pid)
    requires IsRun(source, states, events) && i < |events|
    requires events[i] == Settle(p) && At(states[i + 1], p, Done(true))
    ensures !HasPartial(states[i + 1], p)
  {
    RunGood(source, states, events, i);
    assert ProcessOk(source, states[i], p);
  }

  // ---- Only failures fail ----

  /** A step that reports a failed lookup or a failed file operation. */
  predicate Fails(e: Event) {
    match e
    case Resolve(_, found) => !found
    case ClearFails(_) => true
    case Make(_, ok, _) => !ok
    case Archive(_, ok, _) => !ok
    case UntarEnds(_, ok) => !ok
    case Rename(_, ioError) => ioError
    case CleanEnds(_, ok) => !ok
    case _ => false
  }

  /** Where a process none of whose steps failed can be: a rename it lost means the tree is there. */
  predicate Healthy(s: State, p: Pid)
    requires p in s.procs
  {
    match s.procs[p].pc
    case Cleaning(unpacked, _) => unpacked && s.procs[p].commit in s.fs.finals
    case Settling(unpacked, _, cleaned) => unpacked && cleaned && s.procs[p].commit in s.fs.finals
    case Done(ok) => ok
    case _ => true
  }

  lemma HealthyStep(source: Source, s: State, e: Event, p: Pid)
    requires Good(source, s) && Enabled(source, s, e) && p in s.procs && Healthy(s, p)
    requires Actor(e) == Some(p) ==> !Fails(e) && !e.Exit?
    ensures p in Next(source, s, e).procs && Healthy(Next(source, s, e), p)
  {
    if Actor(e) != Some(p) {
      StepIsolated(source, s, e, "", p);
      if s.procs[p].commit in s.fs.finals {
        FinalKept(source, s, e, s.procs[p].commit);
      }
    }
  }

  /** A process that ends in failure had a step of its own fail: losing the race is no failure. */
  lemma {:induction false} OnlyFailuresFail(source: Source, states: seq<State>, events: seq<Event>, i: nat, j: nat,
                                            p: Pid)
    requires IsRun(source, states, events) && i <= j < |states| && At(states[i], p, Looking)
    requires forall k :: i <= k < j && Actor(events[k]) == Some(p) ==> !Fails(events[k]) && !events[k].Exit?
    ensures p in states[j].procs && Healthy(states[j], p)
    decreases j
  {
    hide Next, Enabled, ProcessOk, Extracted, Fails;
    if i < j {
      OnlyFailuresFail(source, states, events, i, j - 1, p);
      RunGood(source, states, events, j - 1);
      HealthyStep(source, states[j - 1], events[j - 1], p);
    }
  }

  // ---- Each process has a directory of its own ----

  function Digit(n: nat): char
    requires n < 10
  {
    "0123456789"[n]
  }

  function Decimal(n: nat): (s: string)
    ensures s != "" && forall i :: 0 <= i < |s| ==> IsDigit(s[i])
  {
    if n < 10 then [Digit(n)] else Decimal(n / 10) + [Digit(n % 10)]
  }

  /** The name of a process's partial directory for a commit. */
  function PartialName(c: Commit, p: Pid): string {
    "." + c + ".partial-" + Decimal(p)
  }

  lemma {:induction false} DecimalInjective(m: nat, n: nat)
    requires Decimal(m) == Decimal(n)
    ensures m == n
  {
    var a, b := Decimal(m), Decimal(n);
    assert a[|a| - 1] == Digit(m % 10) && b[|b| - 1] == Digit(n % 10);
    if m >= 10 && n >= 10 {
      assert Decimal(m / 10) == a[..|a| - 1] && Decimal(n / 10) == b[..|b| - 1];
      DecimalInjective(m / 10, n / 10);
    }
  }

  /** Two processes, or two commits, never share a partial directory, nor is one a final directory. */
  lemma NamesApart(c: Commit, p: Pid, c': Commit, p': Pid)
    requires c != "" && c[0] != '.'
    ensures PartialName(c', p') != c
    ensures PartialName(c, p) == PartialName(c', p') ==> c == c' && p == p'
  {
    assert PartialName(c', p')[0] == '.';
    if PartialName(c, p) == PartialName(c', p') {
      var d, d' := Decimal(p), Decimal(p');
      var s := PartialName(c, p);
      var a, a' := "." + c + ".partial", "." + c' + ".partial";
      assert s == a + ['-'] + d && s == a' + ['-'] + d';
      assert s[|a|] == '-' && s[|a'|] == '-';
      assert forall i :: |a| < i < |s| ==> s[i] == d[i - |a| - 1];
      assert forall i :: |a'| < i < |s| ==> s[i] == d'[i - |a'| - 1];
      assert |a| == |a'|;
      assert a == s[..|a|] && a' == s[..|a|];
      assert c == a[1..|a| - 8] && c' == a'[1..|a'| - 8];
      assert d == s[|a| + 1..] && d' == s[|a| + 1..];
      DecimalInjective(p, p');
    }
  }
}
