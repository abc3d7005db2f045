/**
 The cross-process cache of built upgrade packages: a mkdir lock, bounded waiting, and
 write-then-rename. Times are in milliseconds.
 */
module BuildCache {
  import opened Text
  import opened CacheKey

  type Pid = nat
  type Key = string
  type Artifact = string
  type Bytes = string

  const WAIT_WINDOW := 600_000
  const STALE_AGE := 900_000
  const POLL_DELAY := 2_000

  /** A package to build: the target version, the toolchain, and its files as sorted for the key. */
  datatype Package = Package(version: string, toolchain: string, sorted: seq<Listed>)

  /**
   What the protocol runs over: the packages that are built, their cache key, the compiler, and the
   cache file's format.
   */
  datatype World = World(admits: Package -> bool, key: Package -> Key, build: Package -> Artifact,
                         encode: Artifact -> Bytes, decode: Bytes -> Option<Artifact>)

  /** Decoding an encoded artifact gives it back; nothing is asked of torn or foreign bytes. */
  ghost predicate Faithful(w: World) {
    forall a :: w.decode(w.encode(a)) == Some(a)
  }

  datatype Pc =
    | Starting
    | Rooting
    | Locking
    | Guarding(started: nat, polls: nat)                  // at the head of the wait loop
    | Reading(started: nat, polls: nat)
    | Inspecting(started: nat, polls: nat)                // looking at the lock's age
    | Sleeping(started: nat, polls: nat, until: nat)
    | Building
    | Unlocking(built: bool)
    | Writing
    | Publishing
    | Returned(value: Artifact)
    | Failed

  datatype Process = Process(package: Package, pc: Pc)

  datatype State = State(now: nat, locks: map<Key, nat>, files: map<Key, Bytes>, temps: map<(Key, Pid), Bytes>,
                         procs: map<Pid, Process>)

  datatype Event =
    | Spawn(pid: Pid, package: Package)
    | Exit(pid: Pid)  // at any point: finished, failed or killed
    | Tick(time: nat)
    | ReadFirst(pid: Pid, ioError: bool)
    | Root(pid: Pid, ok: bool)
    | Lock(pid: Pid, ioError: bool)
    | Guard(pid: Pid)
    | PollRead(pid: Pid, ioError: bool)
    | PollLock(pid: Pid, ioError: bool)
    | Wake(pid: Pid)
    | Build(pid: Pid, ok: bool)
    | Unlock(pid: Pid, ioError: bool, serialized: bool)
    | WriteSome(pid: Pid, length: nat)
    | WriteEnds(pid: Pid, ok: bool)
    | Publish(pid: Pid, ioError: bool)

  function KeyOf(w: World, s: State, p: Pid): Key
    requires p in s.procs
  {
    w.key(s.procs[p].package)
  }

  function Output(w: World, s: State, p: Pid): Artifact
    requires p in s.procs
  {
    w.build(s.procs[p].package)
  }

  /** `read_cached_build`: the file, if it is there, can be read and decodes. */
  function Cached(w: World, s: State, key: Key, ioError: bool): Option<Artifact> {
    if key in s.files && !ioError then w.decode(s.files[key]) else None
  }

  /** Whether a waiter gives up on the lock: gone, unreadable, or too old. */
  predicate GivesUp(s: State, key: Key, ioError: bool) {
    ioError || key !in s.locks || (s.now >= s.locks[key] && s.now - s.locks[key] > STALE_AGE)
  }

  function SetPc(s: State, p: Pid, pc: Pc): State
    requires p in s.procs
  {
    s.(procs := s.procs[p := s.procs[p].(pc := pc)])
  }

  predicate Enabled(w: World, s: State, e: Event) {
    match e
    case Spawn(p, package) => p !in s.procs && w.admits(package)
    case Exit(p) => p in s.procs
    case Tick(time) => s.now <= time
    case ReadFirst(p, _) => p in s.procs && s.procs[p].pc == Starting
    case Root(p, _) => p in s.procs && s.procs[p].pc == Rooting
    case Lock(p, _) => p in s.procs && s.procs[p].pc == Locking
    case Guard(p) => p in s.procs && s.procs[p].pc.Guarding?
    case PollRead(p, _) => p in s.procs && s.procs[p].pc.Reading?
    case PollLock(p, _) => p in s.procs && s.procs[p].pc.Inspecting?
    case Wake(p) => p in s.procs && s.procs[p].pc.Sleeping? && s.procs[p].pc.until <= s.now
    case Build(p, _) => p in s.procs && s.procs[p].pc == Building
    case Unlock(p, _, _) => p in s.procs && s.procs[p].pc.Unlocking?
    case WriteSome(p, n) => p in s.procs && s.procs[p].pc == Writing && n <= |w.encode(Output(w, s, p))|
    case WriteEnds(p, _) => p in s.procs && s.procs[p].pc == Writing
    case Publish(p, _) => p in s.procs && s.procs[p].pc == Publishing && (KeyOf(w, s, p), p) in s.temps
  }

  function Next(w: World, s: State, e: Event): State
    requires Enabled(w, s, e)
  {
    match e
    case Spawn(p, package) => s.(procs := s.procs[p := Process(package, Starting)])
    case Exit(p) => s.(procs := s.procs - {p})
    case Tick(time) => s.(now := time)
    case ReadFirst(p, ioError) =>
      match Cached(w, s, KeyOf(w, s, p), ioError) {
        case Some(a) => SetPc(s, p, Returned(a))
        case None => SetPc(s, p, Rooting)
      }
    case Root(p, ok) => SetPc(s, p, if ok then Locking else Failed)
    case Lock(p, ioError) =>
      if ioError || KeyOf(w, s, p) in s.locks then SetPc(s, p, Guarding(s.now, 0))
      else SetPc(s.(locks := s.locks[KeyOf(w, s, p) := s.now]), p, Building)
    case Guard(p) =>
      var Guarding(started, polls) := s.procs[p].pc;
      SetPc(s, p, if s.now < started + WAIT_WINDOW then Reading(started, polls) else Building)
    case PollRead(p, ioError) =>
      match Cached(w, s, KeyOf(w, s, p), ioError) {
        case Some(a) => SetPc(s, p, Returned(a))
        case None => SetPc(s, p, Inspecting(s.procs[p].pc.started, s.procs[p].pc.polls))
      }
    case PollLock(p, ioError) =>
      var Inspecting(started, polls) := s.procs[p].pc;
      SetPc(s, p, if GivesUp(s, KeyOf(w, s, p), ioError) then Building
                  else Sleeping(started, polls, s.now + POLL_DELAY))
    case Wake(p) => SetPc(s, p, Guarding(s.procs[p].pc.started, s.procs[p].pc.polls + 1))
    case Build(p, ok) => SetPc(s, p, Unlocking(ok))
    case Unlock(p, ioError, serialized) =>
      var s' := if ioError then s else s.(locks := s.locks - {KeyOf(w, s, p)});
      var built := s.procs[p].pc.built;
      SetPc(s', p, if !built then Failed else if serialized then Writing else Returned(Output(w, s, p)))
    case WriteSome(p, n) => s.(temps := s.temps[(KeyOf(w, s, p), p) := w.encode(Output(w, s, p))[..n]])
    case WriteEnds(p, ok) =>
      if ok then SetPc(s.(temps := s.temps[(KeyOf(w, s, p), p) := w.encode(Output(w, s, p))]), p, Publishing)
      else SetPc(s, p, Returned(Output(w, s, p)))
    case Publish(p, ioError) =>
      var key := KeyOf(w, s, p);
      var s' := if ioError then s else s.(files := s.files[key := s.temps[(key, p)]], temps := s.temps - {(key, p)});
      SetPc(s', p, Returned(Output(w, s, p)))
  }

  // ---- What every step keeps ----

  /** The complete encoding of what some package with this key builds to. */
  ghost predicate Whole(w: World, key: Key, bytes: Bytes) {
    exists package :: w.admits(package) && w.key(package) == key && bytes == w.encode(w.build(package))
  }

  /** What some package with this key builds to. */
  ghost predicate BuiltFor(w: World, key: Key, a: Artifact) {
    exists package :: w.admits(package) && w.key(package) == key && a == w.build(package)
  }

  /** A waiter's polls are paid for in time, and none begins after the window. */
  predicate WaitOk(now: nat, pc: Pc) {
    match pc
    case Guarding(started, polls) => started + POLL_DELAY * polls <= now && POLL_DELAY * polls <= WAIT_WINDOW
    case Reading(started, polls) => started + POLL_DELAY * polls <= now && POLL_DELAY * polls < WAIT_WINDOW
    case Inspecting(started, polls) => started + POLL_DELAY * polls <= now && POLL_DELAY * polls < WAIT_WINDOW
    case Sleeping(started, polls, until) =>
      started + POLL_DELAY * (polls + 1) <= until && POLL_DELAY * polls < WAIT_WINDOW
    case _ => true
  }

  ghost predicate ProcessOk(w: World, s: State, p: Pid)
    requires p in s.procs
  {
    var pc := s.procs[p].pc;
    && WaitOk(s.now, pc) && w.admits(s.procs[p].package)
    && (pc.Returned? ==> BuiltFor(w, KeyOf(w, s, p), pc.value))
    && (pc.Publishing? ==> (KeyOf(w, s, p), p) in s.temps && s.temps[(KeyOf(w, s, p), p)] == w.encode(Output(w, s, p)))
  }

  ghost predicate Good(w: World, s: State) {
    && (forall key :: key in s.files ==> Whole(w, key, s.files[key]))
    && (forall p :: p in s.procs ==> ProcessOk(w, s, p))
  }

  function Actor(e: Event): Option<Pid> {
    match e
    case Tick(_) => None
    case _ => Some(e.pid)
  }

  lemma CachedBuilt(w: World, s: State, key: Key)
    requires Faithful(w) && Good(w, s) && Cached(w, s, key, false).Some?
    ensures BuiltFor(w, key, Cached(w, s, key, false).value)
  {
    assert Whole(w, key, s.files[key]);
    var package :| w.admits(package) && w.key(package) == key && s.files[key] == w.encode(w.build(package));
    assert Cached(w, s, key, false) == Some(w.build(package));
  }

  lemma FilesKept(w: World, s: State, e: Event, key: Key)
    requires Good(w, s) && Enabled(w, s, e) && key in Next(w, s, e).files
    ensures Whole(w, key, Next(w, s, e).files[key])
  {
    hide Cached, GivesUp, WaitOk;
    assert key in s.files ==> Whole(w, key, s.files[key]);
    if e.Publish? {
      assert ProcessOk(w, s, e.pid);
      assert w.key(s.procs[e.pid].package) == KeyOf(w, s, e.pid);
    } else {
      FilesSame(w, s, e);
    }
  }

  lemma FilesSame(w: World, s: State, e: Event)
    requires Enabled(w, s, e) && !e.Publish?
    ensures Next(w, s, e).files == s.files
  {
    hide Cached, GivesUp, KeyOf, Output;
  }

  lemma WaitKept(w: World, s: State, e: Event, p: Pid)
    requires Enabled(w, s, e) && (p in s.procs ==> WaitOk(s.now, s.procs[p].pc))
    ensures p in Next(w, s, e).procs ==> WaitOk(Next(w, s, e).now, Next(w, s, e).procs[p].pc)
  {
    if Actor(e) == Some(p) {
      ActorWait(w, s, e, p);
    } else {
      NowGrows(w, s, e);
      StepIsolated(w, s, e, p);
      hide Next, Enabled;
    }
  }

  lemma ActorWait(w: World, s: State, e: Event, p: Pid)
    requires Enabled(w, s, e) && Actor(e) == Some(p) && (p in s.procs ==> WaitOk(s.now, s.procs[p].pc))
    ensures p in Next(w, s, e).procs ==> WaitOk(Next(w, s, e).now, Next(w, s, e).procs[p].pc)
  {
    hide Cached, GivesUp, KeyOf, Output;
  }

  lemma NowGrows(w: World, s: State, e: Event)
    requires Enabled(w, s, e)
    ensures s.now <= Next(w, s, e).now
  {
    hide Cached, GivesUp, KeyOf, Output;
  }

  lemma ActorKept(w: World, s: State, e: Event, p: Pid)
    requires Faithful(w) && Good(w, s) && Enabled(w, s, e) && Actor(e) == Some(p)
    ensures p in Next(w, s, e).procs ==> ProcessOk(w, Next(w, s, e), p)
  {
    if p in s.procs {
      assert ProcessOk(w, s, p);
      hide WaitOk, GivesUp;
      WaitKept(w, s, e, p);
      assert w.key(s.procs[p].package) == KeyOf(w, s, p);
      if Cached(w, s, KeyOf(w, s, p), false).Some? {
        CachedBuilt(w, s, KeyOf(w, s, p));
      }
    }
  }

  /** A step touches no other process. */
  lemma StepIsolated(w: World, s: State, e: Event, q: Pid)
    requires Enabled(w, s, e) && Actor(e) != Some(q)
    ensures var s' := Next(w, s, e);
            (q in s'.procs <==> q in s.procs) && (q in s.procs ==> s'.procs[q] == s.procs[q])
  {
    hide GivesUp, Cached, KeyOf, Output;
  }

  /** Nor another process's temporary file. */
  lemma TempIsolated(w: World, s: State, e: Event, key: Key, q: Pid)
    requires Enabled(w, s, e) && Actor(e) != Some(q)
    ensures var s' := Next(w, s, e);
            && ((key, q) in s'.temps <==> (key, q) in s.temps)
            && ((key, q) in s.temps ==> s'.temps[(key, q)] == s.temps[(key, q)])
  {
    hide GivesUp, Cached, KeyOf, Output;
  }

  lemma OthersKept(w: World, s: State, e: Event, q: Pid)
    requires Good(w, s) && Enabled(w, s, e) && Actor(e) != Some(q) && q in Next(w, s, e).procs
    ensures ProcessOk(w, Next(w, s, e), q)
  {
    hide Next, Enabled, WaitOk, BuiltFor;
    StepIsolated(w, s, e, q);
    TempIsolated(w, s, e, KeyOf(w, s, q), q);
    assert ProcessOk(w, s, q);
    WaitKept(w, s, e, q);
  }

  lemma StepGood(w: World, s: State, e: Event)
    requires Faithful(w) && Good(w, s) && Enabled(w, s, e)
    ensures Good(w, Next(w, s, e))
  {
    hide Next, Enabled, ProcessOk, Whole;
    var s' := Next(w, s, e);
    forall key | key in s'.files ensures Whole(w, key, s'.files[key]) {
      FilesKept(w, s, e, key);
    }
    forall p | p in s'.procs ensures ProcessOk(w, s', p) {
      if Actor(e) == Some(p) {
        ActorKept(w, s, e, p);
      } else {
        OthersKept(w, s, e, p);
      }
    }
  }

  // ---- Whole runs ----

  predicate Steps(w: World, s: State, e: Event, s': State) {
    Enabled(w, s, e) && s' == Next(w, s, e)
  }

  /** A run from a cache whose files are whole; locks and temporary files may be anyone's leftovers. */
  ghost predicate IsRun(w: World, states: seq<State>, events: seq<Event>) {
    && |states| == |events| + 1
    && states[0].procs == map[]
    && (forall key :: key in states[0].files ==> Whole(w, key, states[0].files[key]))
    && forall i :: 0 <= i < |events| ==>
         Enabled(w, states[i], events[i]) && states[i + 1] == Next(w, states[i], events[i])
  }

  lemma {:induction false} RunGood(w: World, states: seq<State>, events: seq<Event>, i: nat)
    requires Faithful(w) && IsRun(w, states, events) && i < |states|
    ensures Good(w, states[i])
  {
    hide Next, Enabled, ProcessOk, Whole;
    if i > 0 {
      RunGood(w, states, events, i - 1);
      StepGood(w, states[i - 1], events[i - 1]);
    }
  }

  /** The hypothesis the cache rests on. */
  ghost predicate KeyDecides(w: World) {
    forall a, b :: w.admits(a) && w.admits(b) && w.key(a) == w.key(b) ==> w.build(a) == w.build(b)
  }

  /** In every run, a process that returns returns what its own package builds to. */
  lemma CacheCorrect(w: World, states: seq<State>, events: seq<Event>, i: nat, p: Pid)
    requires Faithful(w) && KeyDecides(w) && IsRun(w, states, events) && i < |states|
    requires p in states[i].procs && states[i].procs[p].pc.Returned?
    ensures states[i].procs[p].pc.value == w.build(states[i].procs[p].package)
  {
    hide Next, Enabled;
    RunGood(w, states, events, i);
    assert ProcessOk(w, states[i], p);
  }

  /** No reader ever meets a partly written cache file. */
  lemma NeverTorn(w: World, states: seq<State>, events: seq<Event>, i: nat, key: Key)
    requires Faithful(w) && IsRun(w, states, events) && i < |states| && key in states[i].files
    ensures exists package ::
              w.admits(package) && w.key(package) == key && states[i].files[key] == w.encode(w.build(package))
  {
    hide Next, Enabled;
    RunGood(w, states, events, i);
    assert Whole(w, key, states[i].files[key]);
  }

  /** Waiting is bounded: no process polls more than 300 times, and after that it builds. */
  lemma WaitBounded(w: World, states: seq<State>, events: seq<Event>, i: nat, p: Pid)
    requires Faithful(w) && IsRun(w, states, events) && i < |states| && p in states[i].procs
    ensures var pc := states[i].procs[p].pc;
            && (pc.Guarding? ==> pc.polls <= 300)
            && (pc.Reading? || pc.Inspecting? || pc.Sleeping? ==> pc.polls < 300)
    ensures i < |events| && events[i] == Guard(p) && states[i].procs[p].pc.polls == 300
            ==> states[i + 1].procs[p].pc == Building
  {
    RunGood(w, states, events, i);
    assert ProcessOk(w, states[i], p);
  }

  // ---- Every fallback builds rather than fails ----

  /** The only reports that may end in failure: no cache directory, or a build that failed. */
  predicate Fails(e: Event) {
    (e.Root? && !e.ok) || (e.Build? && !e.ok)
  }

  predicate Healthy(s: State, p: Pid)
    requires p in s.procs
  {
    !s.procs[p].pc.Failed? && s.procs[p].pc != Unlocking(false)
  }

  lemma HealthyStep(w: World, s: State, e: Event, p: Pid)
    requires Enabled(w, s, e) && p in s.procs && Healthy(s, p)
    requires Actor(e) == Some(p) ==> !Fails(e) && !e.Exit?
    ensures p in Next(w, s, e).procs && Healthy(Next(w, s, e), p)
  {
    hide GivesUp, Cached;
    if Actor(e) != Some(p) {
      StepIsolated(w, s, e, p);
    }
  }

  lemma {:induction false} OnlyBuildsFail(w: World, states: seq<State>, events: seq<Event>, i: nat, j: nat, p: Pid)
    requires IsRun(w, states, events) && i <= j < |states| && p in states[i].procs && states[i].procs[p].pc == Starting
    requires forall k :: i <= k < j && Actor(events[k]) == Some(p) ==> !Fails(events[k]) && !events[k].Exit?
    ensures p in states[j].procs && !states[j].procs[p].pc.Failed? && Healthy(states[j], p)
    decreases j
  {
    hide Next, Enabled, Fails;
    if i < j {
      OnlyBuildsFail(w, states, events, i, j - 1, p);
      HealthyStep(w, states[j - 1], events[j - 1], p);
    }
  }

  // ---- The hypothesis is needed ----

  function Collision(a: Package, b: Package): seq<Event> {
    [Spawn(0, a), ReadFirst(0, false), Root(0, true), Lock(0, false), Build(0, true), Unlock(0, false, true),
     WriteEnds(0, true), Publish(0, false), Spawn(1, b), ReadFirst(1, false)]
  }

  function Alone(a: Package, pc: Pc): State {
    State(0, map[], map[], map[], map[0 := Process(a, pc)])
  }

  function Holding(w: World, a: Package, pc: Pc): State {
    Alone(a, pc).(locks := map[w.key(a) := 0])
  }

  function After(w: World, a: Package, procs: map<Pid, Process>): State {
    State(0, map[], map[w.key(a) := w.encode(w.build(a))], map[], procs)
  }

  /** The states of a process that finds nothing cached and builds, then of one that reads its result. */
  function CollisionStates(w: World, a: Package, b: Package): seq<State> {
    var out := Process(a, Returned(w.build(a)));
    [State(0, map[], map[], map[], map[]), Alone(a, Starting), Alone(a, Rooting), Alone(a, Locking),
     Holding(w, a, Building), Holding(w, a, Unlocking(true)), Alone(a, Writing),
     Alone(a, Publishing).(temps := map[(w.key(a), 0) := w.encode(w.build(a))]),
     After(w, a, map[0 := out]), After(w, a, map[0 := out, 1 := Process(b, Starting)]),
     After(w, a, map[0 := out, 1 := Process(b, Returned(w.build(a)))])]
  }

  lemma FirstSteps(w: World, a: Package, b: Package, i: nat)
    requires i < 3 && w.admits(a)
    ensures var ss := CollisionStates(w, a, b); Steps(w, ss[i], Collision(a, b)[i], ss[i + 1])
  {
  }

  lemma LockStep(w: World, a: Package, b: Package)
    ensures var ss := CollisionStates(w, a, b); Steps(w, ss[3], Collision(a, b)[3], ss[4])
  {
  }

  lemma BuildSteps(w: World, a: Package, b: Package, i: nat)
    requires 4 <= i < 6
    ensures var ss := CollisionStates(w, a, b); Steps(w, ss[i], Collision(a, b)[i], ss[i + 1])
  {
  }

  lemma WriteStep(w: World, a: Package, b: Package)
    ensures var ss := CollisionStates(w, a, b); Steps(w, ss[6], Collision(a, b)[6], ss[7])
  {
  }

  lemma PublishStep(w: World, a: Package, b: Package)
    ensures var ss := CollisionStates(w, a, b); Steps(w, ss[7], Collision(a, b)[7], ss[8])
  {
  }

  lemma ReaderSteps(w: World, a: Package, b: Package, i: nat)
    requires Faithful(w) && w.admits(b) && w.key(a) == w.key(b) && 8 <= i < 10
    ensures var ss := CollisionStates(w, a, b); Steps(w, ss[i], Collision(a, b)[i], ss[i + 1])
  {
  }

  /** If two packages share a key but not an artifact, some run returns the wrong one. */
  lemma CollisionMisleads(w: World, a: Package, b: Package)
    requires Faithful(w) && w.admits(a) && w.admits(b) && w.key(a) == w.key(b) && w.build(a) != w.build(b)
    ensures var states := CollisionStates(w, a, b);
            && IsRun(w, states, Collision(a, b))
            && states[10].procs[1] == Process(b, Returned(w.build(a)))
            && states[10].procs[1].pc.value != w.build(states[10].procs[1].package)
  {
    hide Next, Enabled;
    var states, events := CollisionStates(w, a, b), Collision(a, b);
    forall i | 0 <= i < |events|
      ensures Enabled(w, states[i], events[i]) && states[i + 1] == Next(w, states[i], events[i])
    {
      if i < 3 {
        FirstSteps(w, a, b, i);
      } else if i == 3 {
        LockStep(w, a, b);
      } else if i < 6 {
        BuildSteps(w, a, b, i);
      } else if i == 6 {
        WriteStep(w, a, b);
      } else if i == 7 {
        PublishStep(w, a, b);
      } else {
        ReaderSteps(w, a, b, i);
      }
    }
  }

  /** Whatever a process returns in a run is what its own package builds to. */
  ghost predicate RunCorrect(w: World, states: seq<State>, events: seq<Event>) {
    IsRun(w, states, events) ==>
      forall i, p :: 0 <= i < |states| && p in states[i].procs && states[i].procs[p].pc.Returned? ==>
        states[i].procs[p].pc.value == w.build(states[i].procs[p].package)
  }

  /** The cache is right in every run exactly when equal keys give equal artifacts. */
  lemma CacheExact(w: World)
    requires Faithful(w)
    ensures KeyDecides(w) <==> forall states: seq<State>, events: seq<Event> :: RunCorrect(w, states, events)
  {
    hide IsRun;
    if KeyDecides(w) {
      forall states: seq<State>, events: seq<Event> ensures RunCorrect(w, states, events) {
        if IsRun(w, states, events) {
          forall i, p | 0 <= i < |states| && p in states[i].procs && states[i].procs[p].pc.Returned?
            ensures states[i].procs[p].pc.value == w.build(states[i].procs[p].package)
          {
            CacheCorrect(w, states, events, i, p);
          }
        }
      }
    } else {
      var a, b :| w.admits(a) && w.admits(b) && w.key(a) == w.key(b) && w.build(a) != w.build(b);
      CollisionMisleads(w, a, b);
      assert !RunCorrect(w, CollisionStates(w, a, b), Collision(a, b));
    }
  }
}
