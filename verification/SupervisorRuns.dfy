/** Whole runs of the program: boot, then any interleaving of child exits, wake-ups, shutdown
    requests and run-level requests. */
module SupervisorRuns {
  import opened Wrappers
  import opened TaskGraph
  import opened SupervisorModel
  import opened SupervisorInvariant
  import opened SupervisorLiveness

  // ---- The system ------------------------------------------------------------------------

  datatype Config = Config(g: Graph, kinds: seq<Kind>, runLevels: map<string, seq<nat>>)

  ghost predicate ValidConfig(c: Config) {
    && WellFormed(c.g)
    && |c.kinds| == |c.g.deps|
    && forall name | name in c.runLevels :: Ids(c.runLevels[name], |c.kinds|)
  }

  datatype Target = Running | Reboot | PowerOff

  datatype System = System(state: State, target: Target)

  datatype Event =
    | ChildExited(t: nat)
    | QueueWoke(t: nat)
    | RebootRequested
    | PowerOffRequested
    | RunLevelRequested(name: string)
  {
    /** Completions, as opposed to requests from outside. */
    predicate Internal() { ChildExited? || QueueWoke? }
  }

  /** What a step needs to be defined. */
  ghost predicate Fits(c: Config, sys: System) {
    ValidConfig(c) && WellFormedFor(c.g, sys.state)
  }

  /** The constructor of `context`: an unknown run level makes it throw. */
  ghost function Boot(c: Config): (r: Option<System>)
    requires ValidConfig(c)
    ensures r.Some? ==> Fits(c, r.value)
  {
    if "default" !in c.runLevels then None
    else
      Some(System(
        SupervisorModel.Switch(c.g, Initial(c.g, c.kinds), Closure(c.g, c.runLevels["default"])),
        Running))
  }

  /** The events that can come. A wake-up pops a function; `WakeFindsFunction` shows that there
      always is one when the descriptor is readable. */
  predicate Enabled(sys: System, e: Event) {
    match e
    case ChildExited(t) => t < |sys.state.tasks| && sys.state.tasks[t].h.op.Some?
    case QueueWoke(t) =>
      t < |sys.state.tasks| && sys.state.tasks[t].h.signals > 0 && sys.state.tasks[t].h.queued > 0
    case _ => true
  }

  /** One event. A request for an unknown run level sets the target before the look-up
      throws. */
  ghost function Step(c: Config, sys: System, e: Event): (r: System)
    requires Fits(c, sys) && Enabled(sys, e)
    ensures Fits(c, r)
  {
    match e
    case ChildExited(t) => sys.(state := SupervisorModel.ChildExit(c.g, sys.state, t))
    case QueueWoke(t) => sys.(state := SupervisorModel.QueueWake(c.g, sys.state, t))
    case RebootRequested =>
      System(SupervisorModel.Switch(c.g, sys.state, {}), Reboot)
    case PowerOffRequested =>
      System(SupervisorModel.Switch(c.g, sys.state, {}), PowerOff)
    case RunLevelRequested(name) =>
      if name in c.runLevels then
        System(SupervisorModel.Switch(c.g, sys.state, Closure(c.g, c.runLevels[name])), Running)
      else
        sys.(target := Running)
  }

  ghost predicate SysInv(c: Config, sys: System) {
    && ValidConfig(c)
    && Inv(c.g, sys.state)
    && (sys.target != Running ==>
          forall t | 0 <= t < |sys.state.tasks| :: !sys.state.tasks[t].shouldWork)
  }

  lemma SysInvFits(c: Config, sys: System)
    requires SysInv(c, sys)
    ensures Fits(c, sys)
  {
  }

  // ---- Wishes ----------------------------------------------------------------------------

  /** The wishes of `s` are exactly the set `m`. */
  ghost predicate Wants(s: State, m: set<nat>) {
    forall t: nat | t < |s.tasks| :: s.tasks[t].shouldWork <==> t in m
  }

  lemma {:induction false} EnqueueListWishes(s: State, ids: seq<nat>, n: nat)
    requires n <= |ids| && Ids(ids, |s.tasks|)
    ensures forall t | 0 <= t < |s.tasks| ::
              EnqueueList(s, ids, n).tasks[t].shouldWork == s.tasks[t].shouldWork
    decreases n
  {
    if n > 0 {
      EnqueueListWishes(s, ids, n - 1);
    }
  }

  lemma {:induction false} EnqueueFirstWishes(s: State, n: nat)
    requires n <= |s.tasks|
    ensures forall t | 0 <= t < |s.tasks| ::
              EnqueueFirst(s, n).tasks[t].shouldWork == s.tasks[t].shouldWork
  {
    if n > 0 {
      EnqueueFirstWishes(s, n - 1);
    }
  }

  /** Completions change no wish. */
  lemma StateChangedWishes(g: Graph, s: State, t: nat, h: Handle, m: set<nat>)
    requires WellFormedFor(g, s) && t < |s.tasks| && Wants(s, m)
    ensures Wants(StateChanged(g, SetHandle(s, t, h), t), m)
  {
    var r := SetHandle(s, t, h);
    SyncFrame(g, r, t);
    EnqueueListWishes(Sync(g, r, t), Neighbours(g, r, t), |Neighbours(g, r, t)|);
  }

  lemma SwitchWishes(g: Graph, s: State, m: set<nat>)
    requires Inv(g, s) && ClosedSet(g, m)
    ensures Wants(SupervisorModel.Switch(g, s, m), m)
  {
    var w := Want(s, m);
    assert CountersExact(g, s);
    hide Core, WellFormed, CountersExact;
    WantKeepsCounters(g, s, m);
    SyncFirstExact(g, w, |w.tasks|);
    EnqueueFirstWishes(SyncFirst(g, w, |w.tasks|), |w.tasks|);
  }

  /** The set of tasks that the event asks for, if it is a successful switch. */
  ghost function Goal(c: Config, m: set<nat>, e: Event): set<nat> {
    match e
    case RebootRequested => {}
    case PowerOffRequested => {}
    case RunLevelRequested(name) =>
      if name in c.runLevels then Closure(c.g, c.runLevels[name]) else m
    case _ => m
  }

  // ---- Steps keep the invariant ----------------------------------------------------------

  lemma SwitchTo(c: Config, s: State, reqs: seq<nat>)
    requires ValidConfig(c) && Inv(c.g, s) && Ids(reqs, |c.kinds|)
    ensures ClosedSet(c.g, Closure(c.g, reqs))
    ensures Inv(c.g, SupervisorModel.Switch(c.g, s, Closure(c.g, reqs)))
    ensures Wants(SupervisorModel.Switch(c.g, s, Closure(c.g, reqs)), Closure(c.g, reqs))
  {
    ClosureIsClosed(c.g, reqs);
    SwitchKeeps(c, s, Closure(c.g, reqs));
  }

  /** A switch to the closed set `m`. */
  lemma SwitchKeeps(c: Config, s: State, m: set<nat>)
    requires Inv(c.g, s) && ClosedSet(c.g, m)
    ensures Inv(c.g, SupervisorModel.Switch(c.g, s, m))
    ensures Wants(SupervisorModel.Switch(c.g, s, m), m)
  {
    SwitchKeepsInv(c.g, s, m);
    SwitchWishes(c.g, s, m);
  }

  lemma CompletionKeeps(c: Config, sys: System, e: Event, m: set<nat>)
    requires SysInv(c, sys) && Enabled(sys, e) && e.Internal() && Wants(sys.state, m)
    ensures Inv(c.g, Step(c, sys, e).state) && Wants(Step(c, sys, e).state, m)
  {
    match e
    case ChildExited(t) =>
      ChildExitKeepsInv(c.g, sys.state, t);
      StateChangedWishes(c.g, sys.state, t, sys.state.tasks[t].h.Complete(), m);
    case QueueWoke(t) =>
      QueueWakeKeepsInv(c.g, sys.state, t);
      StateChangedWishes(c.g, sys.state, t, sys.state.tasks[t].h.Wake(), m);
  }

  /** While no task is wanted, none is wanted after a completion either. */
  lemma UnwantedStays(s: State, s': State, m: set<nat>)
    requires Wants(s, m) && Wants(s', m) && |s'.tasks| == |s.tasks|
    requires forall t | 0 <= t < |s.tasks| :: !s.tasks[t].shouldWork
    ensures forall t | 0 <= t < |s.tasks| :: !s'.tasks[t].shouldWork
  {
  }

  lemma StepKeepsInv(c: Config, sys: System, e: Event, m: set<nat>)
    requires SysInv(c, sys) && Enabled(sys, e) && Wants(sys.state, m)
    ensures SysInv(c, Step(c, sys, e)) && Wants(Step(c, sys, e).state, Goal(c, m, e))
    ensures |Step(c, sys, e).state.tasks| == |sys.state.tasks|
  {
    if e.Internal() {
      CompletionKeeps(c, sys, e, m);
      if sys.target != Running {
        UnwantedStays(sys.state, Step(c, sys, e).state, m);
      }
    } else if e.RunLevelRequested? {
      if e.name in c.runLevels {
        SwitchTo(c, sys.state, c.runLevels[e.name]);
      }
    } else {
      SwitchKeeps(c, sys.state, {});
    }
    hide Inv, Wants, Closure;
  }

  lemma BootKeepsInv(c: Config)
    requires ValidConfig(c) && Boot(c).Some?
    ensures SysInv(c, Boot(c).value)
    ensures Wants(Boot(c).value.state, Closure(c.g, c.runLevels["default"]))
  {
    InitialInv(c.g, c.kinds);
    SwitchTo(c, Initial(c.g, c.kinds), c.runLevels["default"]);
  }

  // ---- Runs ------------------------------------------------------------------------------

  ghost function Wishes(s: State): (m: set<nat>)
    ensures Wants(s, m)
  {
    set t: nat | t < |s.tasks| && s.tasks[t].shouldWork
  }

  /** The system after the events `es`, if each of them is possible when its turn comes. */
  ghost function After(c: Config, sys: System, es: seq<Event>): (r: Option<System>)
    requires Fits(c, sys)
    ensures r.Some? ==> Fits(c, r.value)
    decreases |es|
  {
    if es == [] then Some(sys)
    else if !Enabled(sys, es[0]) then None
    else After(c, Step(c, sys, es[0]), es[1..])
  }

  lemma {:induction false} AfterKeepsInv(c: Config, sys: System, es: seq<Event>)
    requires SysInv(c, sys) && Fits(c, sys) && After(c, sys, es).Some?
    ensures SysInv(c, After(c, sys, es).value)
    decreases |es|
  {
    hide SysInv, Fits, Step, Enabled;
    if es != [] {
      StepKeepsInv(c, sys, es[0], Wishes(sys.state));
      AfterKeepsInv(c, Step(c, sys, es[0]), es[1..]);
    }
  }

  lemma {:induction false} AfterAppend(c: Config, sys: System, es: seq<Event>, e: Event)
    requires Fits(c, sys) && After(c, sys, es).Some?
    ensures var mid := After(c, sys, es).value;
      After(c, sys, es + [e]) == if Enabled(mid, e) then Some(Step(c, mid, e)) else None
    decreases |es|
  {
    hide Fits, Step, Enabled;
    if es == [] {
      assert ([] + [e])[1..] == [];
    } else {
      assert (es + [e])[1..] == es[1..] + [e];
      AfterAppend(c, Step(c, sys, es[0]), es[1..], e);
    }
  }

  /** The first of the remaining events is possible, and the run goes on from there. */
  lemma AfterAdvance(c: Config, start: System, done: seq<Event>, sys: System, rest: seq<Event>)
    requires Fits(c, start) && Fits(c, sys) && rest != []
    requires After(c, start, done) == Some(sys) && After(c, sys, rest).Some?
    ensures Enabled(sys, rest[0]) && Fits(c, Step(c, sys, rest[0]))
    ensures After(c, start, done + [rest[0]]) == Some(Step(c, sys, rest[0]))
    ensures After(c, Step(c, sys, rest[0]), rest[1..]).Some?
  {
    hide Fits, Step, Enabled;
    AfterAppend(c, start, done, rest[0]);
  }

  ghost predicate Reaches(c: Config, es: seq<Event>, sys: System) {
    && ValidConfig(c)
    && Boot(c).Some?
    && After(c, Boot(c).value, es) == Some(sys)
  }

  ghost predicate Reachable(c: Config, sys: System) {
    exists es :: Reaches(c, es, sys)
  }

  lemma ReachableInv(c: Config, sys: System)
    requires Reachable(c, sys)
    ensures SysInv(c, sys)
  {
    hide SysInv, Boot, After;
    var es :| Reaches(c, es, sys);
    BootKeepsInv(c);
    AfterKeepsInv(c, Boot(c).value, es);
  }

  /** A readable descriptor always finds a function to run, also after coalesced pushes. */
  lemma WakeFindsFunction(c: Config, sys: System, t: nat)
    requires Reachable(c, sys) && t < |sys.state.tasks| && sys.state.tasks[t].h.signals > 0
    ensures Enabled(sys, QueueWoke(t))
  {
    ReachableInv(c, sys);
    assert sys.state.tasks[t].h.Ok();
  }

  // ---- Safety ----------------------------------------------------------------------------

  /** Ordering safety over whole runs: whatever is running, starting or stopping has every
      dependency running and not in transition, under every interleaving. */
  lemma OrderingSafety(c: Config, sys: System, u: nat, d: nat)
    requires Reachable(c, sys) && u < |sys.state.tasks| && d in c.g.deps[u]
    requires sys.state.tasks[u].h.running || sys.state.tasks[u].h.InTransition()
    ensures d < |sys.state.tasks|
    ensures sys.state.tasks[d].h.running && !sys.state.tasks[d].h.InTransition()
  {
    ReachableInv(c, sys);
    var k :| 0 <= k < |c.g.deps[u]| && c.g.deps[u][k] == d;
    assert sys.state.tasks[c.g.deps[u][k]].h.Up();
  }

  /** The counters refine the scan: they are never negative, they count edges with
      multiplicity, and a zero counter never claims more than the handles confirm. */
  lemma CountersRefineScan(c: Config, sys: System, t: nat)
    requires Reachable(c, sys) && t < |sys.state.tasks|
    ensures var s := sys.state; var x := s.tasks[t];
      && x.stoppedDeps == Count(c.g.deps[t], CountedDown(s))
      && x.liveUsers == Count(c.g.users[t], CountedLive(s))
      && s.pending == |CountedPending(s)|
      && (x.shouldWork && x.stoppedDeps == 0 ==>
            forall k | 0 <= k < |c.g.deps[t]| :: s.tasks[c.g.deps[t][k]].h.Up())
      && (!x.shouldWork && x.liveUsers == 0 ==>
            forall k | 0 <= k < |c.g.users[t]| :: !s.tasks[c.g.users[t][k]].h.Live())
  {
    ReachableInv(c, sys);
    var s := sys.state;
    if s.tasks[t].shouldWork && s.tasks[t].stoppedDeps == 0 {
      StartSound(c.g, s, t);
    }
    if !s.tasks[t].shouldWork && s.tasks[t].liveUsers == 0 {
      StopSound(c.g, s, t);
      forall k | 0 <= k < |c.g.users[t]| ensures !s.tasks[c.g.users[t][k]].h.Live() {
        EdgeBothWays(c.g, c.g.users[t][k], t);
      }
    }
  }

  /** Right after the sync of all tasks in a switch, the zero tests of every task are exactly the
      scans over the handles of its dependencies and dependants. */
  lemma SyncedZeroTests(c: Config, sys: System, m: set<nat>, t: nat)
    requires Reachable(c, sys) && t < |sys.state.tasks|
    ensures Fits(c, sys)
    ensures var r := SyncFirst(c.g, Want(sys.state, m), |sys.state.tasks|);
      && (r.tasks[t].stoppedDeps == 0 <==>
          forall k | 0 <= k < |c.g.deps[t]| :: sys.state.tasks[c.g.deps[t][k]].h.Up())
      && (r.tasks[t].liveUsers == 0 <==>
          forall k | 0 <= k < |c.g.users[t]| :: !sys.state.tasks[c.g.users[t][k]].h.Live())
  {
    hide SyncFirst;
    ReachableInv(c, sys);
    ZeroTestsAfterSync(c.g, sys.state, m, t);
  }

  /** The completion callbacks' assertions hold: a start in flight means not running, a stop
      in flight means running; the handle already knows what its task wants; a wake-up finds a
      function to run; and a task whose flags are stale has an event outstanding that will
      refresh them. */
  lemma CallbacksSafe(c: Config, sys: System, t: nat)
    requires Reachable(c, sys) && t < |sys.state.tasks|
    ensures var x := sys.state.tasks[t];
      && (x.h.op == Some(Start) ==> !x.h.running)
      && (x.h.op == Some(Stop) ==> x.h.running)
      && (x.h.InTransition() ==> x.h.wanted == x.shouldWork)
      && (x.h.signals > 0 ==> x.h.queued > 0)
      && (x.Exact() || x.h.InTransition() || x.h.signals > 0)
  {
    ReachableInv(c, sys);
    assert sys.state.tasks[t].h.Ok();
  }

  /** Tasks on a dependency cycle, or depending on one, never leave the stopped state. */
  lemma CyclesNeverStart(c: Config, sys: System, t: nat)
    requires Reachable(c, sys) && t < |sys.state.tasks| && ReachesCycle(c.g, t)
    ensures !sys.state.tasks[t].h.running && !sys.state.tasks[t].h.InTransition()
  {
    ReachableInv(c, sys);
    CycleIffLongWalk(c.g, t);
  }

  // ---- What a run asks for -----------------------------------------------------------------

  /** The tasks asked for by the last successful switch in `es`. */
  ghost function LastGoal(c: Config, m: set<nat>, es: seq<Event>): set<nat>
    decreases |es|
  {
    if es == [] then m
    else LastGoal(c, Goal(c, m, es[0]), es[1..])
  }

  lemma {:induction false} AfterWants(c: Config, sys: System, es: seq<Event>, m: set<nat>)
    requires SysInv(c, sys) && Wants(sys.state, m) && After(c, sys, es).Some?
    ensures Wants(After(c, sys, es).value.state, LastGoal(c, m, es))
    decreases |es|
  {
    if es != [] {
      StepKeepsInv(c, sys, es[0], Wishes(sys.state));
      StepKeepsInv(c, sys, es[0], m);
      AfterWants(c, Step(c, sys, es[0]), es[1..], Goal(c, m, es[0]));
    }
  }

  /** Marking is exact reachability, and only switches change it: after any run, a task should
      work exactly if it can be reached from a requisite of the last requested known run
      level, along dependencies. */
  lemma WishesExact(c: Config, es: seq<Event>, sys: System)
    requires Reaches(c, es, sys)
    ensures Wants(sys.state, LastGoal(c, Closure(c.g, c.runLevels["default"]), es))
  {
    BootKeepsInv(c);
    AfterWants(c, Boot(c).value, es, Closure(c.g, c.runLevels["default"]));
  }

  /** An event that changes what is wanted. */
  ghost predicate IsSwitch(c: Config, e: Event) {
    Shutdown(e) || (e.RunLevelRequested? && e.name in c.runLevels)
  }

  ghost predicate LastSwitch(c: Config, es: seq<Event>, k: nat) {
    k < |es| && IsSwitch(c, es[k]) && forall j | k < j < |es| :: !IsSwitch(c, es[j])
  }

  /** Task `t` is a requisite of the run level or a dependency of one, through others. */
  ghost predicate Needed(c: Config, name: string, t: nat)
    requires name in c.runLevels
  {
    exists r :: r in c.runLevels[name] && Reach(c.g, r, t)
  }

  lemma {:induction false} LastGoalKept(c: Config, m: set<nat>, es: seq<Event>)
    requires forall j | 0 <= j < |es| :: !IsSwitch(c, es[j])
    ensures LastGoal(c, m, es) == m
    decreases |es|
  {
    if es != [] {
      assert !IsSwitch(c, es[0]);
      LastGoalKept(c, m, es[1..]);
    }
  }

  lemma {:induction false} LastGoalOf(c: Config, m: set<nat>, es: seq<Event>, k: nat)
    requires LastSwitch(c, es, k)
    ensures LastGoal(c, m, es) == if Shutdown(es[k]) then {} else Closure(c.g, c.runLevels[es[k].name])
    decreases |es|
  {
    hide Closure;
    if k == 0 {
      LastGoalKept(c, Goal(c, m, es[0]), es[1..]);
    } else {
      LastGoalOf(c, Goal(c, m, es[0]), es[1..], k - 1);
    }
  }

  /** The last switch decides: after a shutdown request nothing is wanted, after a request for a
      known run level what that level needs; without either, what the default level needs. */
  lemma LastSwitchDecides(c: Config, es: seq<Event>, sys: System, t: nat)
    requires Reaches(c, es, sys) && t < |sys.state.tasks|
    ensures forall k: nat | LastSwitch(c, es, k) ::
      sys.state.tasks[t].shouldWork <==> es[k].RunLevelRequested? && Needed(c, es[k].name, t)
    ensures (forall j | 0 <= j < |es| :: !IsSwitch(c, es[j])) ==>
      (sys.state.tasks[t].shouldWork <==> Needed(c, "default", t))
  {
    hide After, SysInv;
    var m := Closure(c.g, c.runLevels["default"]);
    WishesExact(c, es, sys);
    assert Reachable(c, sys);
    ReachableInv(c, sys);
    TasksInGraph(c, sys);
    forall k: nat | LastSwitch(c, es, k)
      ensures sys.state.tasks[t].shouldWork <==> es[k].RunLevelRequested? && Needed(c, es[k].name, t)
    {
      LastGoalOf(c, m, es, k);
      SwitchEvent(c, es[k]);
    }
    if forall j | 0 <= j < |es| :: !IsSwitch(c, es[j]) {
      LastGoalKept(c, m, es);
    }
  }

  lemma SwitchEvent(c: Config, e: Event)
    requires IsSwitch(c, e)
    ensures if Shutdown(e) then !e.RunLevelRequested? else e.RunLevelRequested? && e.name in c.runLevels
  {
  }

  lemma TasksInGraph(c: Config, sys: System)
    requires SysInv(c, sys)
    ensures |sys.state.tasks| == |c.g.deps|
  {
    InvSizes(c.g, sys.state);
  }

  // ---- Nothing is disturbed ----------------------------------------------------------------

  /** As it should be: up and wanted, or stopped and unwanted. */
  predicate Content(x: Task) { if x.shouldWork then x.h.Up() else !x.h.Live() }

  /** `enqueue_this` on any tasks leaves the handle of such a task alone. */
  lemma {:induction false} EnqueueListContent(s: State, ids: seq<nat>, n: nat, t: nat)
    requires n <= |ids| && Ids(ids, |s.tasks|) && t < |s.tasks| && Content(s.tasks[t])
    ensures EnqueueList(s, ids, n).tasks[t] == s.tasks[t]
    decreases n
  {
    if n > 0 {
      EnqueueListContent(s, ids, n - 1, t);
    }
  }

  lemma {:induction false} EnqueueFirstContent(s: State, n: nat, t: nat)
    requires n <= |s.tasks| && t < |s.tasks| && Content(s.tasks[t])
    ensures EnqueueFirst(s, n).tasks[t] == s.tasks[t]
  {
    if n > 0 {
      EnqueueFirstContent(s, n - 1, t);
    }
  }

  lemma SwitchContent(g: Graph, s: State, m: set<nat>, t: nat)
    requires Inv(g, s) && t < |s.tasks| && Content(s.tasks[t].(shouldWork := t in m))
    ensures SupervisorModel.Switch(g, s, m).tasks[t].h == s.tasks[t].h
  {
    var w := Want(s, m);
    assert CountersExact(g, s);
    hide Core, WellFormed, CountersExact;
    WantKeepsCounters(g, s, m);
    SyncFirstExact(g, w, |w.tasks|);
    EnqueueFirstContent(SyncFirst(g, w, |w.tasks|), |w.tasks|, t);
  }

  lemma StateChangedContent(g: Graph, s: State, i: nat, t: nat)
    requires WellFormedFor(g, s) && i < |s.tasks| && t < |s.tasks| && Content(s.tasks[t])
    ensures StateChanged(g, s, i).tasks[t].h == s.tasks[t].h
  {
    SyncFrame(g, s, i);
    EnqueueListContent(Sync(g, s, i), Neighbours(g, s, i), |Neighbours(g, s, i)|, t);
  }

  lemma CompletionContent(c: Config, sys: System, e: Event, t: nat)
    requires SysInv(c, sys) && Enabled(sys, e) && e.Internal()
    requires t < |sys.state.tasks| && Content(sys.state.tasks[t])
    ensures Step(c, sys, e).state.tasks[t].h ==
      if e == QueueWoke(t) then sys.state.tasks[t].h.Wake() else sys.state.tasks[t].h
  {
    hide Core, TransitionWanted, AllIdle;
    match e
    case ChildExited(i) =>
      StateChangedContent(c.g, SetHandle(sys.state, i, sys.state.tasks[i].h.Complete()), i, t);
    case QueueWoke(i) =>
      StateChangedContent(c.g, SetHandle(sys.state, i, sys.state.tasks[i].h.Wake()), i, t);
  }

  /** No event disturbs a task that is as it should be after it: one that runs and is still wanted
      is neither stopped nor restarted, and one that is stopped and still unwanted is not
      started. Only a wake-up of its own takes a report from its queue. */
  lemma NothingDisturbed(c: Config, sys: System, e: Event, t: nat)
    requires Reachable(c, sys) && Enabled(sys, e) && t < |sys.state.tasks|
    ensures Fits(c, sys) && |Step(c, sys, e).state.tasks| == |sys.state.tasks|
    ensures Content(sys.state.tasks[t].(shouldWork := Step(c, sys, e).state.tasks[t].shouldWork)) ==>
      Step(c, sys, e).state.tasks[t].h ==
        if e == QueueWoke(t) then sys.state.tasks[t].h.Wake() else sys.state.tasks[t].h
  {
    ReachableInv(c, sys);
    var m := Wishes(sys.state);
    StepKeepsInv(c, sys, e, m);
    hide Inv, Closure;
    if Content(sys.state.tasks[t].(shouldWork := Step(c, sys, e).state.tasks[t].shouldWork)) {
      if e.Internal() {
        CompletionContent(c, sys, e, t);
      } else if !e.RunLevelRequested? || e.name in c.runLevels {
        SwitchContent(c.g, sys.state, Goal(c, m, e), t);
      }
    }
  }

  // ---- Liveness ----------------------------------------------------------------------------

  /** How many of the events are completions of task `t`. */
  function EventsOf(es: seq<Event>, t: nat): nat {
    if es == [] then 0
    else (if es[0] == ChildExited(t) || es[0] == QueueWoke(t) then 1 else 0) + EventsOf(es[1..], t)
  }

  ghost predicate AllInternal(es: seq<Event>) {
    forall k | 0 <= k < |es| :: es[k].Internal()
  }

  lemma StepProgress(c: Config, sys: System, e: Event)
    requires SysInv(c, sys) && Enabled(sys, e) && e.Internal()
    ensures Progress(sys.state, Step(c, sys, e).state, e.t)
  {
    match e
    case ChildExited(t) => ChildExitProgress(c.g, sys.state, t);
    case QueueWoke(t) =>
      QueueWakeProgress(c.g, sys.state, t);
  }

  lemma {:induction false} RunEnds(c: Config, sys: System, es: seq<Event>)
    requires SysInv(c, sys) && AllInternal(es) && After(c, sys, es).Some?
    ensures |es| + Measure(After(c, sys, es).value.state) <= Measure(sys.state)
    ensures |es| <= 2 * |sys.state.tasks|
    ensures forall t: nat | t < |sys.state.tasks| ::
              EventsOf(es, t) <= Work(sys.state.tasks[t]) <= 2
    decreases |es|
  {
    hide SysInv, Step;
    TotalBound(sys.state.tasks);
    if es != [] {
      var e := es[0];
      assert e.Internal();
      StepKeepsInv(c, sys, e, Wishes(sys.state));
      StepProgress(c, sys, e);
      ProgressMeasure(sys.state, Step(c, sys, e).state, e.t);
      RunEnds(c, Step(c, sys, e), es[1..]);
    }
  }

  /** Without further requests, every task has at most two more events, and the whole run has
      at most twice as many events as there are tasks. */
  lemma RunsEnd(c: Config, sys: System, es: seq<Event>)
    requires Reachable(c, sys) && AllInternal(es)
    ensures Fits(c, sys)
    ensures After(c, sys, es).Some? ==>
      && |es| <= 2 * |sys.state.tasks|
      && forall t: nat | t < |sys.state.tasks| :: EventsOf(es, t) <= 2
  {
    hide After, AllInternal, EventsOf;
    ReachableInv(c, sys);
    SysInvFits(c, sys);
    if After(c, sys, es).Some? {
      RunEnds(c, sys, es);
    }
  }

  lemma RestHasNoEvent(c: Config, sys: System)
    requires SysInv(c, sys)
    ensures AtRest(sys.state) <==> forall e: Event | e.Internal() :: !Enabled(sys, e)
  {
    if forall e: Event | e.Internal() :: !Enabled(sys, e) {
      forall t: nat | t < |sys.state.tasks| ensures !Announced(sys.state.tasks[t]) {
        assert !Enabled(sys, ChildExited(t)) && !Enabled(sys, QueueWoke(t));
        assert sys.state.tasks[t].h.Ok();
      }
    }
  }

  /** No completion is outstanding exactly when the supervisor is at rest. */
  lemma RestIffNoEvent(c: Config, sys: System)
    requires Reachable(c, sys)
    ensures AtRest(sys.state) <==> forall e: Event | e.Internal() :: !Enabled(sys, e)
  {
    ReachableInv(c, sys);
    RestHasNoEvent(c, sys);
  }

  lemma {:induction false} RestFollows(c: Config, sys: System) returns (es: seq<Event>)
    requires SysInv(c, sys) && Fits(c, sys)
    ensures AllInternal(es) && After(c, sys, es).Some?
    ensures AtRest(After(c, sys, es).value.state)
    decreases Measure(sys.state)
  {
    hide SysInv, Step;
    if AtRest(sys.state) {
      es := [];
    } else {
      RestHasNoEvent(c, sys);
      var e: Event :| e.Internal() && Enabled(sys, e);
      StepKeepsInv(c, sys, e, Wishes(sys.state));
      StepProgress(c, sys, e);
      ProgressMeasure(sys.state, Step(c, sys, e).state, e.t);
      var rest := RestFollows(c, Step(c, sys, e));
      es := [e] + rest;
      assert es[1..] == rest;
    }
  }

  /** From every reachable state completions alone lead to rest. */
  lemma RestReached(c: Config, sys: System)
    requires Reachable(c, sys)
    ensures Fits(c, sys)
    ensures exists es :: AllInternal(es) && After(c, sys, es).Some? && AtRest(After(c, sys, es).value.state)
  {
    hide After, AllInternal, AtRest;
    ReachableInv(c, sys);
    SysInvFits(c, sys);
    var es := RestFollows(c, sys);
  }

  /** The tasks of `m` that can never be started. */
  ghost function Stuck(g: Graph, m: set<nat>): set<nat> {
    set t: nat | t in m && t < |g.deps| && ReachesCycle(g, t)
  }

  /** Exactly the tasks of `m` that do not depend on a cycle are running, and the others of `m`
      are pending. */
  ghost predicate Reached(g: Graph, s: State, m: set<nat>) {
    && (forall t: nat | t < |s.tasks| ::
          s.tasks[t].h.running <==> t in m && !ReachesCycle(g, t))
    && s.pending == |Stuck(g, m)|
  }

  lemma InvSizes(g: Graph, s: State)
    requires Inv(g, s)
    ensures |s.tasks| == |g.deps|
  {
  }

  lemma RestReachesGoal(g: Graph, s: State, m: set<nat>)
    requires Inv(g, s) && AtRest(s) && Wants(s, m)
    ensures Reached(g, s, m)
  {
    hide Inv, AtRest, ReachesCycle;
    forall t: nat | t < |s.tasks|
      ensures s.tasks[t].h.running <==> t in m && !ReachesCycle(g, t)
    {
      RestConfiguration(g, s, t);
    }
    RestPending(g, s);
    InvSizes(g, s);
    assert Stuck(g, m)
        == (set t: nat | t < |s.tasks| && s.tasks[t].shouldWork && ReachesCycle(g, t));
  }

  /** Convergence, on any graph: whatever the interleaving, a run that has come to rest runs
      exactly the tasks that the last request asks for and that do not depend on a cycle; and
      `pending_tasks` is the number of requested tasks that do. */
  lemma Convergence(c: Config, es: seq<Event>, sys: System)
    requires Reaches(c, es, sys) && AtRest(sys.state)
    ensures Reached(c.g, sys.state, LastGoal(c, Closure(c.g, c.runLevels["default"]), es))
  {
    hide AtRest, LastGoal, Closure;
    WishesExact(c, es, sys);
    ReachableInv(c, sys);
    RestReachesGoal(c.g, sys.state, LastGoal(c, Closure(c.g, c.runLevels["default"]), es));
  }

  /** On an acyclic graph nothing is left pending at rest. */
  lemma AcyclicConvergence(c: Config, es: seq<Event>, sys: System, t: nat)
    requires Reaches(c, es, sys) && AtRest(sys.state) && Acyclic(c.g) && t < |sys.state.tasks|
    ensures sys.state.tasks[t].h.running == sys.state.tasks[t].shouldWork
    ensures sys.state.pending == 0
  {
    var goal := LastGoal(c, Closure(c.g, c.runLevels["default"]), es);
    Convergence(c, es, sys);
    WishesExact(c, es, sys);
    forall u: nat | u < |c.g.deps| ensures !ReachesCycle(c.g, u) {
      AcyclicReachesNone(c.g, u);
    }
    assert Stuck(c.g, goal) == {};
    ReachableInv(c, sys);
  }

  // ---- Shutdown ------------------------------------------------------------------------------

  /** `context::is_active`, the condition of the main loop. */
  predicate IsActive(sys: System) {
    sys.target == Running || sys.state.pending != 0
  }

  lemma InactiveStopped(c: Config, sys: System, t: nat)
    requires SysInv(c, sys) && !IsActive(sys) && t < |sys.state.tasks|
    ensures sys.target == Reboot || sys.target == PowerOff
    ensures !sys.state.tasks[t].h.running && sys.state.tasks[t].h.op == None
  {
    assert CountedPending(sys.state) == {};
    assert t !in CountedPending(sys.state);
  }

  /** Clean exit: when the main loop ends, the target is reboot or power-off and no task is
      running or in transition, so the destructors' assertions hold. */
  lemma CleanExit(c: Config, sys: System, t: nat)
    requires Reachable(c, sys) && !IsActive(sys) && t < |sys.state.tasks|
    ensures sys.target == Reboot || sys.target == PowerOff
    ensures !sys.state.tasks[t].h.running && sys.state.tasks[t].h.op == None
  {
    ReachableInv(c, sys);
    InactiveStopped(c, sys, t);
  }

  /** Shutdown drains on every graph, cyclic ones included: once a shutdown was requested and
      no completion is outstanding, the main loop ends. With `RunsEnd` and `RestReached` this
      happens after at most two events per task. */
  lemma ShutdownDrains(c: Config, sys: System)
    requires Reachable(c, sys) && sys.target != Running && AtRest(sys.state)
    ensures !IsActive(sys)
  {
    ReachableInv(c, sys);
    RestPending(c.g, sys.state);
    assert (set t: nat | t < |sys.state.tasks| && sys.state.tasks[t].shouldWork
                         && ReachesCycle(c.g, t)) == {};
  }

  // ---- Unknown run levels ------------------------------------------------------------------

  /** A request for an unknown run level never touches the tasks; it leaves the whole system
      alone exactly when no shutdown is under way. */
  lemma UnknownRunLevel(c: Config, sys: System, name: string)
    requires Fits(c, sys) && name !in c.runLevels
    ensures Step(c, sys, RunLevelRequested(name)).state == sys.state
    ensures Step(c, sys, RunLevelRequested(name)) == sys <==> sys.target == Running
  {
  }

  predicate Shutdown(e: Event) { e == RebootRequested || e == PowerOffRequested }

  /** Any request for a run level, for an unknown one too, cancels a shutdown: until another
      shutdown is requested the main loop goes on for ever. */
  lemma RequestCancelsShutdown(c: Config, es: seq<Event>, j: nat, sys: System)
    requires Reaches(c, es, sys) && j < |es| && es[j].RunLevelRequested?
    requires forall k | j < k < |es| :: !Shutdown(es[k])
    ensures IsActive(sys)
  {
    LastRequestRuns(c, Boot(c).value, es, j);
  }

  lemma {:induction false} LastRequestRuns(c: Config, sys: System, es: seq<Event>, j: nat)
    requires Fits(c, sys) && After(c, sys, es).Some? && j < |es| && es[j].RunLevelRequested?
    requires forall k | j < k < |es| :: !Shutdown(es[k])
    ensures After(c, sys, es).value.target == Running
    decreases |es|
  {
    hide Fits;
    if j == 0 {
      StaysRunning(c, Step(c, sys, es[0]), es[1..]);
    } else {
      LastRequestRuns(c, Step(c, sys, es[0]), es[1..], j - 1);
    }
  }

  lemma {:induction false} StaysRunning(c: Config, sys: System, es: seq<Event>)
    requires Fits(c, sys) && sys.target == Running && After(c, sys, es).Some?
    requires forall k | 0 <= k < |es| :: !Shutdown(es[k])
    ensures After(c, sys, es).value.target == Running
    decreases |es|
  {
    hide Fits;
    if es != [] {
      assert !Shutdown(es[0]);
      StaysRunning(c, Step(c, sys, es[0]), es[1..]);
    }
  }

  /** Event `k` is a shutdown request and no request for a run level comes after it. */
  predicate LastShutdown(es: seq<Event>, k: nat) {
    k < |es| && Shutdown(es[k]) && forall j | k < j < |es| :: !es[j].RunLevelRequested?
  }

  lemma LastShutdownLater(es: seq<Event>, k: nat)
    requires es != [] && k > 0
    ensures LastShutdown(es, k) <==> LastShutdown(es[1..], k - 1)
  {
    if LastShutdown(es[1..], k - 1) {
      forall j | k < j < |es| ensures !es[j].RunLevelRequested? {
        assert !es[1..][j - 1].RunLevelRequested?;
      }
    }
    if LastShutdown(es, k) {
      forall j | k - 1 < j < |es[1..]| ensures !es[1..][j].RunLevelRequested? {
        assert es[1..][j] == es[j + 1];
      }
    }
  }

  predicate NoRequest(es: seq<Event>) { forall j | 0 <= j < |es| :: !es[j].RunLevelRequested? }

  lemma NoRequestFirst(es: seq<Event>)
    requires es != []
    ensures NoRequest(es) <==> !es[0].RunLevelRequested? && NoRequest(es[1..])
    ensures LastShutdown(es, 0) <==> Shutdown(es[0]) && NoRequest(es[1..])
  {
    if NoRequest(es[1..]) {
      forall j | 0 < j < |es| ensures !es[j].RunLevelRequested? {
        assert !es[1..][j - 1].RunLevelRequested?;
      }
    }
    if LastShutdown(es, 0) || NoRequest(es) {
      forall j | 0 <= j < |es[1..]| ensures !es[1..][j].RunLevelRequested? {
        assert es[1..][j] == es[j + 1];
      }
    }
  }

  /** Event `k` is the last request, for a shutdown or for a run level. */
  ghost predicate LastRequest(es: seq<Event>, k: nat) {
    k < |es| && !es[k].Internal() && forall j | k < j < |es| :: es[j].Internal()
  }

  /** What becomes of the target when `e` is the last request. */
  predicate Answers(target: Target, e: Event) {
    && (target == Reboot <==> e == RebootRequested)
    && (target == PowerOff <==> e == PowerOffRequested)
    && (target == Running <==> e.RunLevelRequested?)
  }

  lemma {:induction false} TargetKept(c: Config, sys: System, es: seq<Event>)
    requires Fits(c, sys) && After(c, sys, es).Some? && AllInternal(es)
    ensures After(c, sys, es).value.target == sys.target
    decreases |es|
  {
    hide Fits;
    if es != [] {
      assert es[0].Internal();
      TargetKept(c, Step(c, sys, es[0]), es[1..]);
    }
  }

  lemma {:induction false} LastRequestAnswered(c: Config, sys: System, es: seq<Event>, k: nat)
    requires Fits(c, sys) && After(c, sys, es).Some? && LastRequest(es, k)
    ensures Answers(After(c, sys, es).value.target, es[k])
    decreases |es|
  {
    hide Fits;
    if k == 0 {
      TargetKept(c, Step(c, sys, es[0]), es[1..]);
    } else {
      LastRequestAnswered(c, Step(c, sys, es[0]), es[1..], k - 1);
    }
  }

  /** The target after a run is the one that the last request asks for: reboot after a request to
      reboot, power-off after one to power off, running after one for a run level. Without a
      request it is the one from before. */
  lemma TargetExactly(c: Config, sys: System, es: seq<Event>)
    requires Fits(c, sys) && After(c, sys, es).Some?
    ensures forall k: nat | LastRequest(es, k) :: Answers(After(c, sys, es).value.target, es[k])
    ensures AllInternal(es) ==> After(c, sys, es).value.target == sys.target
    ensures After(c, sys, es).value.target != Running <==>
      (exists k: nat :: LastShutdown(es, k)) || (sys.target != Running && NoRequest(es))
  {
    hide Fits, After, Answers, LastShutdown, NoRequest;
    forall k: nat | LastRequest(es, k) ensures Answers(After(c, sys, es).value.target, es[k]) {
      LastRequestAnswered(c, sys, es, k);
    }
    if AllInternal(es) {
      TargetKept(c, sys, es);
    }
    ShutdownTarget(c, sys, es);
  }

  lemma {:induction false} HasLastRequest(es: seq<Event>)
    requires !AllInternal(es)
    ensures exists k: nat :: LastRequest(es, k)
    decreases |es|
  {
    var n := |es| - 1;
    if es[n].Internal() {
      HasLastRequest(es[..n]);
      var k: nat :| LastRequest(es[..n], k);
      assert LastRequest(es, k);
    } else {
      assert LastRequest(es, n);
    }
  }

  lemma {:induction false} ShutdownTarget(c: Config, sys: System, es: seq<Event>)
    requires Fits(c, sys) && After(c, sys, es).Some?
    ensures After(c, sys, es).value.target != Running <==>
      (exists k: nat :: LastShutdown(es, k)) || (sys.target != Running && NoRequest(es))
    decreases |es|
  {
    hide Fits, LastShutdown, NoRequest;
    if es == [] {
      NoEvents();
    } else {
      var rest := es[1..];
      ShutdownTarget(c, Step(c, sys, es[0]), rest);
      NoRequestFirst(es);
      if k: nat :| LastShutdown(rest, k) {
        LastShutdownLater(es, k + 1);
      }
      if k: nat :| LastShutdown(es, k) {
        if k > 0 {
          LastShutdownLater(es, k);
        }
      }
    }
  }

  lemma NoEvents()
    ensures NoRequest([]) && forall k: nat :: !LastShutdown([], k)
  {
  }

  /** The program ends exactly when it should not go on: at rest the main loop is left if and only
      if a shutdown was requested and no request for a run level, known or not, came after it;
      and then it goes on to do what the last request asks for. */
  lemma EndsExactly(c: Config, es: seq<Event>, sys: System)
    requires Reaches(c, es, sys) && AtRest(sys.state)
    ensures !IsActive(sys) <==> exists k: nat :: LastShutdown(es, k)
    ensures !IsActive(sys) ==>
      exists k: nat :: LastRequest(es, k) && Shutdown(es[k]) && Answers(sys.target, es[k])
  {
    hide After, AtRest, LastShutdown, NoRequest;
    TargetExactly(c, Boot(c).value, es);
    if sys.target != Running {
      ShutdownDrains(c, sys);
      HasLastRequest(es);
      var k: nat :| LastRequest(es, k);
    }
  }

  /** Nothing is wanted after a shutdown request that no known run level followed. */
  lemma {:induction false} NothingWanted(c: Config, m: set<nat>, es: seq<Event>, k: nat)
    requires k < |es| && Shutdown(es[k])
    requires forall j | k < j < |es| && es[j].RunLevelRequested? :: es[j].name !in c.runLevels
    ensures LastGoal(c, m, es) == {}
    decreases |es|
  {
    if k == 0 {
      StillNothingWanted(c, es[1..]);
    } else {
      NothingWanted(c, Goal(c, m, es[0]), es[1..], k - 1);
    }
  }

  lemma {:induction false} StillNothingWanted(c: Config, es: seq<Event>)
    requires forall j | 0 <= j < |es| && es[j].RunLevelRequested? :: es[j].name !in c.runLevels
    ensures LastGoal(c, {}, es) == {}
    decreases |es|
  {
    if es != [] {
      assert Goal(c, {}, es[0]) == {};
      StillNothingWanted(c, es[1..]);
    }
  }

  /** After a shutdown request that is followed by requests for unknown run levels only, every
      task comes to a stop, although the main loop goes on if there is such a request. */
  lemma ShutdownStops(c: Config, es: seq<Event>, k: nat, sys: System, t: nat)
    requires Reaches(c, es, sys) && AtRest(sys.state) && t < |sys.state.tasks|
    requires k < |es| && Shutdown(es[k])
    requires forall j | k < j < |es| && es[j].RunLevelRequested? :: es[j].name !in c.runLevels
    ensures !sys.state.tasks[t].h.running && !sys.state.tasks[t].h.InTransition()
    ensures sys.state.pending == 0
  {
    hide After, Closure, ReachesCycle;
    NothingWanted(c, Closure(c.g, c.runLevels["default"]), es, k);
    Convergence(c, es, sys);
    assert Stuck(c.g, {}) == {};
  }
}
