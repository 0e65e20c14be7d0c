/** Nothing is forgotten and everything ends: what a state without outstanding events looks
    like, and the measure that every event decreases. */
module SupervisorLiveness {
  import opened Wrappers
  import opened TaskGraph
  import opened SupervisorModel
  import opened SupervisorInvariant

  // ---- States at rest --------------------------------------------------------------------

  /** No operation is in flight and no wake-up is pending. */
  ghost predicate AtRest(s: State) {
    forall t | 0 <= t < |s.tasks| :: !Announced(s.tasks[t])
  }

  /** At rest every flag is exact, so every task that is wanted and whose dependencies are up
      is up. */
  lemma RestStarted(g: Graph, s: State, t: nat)
    requires Inv(g, s) && AtRest(s) && t < |s.tasks| && s.tasks[t].shouldWork
    requires DepsRunning(g, s, t)
    ensures s.tasks[t].h.running
  {
    forall k | 0 <= k < |g.deps[t]| ensures g.deps[t][k] !in CountedDown(s) {
      assert !Announced(s.tasks[g.deps[t][k]]);
    }
    CountZero(g.deps[t], CountedDown(s));
    assert !Announced(s.tasks[t]) && s.tasks[t].Idle();
  }

  ghost predicate DepsRunning(g: Graph, s: State, t: nat)
    requires WellFormedFor(g, s) && t < |s.tasks|
  {
    forall k | 0 <= k < |g.deps[t]| :: s.tasks[g.deps[t][k]].h.running
  }

  /** Every wanted task runs once its dependencies do. */
  ghost predicate ReadyRuns(g: Graph, s: State)
    requires WellFormedFor(g, s)
  {
    forall t: nat {:trigger DepsRunning(g, s, t)} | t < |s.tasks| ::
      s.tasks[t].shouldWork && DepsRunning(g, s, t) ==> s.tasks[t].h.running
  }

  /** Then a wanted task from which only walks shorter than `n` start is running. */
  lemma {:induction false} WantedRuns(g: Graph, s: State, t: nat, n: nat)
    requires WellFormedFor(g, s) && WantClosed(g, s) && ReadyRuns(g, s)
    requires t < |s.tasks| && s.tasks[t].shouldWork && !HasWalk(g, t, n)
    ensures s.tasks[t].h.running
    decreases n
  {
    forall k | 0 <= k < |g.deps[t]| ensures s.tasks[g.deps[t][k]].h.running {
      var d := g.deps[t][k];
      NoWalkBelow(g, t, d, n);
      WantedRuns(g, s, d, n - 1);
    }
    assert DepsRunning(g, s, t);
  }

  /** A task that runs unwanted at rest is held by a dependant that runs unwanted too. */
  lemma RestHeld(g: Graph, s: State, t: nat)
    requires Inv(g, s) && AtRest(s) && t < |s.tasks| && Unwanted(s.tasks[t])
    ensures Held(g, s, t)
  {
    assert !Announced(s.tasks[t]) && s.tasks[t].Idle();
    CountZero(g.users[t], CountedLive(s));
    var k :| 0 <= k < |g.users[t]| && g.users[t][k] in CountedLive(s);
    var u := g.users[t][k];
    assert !Announced(s.tasks[u]) && s.tasks[u].Exact() && s.tasks[u].h.Live();
    EdgeBothWays(g, u, t);
    var j :| 0 <= j < |g.deps[u]| && g.deps[u][j] == t;
    assert HeldBy(g, s, t, u);
  }

  ghost predicate Unwanted(x: Task) {
    x.h.running && !x.shouldWork
  }

  ghost predicate HeldBy(g: Graph, s: State, t: nat, u: nat)
    requires WellFormedFor(g, s)
  {
    u < |s.tasks| && t in g.deps[u] && Unwanted(s.tasks[u])
  }

  ghost predicate Held(g: Graph, s: State, t: nat)
    requires WellFormedFor(g, s)
  {
    exists u :: HeldBy(g, s, t, u)
  }

  ghost predicate AllHeld(g: Graph, s: State)
    requires WellFormedFor(g, s)
  {
    forall t: nat {:trigger Held(g, s, t)} | t < |s.tasks| && Unwanted(s.tasks[t]) :: Held(g, s, t)
  }

  /** Following such dependants upwards gives longer and longer walks. */
  lemma {:induction false} HeldWalk(g: Graph, s: State, t: nat, n: nat) returns (u: nat)
    requires WellFormedFor(g, s) && AllHeld(g, s) && t < |s.tasks| && Unwanted(s.tasks[t])
    ensures u < |s.tasks| && Unwanted(s.tasks[u]) && HasWalk(g, u, n)
  {
    if n == 0 {
      u := t;
    } else {
      var v := HeldWalk(g, s, t, n - 1);
      assert Held(g, s, v);
      u :| HeldBy(g, s, v, u);
      LongerWalk(g, u, v, n - 1);
    }
  }

  /** No lost wake-up and no deadlock, on any graph: at rest exactly those tasks run that are
      wanted and do not depend on a cycle. */
  lemma RestConfiguration(g: Graph, s: State, t: nat)
    requires Inv(g, s) && AtRest(s) && t < |s.tasks|
    ensures s.tasks[t].h.running <==> s.tasks[t].shouldWork && !ReachesCycle(g, t)
  {
    CycleIffLongWalk(g, t);
    if s.tasks[t].shouldWork && !ReachesCycle(g, t) {
      forall u: nat | u < |s.tasks| && s.tasks[u].shouldWork && DepsRunning(g, s, u)
        ensures s.tasks[u].h.running
      {
        RestStarted(g, s, u);
      }
      WantedRuns(g, s, t, |g.deps|);
    }
    if Unwanted(s.tasks[t]) {
      forall u: nat | u < |s.tasks| && Unwanted(s.tasks[u]) ensures Held(g, s, u) {
        RestHeld(g, s, u);
      }
      var u := HeldWalk(g, s, t, |g.deps|);
      assert s.tasks[u].h.Live();
    }
  }

  /** `pending_tasks` at rest counts exactly the wanted tasks that depend on a cycle. */
  lemma RestPending(g: Graph, s: State)
    requires Inv(g, s) && AtRest(s)
    ensures s.pending ==
            |set t: nat | t < |s.tasks| && s.tasks[t].shouldWork && ReachesCycle(g, t)|
  {
    var stuck := set t: nat | t < |s.tasks| && s.tasks[t].shouldWork && ReachesCycle(g, t);
    forall t: nat | t < |s.tasks| ensures t in CountedPending(s) <==> t in stuck {
      RestConfiguration(g, s, t);
      assert !Announced(s.tasks[t]);
    }
    assert CountedPending(s) == stuck;
  }

  // ---- The measure -----------------------------------------------------------------------

  /** How many more events task `x` may take. */
  function Work(x: Task): (w: nat)
    ensures w <= 2
  {
    match x.h.kind
    case StartStop =>
      if x.h.InTransition() then (if x.h.running == x.shouldWork then 2 else 1)
      else (if x.h.running == x.shouldWork then 0 else 1)
    case Synchronous =>
      (if x.h.running == x.shouldWork then 0 else 1) + (if x.h.signals > 0 then 1 else 0)
  }

  function Total(tasks: seq<Task>): nat {
    if tasks == [] then 0 else Total(tasks[..|tasks| - 1]) + Work(tasks[|tasks| - 1])
  }

  function Measure(s: State): nat {
    Total(s.tasks)
  }

  lemma {:induction false} TotalBound(tasks: seq<Task>)
    ensures Total(tasks) <= 2 * |tasks|
  {
    if tasks != [] {
      TotalBound(tasks[..|tasks| - 1]);
    }
  }

  /** No task has more to do than before. */
  ghost predicate NoMoreWork(s: State, s': State) {
    && |s'.tasks| == |s.tasks|
    && forall t | 0 <= t < |s.tasks| :: Work(s'.tasks[t]) <= Work(s.tasks[t])
  }

  lemma {:induction false} TotalMonotone(a: seq<Task>, b: seq<Task>)
    requires |a| == |b| && forall t | 0 <= t < |a| :: Work(a[t]) <= Work(b[t])
    ensures Total(a) <= Total(b)
    ensures Total(a) == Total(b) ==> forall t | 0 <= t < |a| :: Work(a[t]) == Work(b[t])
  {
    if a != [] {
      TotalMonotone(a[..|a| - 1], b[..|b| - 1]);
    }
  }

  /** Launching an operation costs nothing: it was already accounted for. */
  lemma EnqueueWork(x: Task)
    requires x.h.Ok()
    ensures Work(EnqueueTask(x)) <= Work(x) && EnqueueTask(x).h.Ok()
  {
  }

  lemma {:induction false} EnqueueListWork(s: State, ids: seq<nat>, n: nat)
    requires HandlesOk(s) && n <= |ids| && Ids(ids, |s.tasks|)
    ensures HandlesOk(EnqueueList(s, ids, n)) && NoMoreWork(s, EnqueueList(s, ids, n))
    decreases n
  {
    if n > 0 {
      EnqueueListWork(s, ids, n - 1);
      EnqueueWork(EnqueueList(s, ids, n - 1).tasks[ids[n - 1]]);
    }
  }

  lemma StateChangedWork(g: Graph, s: State, t: nat)
    requires WellFormedFor(g, s) && t < |s.tasks| && HandlesOk(s)
    ensures NoMoreWork(s, StateChanged(g, s, t))
  {
    var r := Sync(g, s, t);
    SyncFrame(g, s, t);
    assert NoMoreWork(s, r);
    EnqueueListWork(r, Neighbours(g, s, t), |Neighbours(g, s, t)|);
  }

  /** An event of task `t` takes one unit of its own work and adds none to any task. */
  ghost predicate Progress(s: State, s': State, t: nat) {
    NoMoreWork(s, s') && t < |s.tasks| && Work(s'.tasks[t]) < Work(s.tasks[t])
  }

  lemma ProgressMeasure(s: State, s': State, t: nat)
    requires Progress(s, s', t)
    ensures Measure(s') < Measure(s)
  {
    TotalMonotone(s'.tasks, s.tasks);
  }

  lemma SetHandleProgress(g: Graph, s: State, t: nat, h: Handle)
    requires WellFormedFor(g, s) && t < |s.tasks| && HandlesOk(s) && h.Ok()
    requires Work(s.tasks[t].(h := h)) < Work(s.tasks[t])
    ensures Progress(s, StateChanged(g, SetHandle(s, t, h), t), t)
  {
    StateChangedWork(g, SetHandle(s, t, h), t);
  }

  lemma ChildExitProgress(g: Graph, s: State, t: nat)
    requires Inv(g, s) && t < |s.tasks| && s.tasks[t].h.op.Some?
    ensures Progress(s, ChildExit(g, s, t), t)
  {
    assert s.tasks[t].h.Ok() && s.tasks[t].h.wanted == s.tasks[t].shouldWork;
    SetHandleProgress(g, s, t, s.tasks[t].h.Complete());
  }

  lemma QueueWakeProgress(g: Graph, s: State, t: nat)
    requires Inv(g, s) && t < |s.tasks| && s.tasks[t].h.signals > 0 && s.tasks[t].h.queued > 0
    ensures Progress(s, QueueWake(g, s, t), t)
  {
    assert s.tasks[t].h.Ok();
    SetHandleProgress(g, s, t, s.tasks[t].h.Wake());
  }
}
