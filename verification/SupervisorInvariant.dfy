/** What every event of the supervisor keeps.

    The start and stop decisions read counters that may be stale: `enqueue_this` changes a
    handle without `sync`. The invariant says in which direction they may be wrong
    (`OneSided`), and that is enough for the ordering (`Ordered`). */
module SupervisorInvariant {
  import opened Wrappers
  import opened TaskGraph
  import opened SupervisorModel

  // ---- The invariant ---------------------------------------------------------------------

  ghost predicate HandlesOk(s: State) {
    forall t | 0 <= t < |s.tasks| :: s.tasks[t].h.Ok()
  }

  /** The tasks counted in `stopped_dependencies` of their dependants. */
  ghost function CountedDown(s: State): set<nat> {
    set t: nat | t < |s.tasks| && !s.tasks[t].countedUp
  }

  /** The tasks counted in `running_dependants` of their dependencies. */
  ghost function CountedLive(s: State): set<nat> {
    set t: nat | t < |s.tasks| && s.tasks[t].countedLive
  }

  ghost function CountedPending(s: State): set<nat> {
    set t: nat | t < |s.tasks| && s.tasks[t].countedPending
  }

  /** The counters are the numbers of edges, with multiplicity, that the flags tell. */
  ghost predicate CountersExact(g: Graph, s: State)
    requires WellFormedFor(g, s)
  {
    && (forall t | 0 <= t < |s.tasks| ::
          && s.tasks[t].stoppedDeps == Count(g.deps[t], CountedDown(s))
          && s.tasks[t].liveUsers == Count(g.users[t], CountedLive(s)))
    && s.pending == |CountedPending(s)|
  }

  /** A task that is running or in transition has every dependency running and at rest. */
  ghost predicate Ordered(g: Graph, s: State)
    requires WellFormedFor(g, s)
  {
    forall t, k | 0 <= t < |s.tasks| && s.tasks[t].h.Live() && 0 <= k < |g.deps[t]| ::
      s.tasks[g.deps[t][k]].h.Up()
  }

  ghost predicate WantClosed(g: Graph, s: State)
    requires WellFormedFor(g, s)
  {
    forall t, k | 0 <= t < |s.tasks| && s.tasks[t].shouldWork && 0 <= k < |g.deps[t]| ::
      s.tasks[g.deps[t][k]].shouldWork
  }

  /** Staleness is one-sided. */
  ghost predicate OneSided(s: State) {
    forall t | 0 <= t < |s.tasks| ::
      && (s.tasks[t].countedUp && !s.tasks[t].h.Up() ==> !s.tasks[t].shouldWork)
      && (!s.tasks[t].countedLive && s.tasks[t].h.Live() ==> s.tasks[t].shouldWork)
  }

  ghost predicate PendingSound(s: State) {
    forall t | 0 <= t < |s.tasks| :: !s.tasks[t].Settled() ==> s.tasks[t].countedPending
  }

  /** An event that will call `sync` is outstanding. */
  ghost predicate Announced(x: Task) {
    x.h.InTransition() || x.h.signals > 0
  }

  /** Flags that disagree with the handle are going to be refreshed. */
  ghost predicate StaleAnnounced(s: State, except: int) {
    forall t | 0 <= t < |s.tasks| && t != except :: s.tasks[t].Exact() || Announced(s.tasks[t])
  }

  /** No live task is on a dependency cycle or depends on one. */
  ghost predicate Grounded(g: Graph, s: State)
    requires WellFormedFor(g, s)
  {
    forall t | 0 <= t < |s.tasks| && s.tasks[t].h.Live() :: !HasWalk(g, t, |g.deps|)
  }

  /** What every single step keeps, except that the flags of task `except` may be about to be
      refreshed by the callback in progress. */
  ghost predicate Core(g: Graph, s: State, except: int)
    requires WellFormedFor(g, s)
  {
    && HandlesOk(s)
    && CountersExact(g, s)
    && Ordered(g, s)
    && WantClosed(g, s)
    && OneSided(s)
    && PendingSound(s)
    && StaleAnnounced(s, except)
    && Grounded(g, s)
  }

  /** A handle in transition already knows what its task wants. */
  ghost predicate TransitionWanted(s: State) {
    forall t | 0 <= t < |s.tasks| && s.tasks[t].h.InTransition() ::
      s.tasks[t].h.wanted == s.tasks[t].shouldWork
  }

  /** No task at rest has been forgotten: none could be started or stopped now. */
  ghost predicate AllIdle(s: State) {
    forall t | 0 <= t < |s.tasks| :: s.tasks[t].Idle()
  }

  ghost predicate Inv(g: Graph, s: State) {
    && WellFormedFor(g, s)
    && Core(g, s, -1)
    && TransitionWanted(s)
    && AllIdle(s)
  }

  // ---- enqueue_this ----------------------------------------------------------------------

  /** `enqueue_this` leaves every flag and counter alone. */
  lemma EnqueueFlags(s: State, t: nat)
    requires t < |s.tasks|
    ensures CountedDown(Enqueue(s, t)) == CountedDown(s)
    ensures CountedLive(Enqueue(s, t)) == CountedLive(s)
    ensures CountedPending(Enqueue(s, t)) == CountedPending(s)
  {
    assert EnqueueTask(s.tasks[t]).countedUp == s.tasks[t].countedUp;
  }

  /** When `enqueue_this` starts a task, all its dependencies really are up, although it read
      a counter that may be stale. */
  lemma StartSound(g: Graph, s: State, t: nat)
    requires WellFormedFor(g, s) && Core(g, s, -1) && t < |s.tasks|
    requires s.tasks[t].shouldWork && s.tasks[t].stoppedDeps == 0
    ensures forall k | 0 <= k < |g.deps[t]| :: s.tasks[g.deps[t][k]].h.Up()
  {
    CountZero(g.deps[t], CountedDown(s));
    forall k | 0 <= k < |g.deps[t]| ensures s.tasks[g.deps[t][k]].h.Up() {
      assert g.deps[t][k] !in CountedDown(s);
    }
  }

  /** When it stops a task, no dependant is live. */
  lemma StopSound(g: Graph, s: State, t: nat)
    requires WellFormedFor(g, s) && Core(g, s, -1) && t < |s.tasks|
    requires !s.tasks[t].shouldWork && s.tasks[t].liveUsers == 0
    ensures forall u, k | 0 <= u < |s.tasks| && 0 <= k < |g.deps[u]| && g.deps[u][k] == t ::
              !s.tasks[u].h.Live()
  {
    CountZero(g.users[t], CountedLive(s));
    forall u: nat, k | u < |s.tasks| && 0 <= k < |g.deps[u]| && g.deps[u][k] == t
      ensures !s.tasks[u].h.Live()
    {
      EdgeBothWays(g, u, t);
      var j :| 0 <= j < |g.users[t]| && g.users[t][j] == u;
      assert g.users[t][j] !in CountedLive(s);
    }
  }

  /** A task whose dependencies are not on and do not reach a cycle does not reach one. */
  lemma GroundedStep(g: Graph, t: nat)
    requires WellFormed(g) && t < |g.deps|
    requires forall k | 0 <= k < |g.deps[t]| :: !HasWalk(g, g.deps[t][k], |g.deps|)
    ensures !HasWalk(g, t, |g.deps|)
  {
    if HasWalk(g, t, |g.deps|) {
      CycleIffLongWalk(g, t);
      var c :| Reach(g, t, c) && OnCycle(g, c);
      var p :| PathFromTo(g, p, t, c);
      var q :| ClosedPath(g, q, c);
      // Go on along the path, or, if it is empty, along the cycle.
      var r := p + q[1..];
      PathJoin(g, p, q);
      assert StepAt(g, r, 0);
      PathTail(g, r);
      assert PathFromTo(g, r[1..], r[1], c);
      assert Reach(g, r[1], c);
      CycleIffLongWalk(g, r[1]);
    }
  }

  lemma EnqueueKeepsOrdered(g: Graph, s: State, t: nat)
    requires WellFormedFor(g, s) && Core(g, s, -1) && t < |s.tasks|
    ensures Ordered(g, Enqueue(s, t))
  {
    var x := s.tasks[t];
    if !x.h.Up() && x.shouldWork && x.stoppedDeps == 0 {
      StartSound(g, s, t);
    } else if x.h.Live() && !x.shouldWork && x.liveUsers == 0 {
      StopSound(g, s, t);
    }
  }

  lemma EnqueueKeepsGrounded(g: Graph, s: State, t: nat)
    requires WellFormedFor(g, s) && Core(g, s, -1) && t < |s.tasks|
    ensures Grounded(g, Enqueue(s, t))
  {
    var x := s.tasks[t];
    if !x.h.Up() && x.shouldWork && x.stoppedDeps == 0 {
      StartSound(g, s, t);
      GroundedStep(g, t);
    }
  }

  lemma EnqueueKeepsCounters(g: Graph, s: State, t: nat)
    requires WellFormedFor(g, s) && CountersExact(g, s) && t < |s.tasks|
    ensures CountersExact(g, Enqueue(s, t))
  {
    EnqueueFlags(s, t);
  }

  lemma EnqueueKeepsFlags(s: State, t: nat)
    requires t < |s.tasks|
    requires HandlesOk(s) && OneSided(s) && PendingSound(s) && StaleAnnounced(s, -1)
    ensures var r := Enqueue(s, t);
      HandlesOk(r) && OneSided(r) && PendingSound(r) && StaleAnnounced(r, -1)
  {
    assert s.tasks[t].h.Ok();
  }

  lemma EnqueueKeepsWishes(g: Graph, s: State, t: nat)
    requires WellFormedFor(g, s) && WantClosed(g, s) && t < |s.tasks|
    ensures WantClosed(g, Enqueue(s, t))
  {
  }

  lemma EnqueueKeepsCore(g: Graph, s: State, t: nat)
    requires WellFormedFor(g, s) && Core(g, s, -1) && t < |s.tasks|
    ensures Core(g, Enqueue(s, t), -1)
  {
    hide Ordered, WantClosed, Grounded, CountersExact, WellFormed, HandlesOk, OneSided,
         PendingSound, StaleAnnounced, EnqueueTask;
    EnqueueKeepsOrdered(g, s, t);
    EnqueueKeepsGrounded(g, s, t);
    EnqueueKeepsCounters(g, s, t);
    EnqueueKeepsFlags(s, t);
    EnqueueKeepsWishes(g, s, t);
  }

  // ---- sync ------------------------------------------------------------------------------

  ghost predicate SameHandles(s: State, s': State) {
    && |s.tasks| == |s'.tasks|
    && (forall u | 0 <= u < |s.tasks| ::
          s'.tasks[u].h == s.tasks[u].h && s'.tasks[u].shouldWork == s.tasks[u].shouldWork)
  }

  lemma SameHandlesKeep(g: Graph, s: State, r: State)
    requires WellFormedFor(g, s) && SameHandles(s, r)
    requires HandlesOk(s) && Ordered(g, s) && WantClosed(g, s) && Grounded(g, s)
    ensures HandlesOk(r) && Ordered(g, r) && WantClosed(g, r) && Grounded(g, r)
  {
  }

  /** `sync` changes no handle and no wish. */
  lemma SyncFrame(g: Graph, s: State, t: nat)
    requires WellFormedFor(g, s) && t < |s.tasks|
    ensures forall u | 0 <= u < |s.tasks| ::
              && Sync(g, s, t).tasks[u].h == s.tasks[u].h
              && Sync(g, s, t).tasks[u].shouldWork == s.tasks[u].shouldWork
    ensures forall u | 0 <= u < |s.tasks| && u != t ::
              && Sync(g, s, t).tasks[u].countedLive == s.tasks[u].countedLive
              && Sync(g, s, t).tasks[u].countedUp == s.tasks[u].countedUp
              && Sync(g, s, t).tasks[u].countedPending == s.tasks[u].countedPending
    ensures Sync(g, s, t).tasks[t].Exact()
  {
  }

  /** The count over `ids` after `t` entered or left the counted set. */
  lemma CountFlip(ids: seq<nat>, s: set<nat>, s': set<nat>, t: nat)
    requires forall x | x != t :: x in s' <==> x in s
    ensures Count(ids, s') == Count(ids, s) + Delta(t in s, t in s', multiset(ids)[t])
  {
    if t in s' && t !in s {
      CountAdd(ids, s, t);
      assert s' == s + {t};
    } else if t !in s' && t in s {
      CountAdd(ids, s', t);
      assert s == s' + {t};
    } else {
      assert s' == s;
    }
  }

  lemma SyncCountedSets(g: Graph, s: State, t: nat)
    requires WellFormedFor(g, s) && t < |s.tasks|
    ensures var s' := Sync(g, s, t);
      && (forall x | x != t :: x in CountedDown(s') <==> x in CountedDown(s))
      && (forall x | x != t :: x in CountedLive(s') <==> x in CountedLive(s))
      && (forall x | x != t :: x in CountedPending(s') <==> x in CountedPending(s))
      && (t in CountedDown(s') <==> !s.tasks[t].h.Up())
      && (t in CountedLive(s') <==> s.tasks[t].h.Live())
      && (t in CountedPending(s') <==> !s.tasks[t].Settled())
  {
    SyncFrame(g, s, t);
  }

  lemma SizeFlip(s: set<nat>, s': set<nat>, t: nat)
    requires forall x | x != t :: x in s' <==> x in s
    ensures |s'| == |s| + Delta(t in s, t in s', 1)
  {
    assert s - {t} == s' - {t};
    assert t in s ==> s == (s - {t}) + {t};
    assert t !in s ==> s == s - {t};
    assert t in s' ==> s' == (s - {t}) + {t};
    assert t !in s' ==> s' == s - {t};
  }

  lemma SyncKeepsCounter(g: Graph, s: State, t: nat, u: nat)
    requires WellFormedFor(g, s) && t < |s.tasks| && u < |s.tasks| && CountersExact(g, s)
    ensures var s' := Sync(g, s, t);
      && s'.tasks[u].stoppedDeps == Count(g.deps[u], CountedDown(s'))
      && s'.tasks[u].liveUsers == Count(g.users[u], CountedLive(s'))
  {
    var s' := Sync(g, s, t);
    SyncCountedSets(g, s, t);
    CountFlip(g.deps[u], CountedDown(s), CountedDown(s'), t);
    CountFlip(g.users[u], CountedLive(s), CountedLive(s'), t);
    assert multiset(g.deps[u])[t] == multiset(g.users[t])[u];
    assert multiset(g.deps[t])[u] == multiset(g.users[u])[t];
  }

  lemma SyncKeepsCounters(g: Graph, s: State, t: nat)
    requires WellFormedFor(g, s) && t < |s.tasks| && CountersExact(g, s)
    ensures CountersExact(g, Sync(g, s, t))
  {
    var s' := Sync(g, s, t);
    SyncCountedSets(g, s, t);
    forall u: nat | u < |s.tasks|
      ensures s'.tasks[u].stoppedDeps == Count(g.deps[u], CountedDown(s'))
      ensures s'.tasks[u].liveUsers == Count(g.users[u], CountedLive(s'))
    {
      SyncKeepsCounter(g, s, t, u);
    }
    SizeFlip(CountedPending(s), CountedPending(s'), t);
  }

  lemma SyncKeepsFlags(g: Graph, s: State, t: nat)
    requires WellFormedFor(g, s) && t < |s.tasks|
    requires OneSided(s) && PendingSound(s) && StaleAnnounced(s, t)
    ensures var r := Sync(g, s, t); OneSided(r) && PendingSound(r) && StaleAnnounced(r, -1)
  {
    SyncFrame(g, s, t);
    var r := Sync(g, s, t);
    forall u | 0 <= u < |r.tasks| ensures r.tasks[u].Exact() || Announced(r.tasks[u]) {
      assert u != t ==> s.tasks[u].Exact() || Announced(s.tasks[u]);
    }
  }

  lemma SyncSameHandles(g: Graph, s: State, t: nat)
    requires WellFormedFor(g, s) && t < |s.tasks|
    ensures SameHandles(s, Sync(g, s, t))
  {
    SyncFrame(g, s, t);
  }

  lemma SyncKeepsCore(g: Graph, s: State, t: nat)
    requires WellFormedFor(g, s) && t < |s.tasks| && Core(g, s, t)
    ensures Core(g, Sync(g, s, t), -1)
  {
    hide Ordered, WantClosed, Grounded, CountersExact, WellFormed, HandlesOk, OneSided,
         PendingSound, StaleAnnounced, Sync, SameHandles;
    SyncSameHandles(g, s, t);
    SyncKeepsFlags(g, s, t);
    SyncKeepsCounters(g, s, t);
    SameHandlesKeep(g, s, Sync(g, s, t));
  }

  // ---- Completion and wake-up ------------------------------------------------------------

  function SetHandle(s: State, t: nat, h: Handle): State
    requires t < |s.tasks|
  {
    s.(tasks := s.tasks[t := s.tasks[t].(h := h)])
  }

  lemma SetHandleFlags(s: State, t: nat, h: Handle)
    requires t < |s.tasks|
    ensures CountedDown(SetHandle(s, t, h)) == CountedDown(s)
    ensures CountedLive(SetHandle(s, t, h)) == CountedLive(s)
    ensures CountedPending(SetHandle(s, t, h)) == CountedPending(s)
  {
  }

  /** What a change of handle `t` must satisfy on its own for the neighbours not to notice. */
  predicate HarmlessChange(x: Task, h: Handle) {
    && h.Ok()
    && (h.Live() ==> x.h.Live())
    && (x.h.Up() ==> h.Up())
    && (x.countedUp && !h.Up() ==> !x.shouldWork)
    && (!x.countedLive && h.Live() ==> x.shouldWork)
    && (x.(h := h).Settled() || x.countedPending)
    && (h.InTransition() ==> h.wanted == x.shouldWork)
    && x.(h := h).Idle()
  }

  lemma SetHandleKeepsOrder(g: Graph, s: State, t: nat, h: Handle)
    requires WellFormedFor(g, s) && t < |s.tasks| && HarmlessChange(s.tasks[t], h)
    requires Ordered(g, s) && WantClosed(g, s) && Grounded(g, s)
    ensures var r := SetHandle(s, t, h); Ordered(g, r) && WantClosed(g, r) && Grounded(g, r)
  {
  }

  lemma SetHandleKeepsCounters(g: Graph, s: State, t: nat, h: Handle)
    requires WellFormedFor(g, s) && t < |s.tasks| && CountersExact(g, s)
    ensures CountersExact(g, SetHandle(s, t, h))
  {
    SetHandleFlags(s, t, h);
  }

  lemma SetHandleKeepsFlags(s: State, t: nat, h: Handle)
    requires t < |s.tasks| && HarmlessChange(s.tasks[t], h)
    requires HandlesOk(s) && OneSided(s) && PendingSound(s) && StaleAnnounced(s, -1)
    ensures var r := SetHandle(s, t, h);
      HandlesOk(r) && OneSided(r) && PendingSound(r) && StaleAnnounced(r, t)
  {
  }

  lemma SetHandleKeepsIdle(s: State, t: nat, h: Handle)
    requires t < |s.tasks| && HarmlessChange(s.tasks[t], h)
    requires TransitionWanted(s) && AllIdle(s)
    ensures TransitionWanted(SetHandle(s, t, h)) && AllIdle(SetHandle(s, t, h))
  {
  }

  lemma SetHandleKeeps(g: Graph, s: State, t: nat, h: Handle)
    requires Inv(g, s) && t < |s.tasks| && HarmlessChange(s.tasks[t], h)
    ensures Core(g, SetHandle(s, t, h), t)
    ensures TransitionWanted(SetHandle(s, t, h)) && AllIdle(SetHandle(s, t, h))
  {
    hide Ordered, WantClosed, Grounded, CountersExact, WellFormed, HandlesOk, OneSided,
         PendingSound, StaleAnnounced, TransitionWanted, AllIdle, HarmlessChange;
    SetHandleKeepsOrder(g, s, t, h);
    SetHandleKeepsCounters(g, s, t, h);
    SetHandleKeepsFlags(s, t, h);
    SetHandleKeepsIdle(s, t, h);
  }

  /** The restart or cancel inside the completion callback is safe: it never needs to look at
      the neighbours. */
  lemma CompleteHarmless(g: Graph, s: State, t: nat)
    requires Inv(g, s) && t < |s.tasks| && s.tasks[t].h.op.Some?
    ensures HarmlessChange(s.tasks[t], s.tasks[t].h.Complete())
  {
    assert s.tasks[t].h.Ok();
  }

  lemma WakeHarmless(g: Graph, s: State, t: nat)
    requires Inv(g, s) && t < |s.tasks| && s.tasks[t].h.signals > 0
    ensures s.tasks[t].h.queued > 0
    ensures HarmlessChange(s.tasks[t], s.tasks[t].h.Wake())
  {
    assert s.tasks[t].h.Ok() && s.tasks[t].Idle();
  }

  // ---- The callback's choice of neighbours -----------------------------------------------

  /** Every task but those of `ids` is idle. */
  ghost predicate IdleExcept(s: State, ids: seq<nat>) {
    forall t: nat | t < |s.tasks| && t !in ids :: s.tasks[t].Idle()
  }

  /** The neighbours that the callback re-examines after `sync`. */
  function Neighbours(g: Graph, s: State, t: nat): seq<nat>
    requires WellFormedFor(g, s) && t < |s.tasks|
  {
    if s.tasks[t].h.running then g.users[t] else g.deps[t]
  }

  /** `sync` on `t` can only make one of the chosen neighbours startable or stoppable. */
  lemma SyncKeepsIdle(g: Graph, s: State, t: nat, u: nat)
    requires WellFormedFor(g, s) && t < |s.tasks| && u < |s.tasks|
    requires CountersExact(g, s) && s.tasks[u].Idle() && u !in Neighbours(g, s, t)
    ensures Sync(g, s, t).tasks[u].Idle()
  {
    var x, y := s.tasks[u], Sync(g, s, t).tasks[u];
    assert u in g.users[t] <==> multiset(g.users[t])[u] > 0;
    assert u in g.deps[t] <==> multiset(g.deps[t])[u] > 0;
    assert y.h == x.h && y.shouldWork == x.shouldWork;
    if s.tasks[t].h.running {
      assert y.stoppedDeps == x.stoppedDeps;
      assert y.liveUsers >= x.liveUsers;
    } else {
      assert y.liveUsers == x.liveUsers;
      assert y.stoppedDeps >= x.stoppedDeps;
    }
  }

  /** Re-examining only the dependants, or only the dependencies, is enough. */
  lemma NeighboursSuffice(g: Graph, s: State, t: nat)
    requires WellFormedFor(g, s) && t < |s.tasks| && CountersExact(g, s) && AllIdle(s)
    ensures IdleExcept(Sync(g, s, t), Neighbours(g, s, t))
  {
    forall u: nat | u < |s.tasks| && u !in Neighbours(g, s, t)
      ensures Sync(g, s, t).tasks[u].Idle()
    {
      SyncKeepsIdle(g, s, t, u);
    }
  }

  lemma EnqueueOne(g: Graph, s: State, t: nat)
    requires WellFormedFor(g, s) && Core(g, s, -1) && TransitionWanted(s) && t < |s.tasks|
    ensures Core(g, Enqueue(s, t), -1) && TransitionWanted(Enqueue(s, t))
    ensures Enqueue(s, t).tasks[t].Idle()
    ensures forall u | 0 <= u < |s.tasks| && u != t :: Enqueue(s, t).tasks[u] == s.tasks[u]
  {
    EnqueueKeepsCore(g, s, t);
    hide Core;
  }

  lemma {:induction false} EnqueueListKeeps(g: Graph, s: State, ids: seq<nat>, n: nat)
    requires WellFormedFor(g, s) && Core(g, s, -1) && TransitionWanted(s)
    requires n <= |ids| && Ids(ids, |s.tasks|)
    ensures Core(g, EnqueueList(s, ids, n), -1) && TransitionWanted(EnqueueList(s, ids, n))
    ensures forall t: nat | t < |s.tasks| && s.tasks[t].Idle() :: EnqueueList(s, ids, n).tasks[t].Idle()
    ensures forall k | 0 <= k < n :: EnqueueList(s, ids, n).tasks[ids[k]].Idle()
    decreases n
  {
    hide Core, TransitionWanted, Enqueue, WellFormed;
    if n > 0 {
      EnqueueListKeeps(g, s, ids, n - 1);
      EnqueueOne(g, EnqueueList(s, ids, n - 1), ids[n - 1]);
    }
  }

  lemma StateChangedKeepsInv(g: Graph, s: State, t: nat)
    requires WellFormedFor(g, s) && t < |s.tasks|
    requires Core(g, s, t) && TransitionWanted(s) && AllIdle(s)
    ensures Inv(g, StateChanged(g, s, t))
  {
    hide Core, WellFormed, AllIdle, Ids, Sync, TransitionWanted, IdleExcept;
    SyncKeepsCore(g, s, t);
    SyncKeepsWanted(g, s, t);
    CoreCounters(g, s, t);
    NeighboursSuffice(g, s, t);
    NeighbourIds(g, s, t);
    var r, ids := Sync(g, s, t), Neighbours(g, s, t);
    EnqueueListKeeps(g, r, ids, |ids|);
    IdleEverywhere(r, ids);
  }

  lemma NeighbourIds(g: Graph, s: State, t: nat)
    requires WellFormedFor(g, s) && t < |s.tasks|
    ensures Ids(Neighbours(g, s, t), |s.tasks|)
  {
  }

  lemma SyncKeepsWanted(g: Graph, s: State, t: nat)
    requires WellFormedFor(g, s) && t < |s.tasks| && TransitionWanted(s)
    ensures TransitionWanted(Sync(g, s, t))
  {
    SyncFrame(g, s, t);
  }

  lemma CoreCounters(g: Graph, s: State, except: int)
    requires WellFormedFor(g, s) && Core(g, s, except)
    ensures CountersExact(g, s)
  {
  }

  lemma IdleEverywhere(s: State, ids: seq<nat>)
    requires Ids(ids, |s.tasks|) && IdleExcept(s, ids)
    requires forall t: nat | t < |s.tasks| && s.tasks[t].Idle() :: EnqueueList(s, ids, |ids|).tasks[t].Idle()
    requires forall k | 0 <= k < |ids| :: EnqueueList(s, ids, |ids|).tasks[ids[k]].Idle()
    ensures AllIdle(EnqueueList(s, ids, |ids|))
  {
    hide EnqueueList;
  }

  lemma ChildExitKeepsInv(g: Graph, s: State, t: nat)
    requires Inv(g, s) && t < |s.tasks| && s.tasks[t].h.op.Some?
    ensures Inv(g, ChildExit(g, s, t))
  {
    CompleteHarmless(g, s, t);
    SetHandleKeeps(g, s, t, s.tasks[t].h.Complete());
    StateChangedKeepsInv(g, SetHandle(s, t, s.tasks[t].h.Complete()), t);
  }

  lemma QueueWakeKeepsInv(g: Graph, s: State, t: nat)
    requires Inv(g, s) && t < |s.tasks| && s.tasks[t].h.signals > 0
    ensures s.tasks[t].h.queued > 0 && Inv(g, QueueWake(g, s, t))
  {
    WakeHarmless(g, s, t);
    SetHandleKeeps(g, s, t, s.tasks[t].h.Wake());
    StateChangedKeepsInv(g, SetHandle(s, t, s.tasks[t].h.Wake()), t);
  }

  // ---- Run-level switches ----------------------------------------------------------------

  ghost predicate ExactFirst(s: State, n: nat)
    requires n <= |s.tasks|
  {
    forall u | 0 <= u < n :: s.tasks[u].Exact()
  }

  lemma SyncKeepsExact(g: Graph, s: State, t: nat)
    requires WellFormedFor(g, s) && t < |s.tasks| && ExactFirst(s, t)
    ensures ExactFirst(Sync(g, s, t), t + 1) && SameHandles(s, Sync(g, s, t))
  {
    SyncFrame(g, s, t);
    forall u | 0 <= u <= t ensures Sync(g, s, t).tasks[u].Exact() {
      assert u < t ==> s.tasks[u].Exact();
    }
  }

  /** `r` is `s` after the first `n` tasks were synced. */
  ghost predicate Synced(g: Graph, s: State, r: State, n: nat) {
    && WellFormedFor(g, r) && n <= |r.tasks|
    && CountersExact(g, r) && ExactFirst(r, n) && SameHandles(s, r)
  }

  lemma SyncedStep(g: Graph, s: State, r: State, n: nat)
    requires Synced(g, s, r, n) && n < |s.tasks|
    ensures Synced(g, s, Sync(g, r, n), n + 1)
  {
    var q := Sync(g, r, n);
    SyncKeepsCounters(g, r, n);
    SyncKeepsExact(g, r, n);
    assert SameHandles(s, q) by {
      SameHandlesTransitive(s, r, q);
    }
  }

  lemma SyncedNone(g: Graph, s: State)
    requires WellFormedFor(g, s) && CountersExact(g, s)
    ensures Synced(g, s, s, 0)
  {
  }

  lemma SameHandlesTransitive(s: State, r: State, q: State)
    requires SameHandles(s, r) && SameHandles(r, q)
    ensures SameHandles(s, q)
  {
  }

  lemma {:induction false} SyncFirstExact(g: Graph, s: State, n: nat)
    requires WellFormedFor(g, s) && n <= |s.tasks| && CountersExact(g, s)
    ensures Synced(g, s, SyncFirst(g, s, n), n)
  {
    hide Synced, Sync, CountersExact, WellFormed;
    if n == 0 {
      SyncedNone(g, s);
    } else {
      SyncFirstExact(g, s, n - 1);
      SyncedStep(g, s, SyncFirst(g, s, n - 1), n - 1);
    }
  }

  lemma WantFlags(s: State, m: set<nat>)
    ensures CountedDown(Want(s, m)) == CountedDown(s)
    ensures CountedLive(Want(s, m)) == CountedLive(s)
    ensures CountedPending(Want(s, m)) == CountedPending(s)
  {
  }

  lemma WantKeepsCounters(g: Graph, s: State, m: set<nat>)
    requires WellFormedFor(g, s) && CountersExact(g, s)
    ensures CountersExact(g, Want(s, m))
  {
    hide CountedDown, CountedLive, CountedPending, WellFormed;
    WantFlags(s, m);
  }

  lemma WantKeepsOrder(g: Graph, s: State, m: set<nat>)
    requires WellFormedFor(g, s) && HandlesOk(s) && Ordered(g, s) && Grounded(g, s)
    requires ClosedSet(g, m)
    ensures var w := Want(s, m);
      HandlesOk(w) && Ordered(g, w) && Grounded(g, w) && WantClosed(g, w)
  {
  }

  /** Right after all tasks were synced, the counters agree with the handles. */
  ghost predicate AllExact(s: State) {
    forall t | 0 <= t < |s.tasks| :: s.tasks[t].Exact()
  }

  /** With exact flags the zero tests of a task are the scans over its neighbours. */
  lemma ZeroTestsExact(g: Graph, s: State, t: nat)
    requires WellFormedFor(g, s) && t < |s.tasks| && CountersExact(g, s) && AllExact(s)
    ensures s.tasks[t].stoppedDeps == 0 <==>
      forall k | 0 <= k < |g.deps[t]| :: s.tasks[g.deps[t][k]].h.Up()
    ensures s.tasks[t].liveUsers == 0 <==>
      forall k | 0 <= k < |g.users[t]| :: !s.tasks[g.users[t][k]].h.Live()
  {
    CountZero(g.deps[t], CountedDown(s));
    CountZero(g.users[t], CountedLive(s));
    forall k | 0 <= k < |g.deps[t]|
      ensures g.deps[t][k] !in CountedDown(s) <==> s.tasks[g.deps[t][k]].h.Up()
    {
      assert s.tasks[g.deps[t][k]].Exact();
    }
    forall k | 0 <= k < |g.users[t]|
      ensures g.users[t][k] !in CountedLive(s) <==> !s.tasks[g.users[t][k]].h.Live()
    {
      assert s.tasks[g.users[t][k]].Exact();
    }
  }

  /** Right after a switch to `m` has synced all tasks, before it starts or stops any, the zero
      tests are the scans over the handles as they were. */
  lemma ZeroTestsAfterSync(g: Graph, s: State, m: set<nat>, t: nat)
    requires WellFormedFor(g, s) && CountersExact(g, s) && t < |s.tasks|
    ensures var r := SyncFirst(g, Want(s, m), |s.tasks|);
      && (r.tasks[t].stoppedDeps == 0 <==>
          forall k | 0 <= k < |g.deps[t]| :: s.tasks[g.deps[t][k]].h.Up())
      && (r.tasks[t].liveUsers == 0 <==>
          forall k | 0 <= k < |g.users[t]| :: !s.tasks[g.users[t][k]].h.Live())
  {
    hide CountersExact, SyncFirst, WellFormed;
    WantKeepsCounters(g, s, m);
    SyncFirstExact(g, Want(s, m), |s.tasks|);
    ZeroTestsExact(g, SyncFirst(g, Want(s, m), |s.tasks|), t);
    NeighboursInside(g, t);
  }

  lemma NeighboursInside(g: Graph, t: nat)
    requires WellFormed(g) && t < |g.deps|
    ensures Ids(g.deps[t], |g.deps|) && Ids(g.users[t], |g.deps|)
  {
  }

  /** A task in transition is free to be told what its task wants. */
  ghost predicate TransitionFree(s: State) {
    forall t | 0 <= t < |s.tasks| && s.tasks[t].h.InTransition() ::
      if s.tasks[t].shouldWork then s.tasks[t].stoppedDeps == 0 else s.tasks[t].liveUsers == 0
  }

  lemma SyncedFree(g: Graph, s: State)
    requires WellFormedFor(g, s) && Core(g, s, -1) && AllExact(s)
    ensures TransitionFree(s)
  {
    forall t: nat | t < |s.tasks| && s.tasks[t].h.InTransition()
      ensures if s.tasks[t].shouldWork then s.tasks[t].stoppedDeps == 0
              else s.tasks[t].liveUsers == 0
    {
      CountZero(g.deps[t], CountedDown(s));
      CountZero(g.users[t], CountedLive(s));
      forall k | 0 <= k < |g.users[t]| ensures g.users[t][k] !in CountedLive(s) {
        var u := g.users[t][k];
        EdgeBothWays(g, u, t);
        var j :| 0 <= j < |g.deps[u]| && g.deps[u][j] == t;
      }
    }
  }

  /** A task that the switch has finished with. */
  predicate Done(x: Task) {
    x.Idle() && (x.h.InTransition() ==> x.h.wanted == x.shouldWork)
  }

  lemma EnqueueFinishes(x: Task)
    requires x.h.Ok()
    requires x.h.InTransition() ==> if x.shouldWork then x.stoppedDeps == 0 else x.liveUsers == 0
    ensures var y := EnqueueTask(x);
      && Done(y)
      && (y.h.InTransition() ==> if y.shouldWork then y.stoppedDeps == 0 else y.liveUsers == 0)
  {
  }

  lemma EnqueueNext(g: Graph, s: State, t: nat)
    requires WellFormedFor(g, s) && Core(g, s, -1) && TransitionFree(s) && t < |s.tasks|
    ensures Core(g, Enqueue(s, t), -1) && TransitionFree(Enqueue(s, t))
    ensures Done(Enqueue(s, t).tasks[t])
    ensures forall u | 0 <= u < |s.tasks| && u != t :: Enqueue(s, t).tasks[u] == s.tasks[u]
  {
    hide Core, WellFormed, HandlesOk, Done;
    CoreHandles(g, s);
    HandleOk(s, t);
    EnqueueFinishes(s.tasks[t]);
    EnqueueKeepsCore(g, s, t);
  }

  lemma CoreHandles(g: Graph, s: State)
    requires WellFormedFor(g, s) && Core(g, s, -1)
    ensures HandlesOk(s)
  {
  }

  lemma HandleOk(s: State, t: nat)
    requires HandlesOk(s) && t < |s.tasks|
    ensures s.tasks[t].h.Ok()
  {
  }

  lemma {:induction false} EnqueueFirstKeeps(g: Graph, s: State, n: nat)
    requires WellFormedFor(g, s) && Core(g, s, -1) && TransitionFree(s) && n <= |s.tasks|
    ensures Core(g, EnqueueFirst(s, n), -1) && TransitionFree(EnqueueFirst(s, n))
    ensures forall t | 0 <= t < n :: Done(EnqueueFirst(s, n).tasks[t])
  {
    hide Core, TransitionFree, Enqueue, Done, WellFormed;
    if n > 0 {
      EnqueueFirstKeeps(g, s, n - 1);
      EnqueueNext(g, EnqueueFirst(s, n - 1), n - 1);
    }
  }

  /** After the syncs of a switch, before anything is enqueued. */
  ghost predicate ReadyToEnqueue(g: Graph, s: State) {
    WellFormedFor(g, s) && Core(g, s, -1) && TransitionFree(s)
  }

  lemma SyncedReady(g: Graph, w: State, r: State)
    requires WellFormedFor(g, w) && Synced(g, w, r, |w.tasks|)
    requires HandlesOk(w) && Ordered(g, w) && Grounded(g, w) && WantClosed(g, w)
    ensures ReadyToEnqueue(g, r)
  {
    assert Core(g, r, -1);
    SyncedFree(g, r);
  }

  lemma ReadyEnqueued(g: Graph, s: State)
    requires ReadyToEnqueue(g, s)
    ensures Inv(g, EnqueueFirst(s, |s.tasks|))
  {
    hide Core, TransitionFree, WellFormed;
    EnqueueFirstKeeps(g, s, |s.tasks|);
    AllDone(g, EnqueueFirst(s, |s.tasks|));
  }

  lemma SwitchKeepsInv(g: Graph, s: State, m: set<nat>)
    requires Inv(g, s) && ClosedSet(g, m)
    ensures Inv(g, Switch(g, s, m))
  {
    hide Ordered, WantClosed, Grounded, CountersExact, WellFormed, HandlesOk, OneSided,
         PendingSound, StaleAnnounced, TransitionWanted, AllIdle, Synced, ReadyToEnqueue, Done,
         Want;
    var w := Want(s, m);
    WantKeepsCounters(g, s, m);
    WantKeepsOrder(g, s, m);
    SyncFirstExact(g, w, |w.tasks|);
    var r := SyncFirst(g, w, |w.tasks|);
    SyncedReady(g, w, r);
    ReadyEnqueued(g, r);
  }

  lemma AllDone(g: Graph, s: State)
    requires WellFormedFor(g, s) && Core(g, s, -1)
    requires forall t | 0 <= t < |s.tasks| :: Done(s.tasks[t])
    ensures Inv(g, s)
  {
  }

  lemma InitialInv(g: Graph, kinds: seq<Kind>)
    requires WellFormed(g) && |kinds| == |g.deps|
    ensures Inv(g, Initial(g, kinds))
  {
    var s := Initial(g, kinds);
    assert CountedLive(s) == {};
    assert CountedPending(s) == {};
    forall t: nat | t < |s.tasks|
      ensures s.tasks[t].stoppedDeps == Count(g.deps[t], CountedDown(s))
      ensures s.tasks[t].liveUsers == Count(g.users[t], CountedLive(s))
      ensures s.tasks[t].Idle()
    {
      CountAll(g.deps[t], CountedDown(s));
      CountZero(g.users[t], {});
    }
  }
}
