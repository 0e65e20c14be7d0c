/** `task` and `initd_state` with their fields updated in place, proved to take exactly the
    steps of `SupervisorModel`. */
module Supervisor {
  import opened Wrappers
  import opened TaskGraph
  import opened SupervisorModel
  import opened SupervisorInvariant
  import opened SupervisorRuns
  import opened Handles
  import Model = SupervisorModel

  // ---- Tasks -----------------------------------------------------------------------------

  class Task {
    const handle: TaskHandle
    var shouldWork: bool
    var dependencies: seq<Task>
    var dependants: seq<Task>
    var stoppedDependencies: int
    var runningDependants: int
    var countedInDependencies: bool
    var countedInDependants: bool
    var countedInPendingTasks: bool

    ghost function View(): Model.Task
      reads this, handle.Repr()
    {
      Model.Task(handle.View(), shouldWork, stoppedDependencies, runningDependants,
                 countedInDependencies, countedInDependants, countedInPendingTasks)
    }

    constructor (handle: TaskHandle)
      ensures this.handle == handle
      ensures !shouldWork && dependencies == [] && dependants == []
      ensures stoppedDependencies == 0 && runningDependants == 0
      ensures !countedInDependencies && !countedInDependants && !countedInPendingTasks
    {
      this.handle := handle;
      shouldWork := false;
      dependencies, dependants := [], [];
      stoppedDependencies, runningDependants := 0, 0;
      countedInDependencies, countedInDependants, countedInPendingTasks := false, false, false;
    }

    method ClearShouldWork()
      modifies this`shouldWork
      ensures !shouldWork
    {
      shouldWork := false;
    }

    /** Marks this task and everything it transitively depends on. `bound` is any set of tasks
        that holds this one and is closed under dependencies: nothing outside it is marked.
        Every task that becomes marked has all its dependencies marked in the end. */
    method MarkShouldWork(ghost bound: set<Task>)
      requires this in bound && HoldsDependencies(bound)
      modifies bound`shouldWork
      ensures shouldWork
      ensures forall t | t in bound && old(t.shouldWork) :: t.shouldWork
      ensures forall t, d {:trigger d in t.dependencies}
                | t in bound && t.shouldWork && !old(t.shouldWork) && d in t.dependencies ::
                d.shouldWork
      decreases set t | t in bound && !t.shouldWork, 0
    {
      var was := shouldWork;
      shouldWork := true;
      if !was {
        for k := 0 to |dependencies|
          invariant shouldWork
          invariant forall t | t in bound && old(t.shouldWork) :: t.shouldWork
          invariant forall j | 0 <= j < k :: dependencies[j].shouldWork
          invariant forall t, d {:trigger d in t.dependencies}
                      | t in bound && t != this && t.shouldWork && !old(t.shouldWork)
                      && d in t.dependencies :: d.shouldWork
        {
          assert dependencies[k] in dependencies;
          assert this in old(set t | t in bound && !t.shouldWork);
          dependencies[k].MarkShouldWork(bound);
        }
      }
    }

    /** Adds `delta` to a counter of each dependency, once for every edge. */
    method IncrementCounterInDependencies(delta: int)
      requires delta == 1 || delta == -1
      modifies (set d | d in dependencies)`runningDependants
      ensures forall u: Task | old(allocated(u)) :: u.runningDependants ==
                old(u.runningDependants) + Delta(delta == -1, delta == 1, multiset(dependencies)[u])
    {
      for k := 0 to |dependencies|
        invariant forall u: Task | old(allocated(u)) :: u.runningDependants ==
                    old(u.runningDependants)
                    + Delta(delta == -1, delta == 1, multiset(dependencies[..k])[u])
      {
        assert dependencies[..k + 1] == dependencies[..k] + [dependencies[k]];
        dependencies[k].runningDependants := dependencies[k].runningDependants + delta;
      }
      assert dependencies[..|dependencies|] == dependencies;
    }

    method IncrementCounterInDependants(delta: int)
      requires delta == 1 || delta == -1
      modifies (set d | d in dependants)`stoppedDependencies
      ensures forall u: Task | old(allocated(u)) :: u.stoppedDependencies ==
                old(u.stoppedDependencies) + Delta(delta == -1, delta == 1, multiset(dependants)[u])
    {
      for k := 0 to |dependants|
        invariant forall u: Task | old(allocated(u)) :: u.stoppedDependencies ==
                    old(u.stoppedDependencies)
                    + Delta(delta == -1, delta == 1, multiset(dependants[..k])[u])
      {
        assert dependants[..k + 1] == dependants[..k] + [dependants[k]];
        dependants[k].stoppedDependencies := dependants[k].stoppedDependencies + delta;
      }
      assert dependants[..|dependants|] == dependants;
    }

    /** The first part of `sync`: how this task counts for its dependencies. */
    method SyncDependencies()
      modifies this`countedInDependencies, (set d | d in dependencies)`runningDependants
      ensures countedInDependencies == old(handle.View()).Live()
      ensures forall u: Task | old(allocated(u)) :: u.runningDependants ==
                old(u.runningDependants)
                + Delta(old(countedInDependencies), countedInDependencies, multiset(dependencies)[u])
    {
      var affectDependencies := handle.IsRunning() || handle.IsInTransition();
      if affectDependencies != countedInDependencies {
        IncrementCounterInDependencies(if affectDependencies then 1 else -1);
        countedInDependencies := affectDependencies;
      }
    }

    /** The second part: how it counts for its dependants. */
    method SyncDependants()
      modifies this`countedInDependants, (set d | d in dependants)`stoppedDependencies
      ensures countedInDependants == old(handle.View()).Up()
      ensures forall u: Task | old(allocated(u)) :: u.stoppedDependencies ==
                old(u.stoppedDependencies)
                - Delta(old(countedInDependants), countedInDependants, multiset(dependants)[u])
    {
      var affectDependants := handle.IsRunning() && !handle.IsInTransition();
      if affectDependants != countedInDependants {
        IncrementCounterInDependants(if affectDependants then -1 else 1);
        countedInDependants := affectDependants;
      }
    }

    /** The third part: whether it counts as pending. */
    method SyncPending(istate: InitdState)
      modifies this`countedInPendingTasks, istate`pendingTasks
      ensures countedInPendingTasks == !old(View()).Settled()
      ensures istate.pendingTasks == old(istate.pendingTasks)
                + Delta(old(countedInPendingTasks), countedInPendingTasks, 1)
    {
      var affectPendingTasks := handle.IsInTransition() || handle.IsRunning() != shouldWork;
      if affectPendingTasks != countedInPendingTasks {
        istate.pendingTasks := istate.pendingTasks + (if affectPendingTasks then 1 else -1);
        countedInPendingTasks := affectPendingTasks;
      }
    }

    method Sync(istate: InitdState)
      modifies this`countedInDependencies, this`countedInDependants, this`countedInPendingTasks
      modifies (set d | d in dependencies)`runningDependants
      modifies (set d | d in dependants)`stoppedDependencies
      modifies istate`pendingTasks
      ensures countedInDependencies == old(handle.View()).Live()
      ensures countedInDependants == old(handle.View()).Up()
      ensures countedInPendingTasks == !old(View()).Settled()
      ensures forall u: Task | old(allocated(u)) :: u.runningDependants ==
                old(u.runningDependants)
                + Delta(old(countedInDependencies), countedInDependencies, multiset(dependencies)[u])
      ensures forall u: Task | old(allocated(u)) :: u.stoppedDependencies ==
                old(u.stoppedDependencies)
                - Delta(old(countedInDependants), countedInDependants, multiset(dependants)[u])
      ensures istate.pendingTasks == old(istate.pendingTasks)
                + Delta(old(countedInPendingTasks), countedInPendingTasks, 1)
    {
      hide Delta;
      SyncDependencies();
      SyncDependants();
      SyncPending(istate);
    }

    predicate AreDependenciesRunning()
      reads this
    {
      stoppedDependencies == 0
    }

    predicate AreDependantsStopped()
      reads this
    {
      runningDependants == 0
    }

    method EnqueueThis()
      requires handle.Valid()
      modifies handle.Repr()
      ensures handle.Valid() && View() == EnqueueTask(old(View()))
      ensures handle.Attempts() ==
        if handle.SyncHandle? && !old(handle.IsRunning()) && handle.IsRunning() then
          old(handle.Attempts()) + [handle.Created()]
        else old(handle.Attempts())
    {
      if (!handle.IsRunning() || handle.IsInTransition())
        && shouldWork && AreDependenciesRunning() {
        handle.SetShouldWork(true);
      }
      if (handle.IsRunning() || handle.IsInTransition())
        && !shouldWork && AreDependantsStopped() {
        handle.SetShouldWork(false);
      }
    }
  }

  /** A set of tasks that contains the dependencies of its members. */
  ghost predicate HoldsDependencies(bound: set<Task>)
    reads bound
  {
    forall t, d {:trigger d in t.dependencies} | t in bound && d in t.dependencies :: d in bound
  }

  /** Marks all tasks of `ts` and what they depend on, but nothing outside `bound`. */
  method MarkAllOf(ts: seq<Task>, ghost bound: set<Task>)
    requires HoldsDependencies(bound) && forall t | t in ts :: t in bound
    requires forall t | t in bound :: !t.shouldWork
    modifies bound`shouldWork
    ensures forall t | t in ts :: t.shouldWork
    ensures forall t, d {:trigger d in t.dependencies} |
              t in bound && t.shouldWork && d in t.dependencies :: d.shouldWork
  {
    for k := 0 to |ts|
      invariant forall t, d {:trigger d in t.dependencies} |
                  t in bound && t.shouldWork && d in t.dependencies :: d.shouldWork
      invariant forall j | 0 <= j < k :: ts[j].shouldWork
    {
      ts[k].MarkShouldWork(bound);
    }
  }

  /** `add_task_dependency`. */
  method AddTaskDependency(dependant: Task, dependency: Task)
    requires !dependency.handle.IsRunning()
    modifies dependant`dependencies, dependant`stoppedDependencies, dependency`dependants
    ensures dependant.dependencies == old(dependant.dependencies) + [dependency]
    ensures dependency.dependants == old(dependency.dependants) + [dependant]
    ensures dependant.stoppedDependencies == old(dependant.stoppedDependencies) + 1
  {
    dependant.dependencies := dependant.dependencies + [dependency];
    dependency.dependants := dependency.dependants + [dependant];
    dependant.stoppedDependencies := dependant.stoppedDependencies + 1;
  }

  // ---- Tasks by number ---------------------------------------------------------------------

  ghost predicate AllDifferent(ts: seq<Task>) {
    forall i, j | 0 <= i < j < |ts| ::
      ts[i] != ts[j] && ts[i].handle.Repr() !! ts[j].handle.Repr()
  }

  lemma DifferentTasks(ts: seq<Task>, i: nat, j: nat)
    requires AllDifferent(ts) && i < |ts| && j < |ts| && i != j
    ensures ts[i] != ts[j] && ts[i].handle.Repr() !! ts[j].handle.Repr()
  {
  }

  /** `refs` are the tasks of `ts` with the numbers `ids`. */
  ghost predicate Numbered(ts: seq<Task>, refs: seq<Task>, ids: seq<nat>) {
    && |refs| == |ids|
    && forall k | 0 <= k < |ids| :: ids[k] < |ts| && refs[k] == ts[ids[k]]
  }

  lemma {:induction false} NumberedMultiset(ts: seq<Task>, refs: seq<Task>, ids: seq<nat>, u: nat)
    requires AllDifferent(ts) && Numbered(ts, refs, ids) && u < |ts|
    ensures multiset(refs)[ts[u]] == multiset(ids)[u]
  {
    hide AllDifferent;
    if ids != [] {
      var n := |ids| - 1;
      NumberedMultiset(ts, refs[..n], ids[..n], u);
      assert refs == refs[..n] + [refs[n]];
      assert ids == ids[..n] + [ids[n]];
      if ids[n] != u {
        DifferentTasks(ts, ids[n], u);
      }
    }
  }

  ghost function Views(ts: seq<Task>, objects: set<object>): (vs: seq<Model.Task>)
    requires forall i | 0 <= i < |ts| :: ts[i].handle.Repr() <= objects
    reads ts, objects
    ensures |vs| == |ts| && forall i | 0 <= i < |ts| :: vs[i] == ts[i].View()
  {
    if ts == [] then [] else Views(ts[..|ts| - 1], objects) + [ts[|ts| - 1].View()]
  }

  // ---- Construction ------------------------------------------------------------------------

  /** A task of the configuration, and the numbers of the tasks it depends on. */
  datatype TaskDescription = TaskDescription(kind: Kind, dependencies: seq<nat>)

  /** The edges so far, as pointers and as numbers. */
  ghost predicate WiredBy(ts: seq<Task>, deps: seq<seq<nat>>, users: seq<seq<nat>>)
    reads ts
  {
    && |ts| == |deps| == |users|
    && (forall t: nat | t < |ts| ::
          && Numbered(ts, ts[t].dependencies, deps[t])
          && Numbered(ts, ts[t].dependants, users[t])
          && ts[t].stoppedDependencies == |deps[t]|)
  }

  ghost predicate BothWays(deps: seq<seq<nat>>, users: seq<seq<nat>>)
  {
    && |deps| == |users|
    && (forall t, d | 0 <= t < |deps| && 0 <= d < |deps| ::
          multiset(deps[t])[d] == multiset(users[d])[t])
  }

  lemma EdgeAdded(deps: seq<seq<nat>>, users: seq<seq<nat>>, i: nat, d: nat)
    requires BothWays(deps, users) && i < |deps| && d < |deps|
    ensures BothWays(deps[i := deps[i] + [d]], users[d := users[d] + [i]])
  {
  }

  /** A task that has been created but not wired. */
  ghost predicate Unwired(t: Task, kind: Kind)
    reads t, t.handle.Repr()
  {
    && t.handle.Valid()
    && t.View() == NewTask(kind, 0)
    && t.dependencies == [] && t.dependants == []
  }

  method CreateTasks(descrs: seq<TaskDescription>) returns (ts: seq<Task>, ghost objects: set<object>)
    ensures |ts| == |descrs| && AllDifferent(ts)
    ensures fresh(objects) && forall t | t in ts :: fresh(t) && t !in objects
    ensures forall i | 0 <= i < |ts| ::
              ts[i].handle.Repr() <= objects && Unwired(ts[i], descrs[i].kind)
  {
    ts, objects := [], {};
    for k := 0 to |descrs|
      invariant |ts| == k && AllDifferent(ts)
      invariant fresh(objects) && forall t | t in ts :: fresh(t) && t !in objects
      invariant forall i | 0 <= i < k ::
                  ts[i].handle.Repr() <= objects && Unwired(ts[i], descrs[i].kind)
    {
      var h := CreateTaskHandle(descrs[k].kind);
      var t := new Task(h);
      ts := ts + [t];
      objects := objects + h.Repr();
    }
  }

  method AddEdge(ts: seq<Task>, i: nat, d: nat, ghost deps: seq<seq<nat>>, ghost users: seq<seq<nat>>)
    requires AllDifferent(ts) && WiredBy(ts, deps, users) && i < |ts| && d < |ts|
    requires !ts[d].handle.IsRunning()
    modifies ts`dependencies, ts`dependants, ts`stoppedDependencies
    ensures WiredBy(ts, deps[i := deps[i] + [d]], users[d := users[d] + [i]])
  {
    hide AllDifferent;
    forall t: nat | t < |ts| ensures t != i ==> ts[t] != ts[i] ensures t != d ==> ts[t] != ts[d] {
      if t != i {
        DifferentTasks(ts, t, i);
      }
      if t != d {
        DifferentTasks(ts, t, d);
      }
    }
    AddTaskDependency(ts[i], ts[d]);
  }

  /** The edges that the first `n` descriptions give. */
  ghost function DepsOf(descrs: seq<TaskDescription>, n: nat): (deps: seq<seq<nat>>)
    requires n <= |descrs|
    ensures |deps| == |descrs|
    ensures forall t | 0 <= t < |descrs| :: deps[t] == if t < n then descrs[t].dependencies else []
  {
    seq(|descrs|, t requires 0 <= t < |descrs| => if t < n then descrs[t].dependencies else [])
  }

  ghost predicate NoneRunning(ts: seq<Task>, objects: set<object>)
    reads objects
  {
    && (forall t | t in ts :: t !in objects && t.handle.Repr() <= objects)
    && (forall t | t in ts :: !t.handle.IsRunning())
  }

  /** The inner loop of the constructor, over the dependencies of one task. */
  method WireTask(ts: seq<Task>, ghost objects: set<object>, i: nat, ids: seq<nat>,
      ghost deps: seq<seq<nat>>, ghost users: seq<seq<nat>>)
    returns (ghost users': seq<seq<nat>>)
    requires AllDifferent(ts) && i < |ts| && Ids(ids, |ts|) && NoneRunning(ts, objects)
    requires WiredBy(ts, deps, users) && BothWays(deps, users) && deps[i] == []
    modifies ts`dependencies, ts`dependants, ts`stoppedDependencies
    ensures WiredBy(ts, deps[i := ids], users') && BothWays(deps[i := ids], users')
    ensures NoneRunning(ts, objects)
  {
    hide AllDifferent, WiredBy, BothWays;
    users' := users;
    WiredLengths(ts, deps, users);
    ghost var deps' := deps;
    for k := 0 to |ids|
      invariant |ts| == |deps'| == |users'| && deps' == deps[i := ids[..k]]
      invariant WiredBy(ts, deps', users') && BothWays(deps', users')
      invariant NoneRunning(ts, objects)
    {
      assert ts[ids[k]] in ts;
      AddEdge(ts, i, ids[k], deps', users');
      EdgeAdded(deps', users', i, ids[k]);
      users' := users'[ids[k] := users'[ids[k]] + [i]];
      deps' := deps'[i := deps'[i] + [ids[k]]];
      assert ids[..k] + [ids[k]] == ids[..k + 1];
    }
    assert ids[..|ids|] == ids;
  }

  lemma WiredLengths(ts: seq<Task>, deps: seq<seq<nat>>, users: seq<seq<nat>>)
    requires WiredBy(ts, deps, users)
    ensures |ts| == |deps| == |users|
  {
  }

  ghost predicate AllUnwired(ts: seq<Task>, descrs: seq<TaskDescription>)
    requires |ts| == |descrs|
    reads ts, set t, o | t in ts && o in t.handle.Repr() :: o
  {
    forall i | 0 <= i < |ts| :: Unwired(ts[i], descrs[i].kind)
  }

  ghost predicate DependenciesInside(descrs: seq<TaskDescription>) {
    forall i | 0 <= i < |descrs| :: Ids(descrs[i].dependencies, |descrs|)
  }

  lemma DependencyIds(descrs: seq<TaskDescription>, i: nat)
    requires DependenciesInside(descrs) && i < |descrs|
    ensures Ids(descrs[i].dependencies, |descrs|)
    ensures DepsOf(descrs, i)[i] == []
  {
  }

  /** The loop of the constructor that calls `add_task_dependency`. */
  method WireTasks(ts: seq<Task>, ghost objects: set<object>, descrs: seq<TaskDescription>)
    returns (ghost users: seq<seq<nat>>)
    requires AllDifferent(ts) && |ts| == |descrs| && NoneRunning(ts, objects)
    requires AllUnwired(ts, descrs) && DependenciesInside(descrs)
    modifies ts`dependencies, ts`dependants, ts`stoppedDependencies
    ensures WiredBy(ts, DepsOf(descrs, |descrs|), users)
    ensures BothWays(DepsOf(descrs, |descrs|), users)
  {
    hide AllDifferent, NoneRunning, WiredBy, BothWays, AllUnwired, DependenciesInside, Ids, DepsOf;
    users := seq(|ts|, _ => []);
    NothingWired(ts, descrs, users);
    for i := 0 to |ts|
      invariant WiredBy(ts, DepsOf(descrs, i), users) && BothWays(DepsOf(descrs, i), users)
      invariant NoneRunning(ts, objects)
    {
      DependencyIds(descrs, i);
      users := WireTask(ts, objects, i, descrs[i].dependencies, DepsOf(descrs, i), users);
      DepsGrow(descrs, i);
    }
  }

  lemma NothingWired(ts: seq<Task>, descrs: seq<TaskDescription>, users: seq<seq<nat>>)
    requires |ts| == |descrs| == |users| && forall i | 0 <= i < |users| :: users[i] == []
    requires AllUnwired(ts, descrs)
    ensures WiredBy(ts, DepsOf(descrs, 0), users) && BothWays(DepsOf(descrs, 0), users)
  {
  }

  lemma DepsGrow(descrs: seq<TaskDescription>, i: nat)
    requires i < |descrs|
    ensures DepsOf(descrs, i)[i := descrs[i].dependencies] == DepsOf(descrs, i + 1)
  {
  }

  /** A task that has been created and wired, but never synced. */
  ghost predicate Fresh(t: Task, objects: set<object>, d: TaskDescription)
    reads t, t.handle.Repr()
  {
    && t.handle.Repr() <= objects
    && t.handle.Valid()
    && t.View() == NewTask(d.kind, |d.dependencies|)
  }

  /** The first two loops of the constructor. */
  method BuildTasks(descrs: seq<TaskDescription>)
    returns (ts: seq<Task>, ghost objects: set<object>, ghost users: seq<seq<nat>>)
    requires forall i | 0 <= i < |descrs| :: Ids(descrs[i].dependencies, |descrs|)
    ensures |ts| == |descrs| && AllDifferent(ts)
    ensures fresh(objects) && forall t | t in ts :: fresh(t) && t !in objects
    ensures WiredBy(ts, DepsOf(descrs, |descrs|), users)
    ensures BothWays(DepsOf(descrs, |descrs|), users)
    ensures forall i | 0 <= i < |ts| :: Fresh(ts[i], objects, descrs[i])
  {
    hide AllDifferent, BothWays, Ids, DepsOf;
    ts, objects := CreateTasks(descrs);
    label created:
    users := WireTasks(ts, objects, descrs);
    forall i | 0 <= i < |ts| ensures Fresh(ts[i], objects, descrs[i]) {
      assert ts[i] in ts;
      HandleKept@created(ts[i].handle);
    }
  }

  lemma EdgesWellFormed(ts: seq<Task>, deps: seq<seq<nat>>, users: seq<seq<nat>>)
    requires WiredBy(ts, deps, users) && BothWays(deps, users)
    ensures WellFormed(Graph(deps, users))
  {
    forall t: nat, k | t < |deps| && 0 <= k < |deps[t]| ensures deps[t][k] < |deps| {
      assert Numbered(ts, ts[t].dependencies, deps[t]);
    }
    forall t: nat, k | t < |users| && 0 <= k < |users[t]| ensures users[t][k] < |deps| {
      assert Numbered(ts, ts[t].dependants, users[t]);
    }
  }

  /** The requisites of one run level. */
  method FindTasks(ts: seq<Task>, ids: seq<nat>) returns (refs: seq<Task>)
    requires Ids(ids, |ts|)
    ensures Numbered(ts, refs, ids)
  {
    refs := [];
    for k := 0 to |ids|
      invariant |refs| == k && forall j | 0 <= j < k :: refs[j] == ts[ids[j]]
    {
      refs := refs + [ts[ids[k]]];
    }
  }

  /** The last loop of the constructor. */
  method FindRunLevels(ts: seq<Task>, levels: map<string, seq<nat>>)
    returns (found: map<string, seq<Task>>)
    requires forall name | name in levels :: Ids(levels[name], |ts|)
    ensures found.Keys == levels.Keys
    ensures forall name | name in levels :: Numbered(ts, found[name], levels[name])
  {
    hide Numbered, Ids;
    found := map[];
    var rest := levels.Keys;
    while rest != {}
      invariant rest <= levels.Keys && found.Keys == levels.Keys - rest
      invariant forall name | name in found :: Numbered(ts, found[name], levels[name])
      decreases rest
    {
      var name :| name in rest;
      var refs := FindTasks(ts, levels[name]);
      found := found[name := refs];
      rest := rest - {name};
    }
  }

  // ---- The supervisor ----------------------------------------------------------------------

  class InitdState {
    var tasks: seq<Task>
    var runLevels: map<string, seq<Task>>
    var pendingTasks: int
    ghost var config: Config
    /** The objects that the handles consist of. */
    ghost var handleObjects: set<object>

    /** The pointers between the tasks are the edges of the configured graph. */
    ghost predicate Wired()
      reads `tasks, `runLevels, `config, `handleObjects, tasks`dependencies, tasks`dependants
    {
      && ValidConfig(config)
      && |tasks| == |config.kinds| == |config.g.deps| == |config.g.users|
      && AllDifferent(tasks)
      && this !in handleObjects
      && (forall i | 0 <= i < |tasks| ::
            tasks[i] !in handleObjects && tasks[i].handle.Repr() <= handleObjects)
      && (forall i: nat | i < |tasks| ::
            && Numbered(tasks, tasks[i].dependencies, config.g.deps[i])
            && Numbered(tasks, tasks[i].dependants, config.g.users[i]))
      && runLevels.Keys == config.runLevels.Keys
      && (forall name | name in runLevels ::
            Numbered(tasks, runLevels[name], config.runLevels[name]))
    }

    /** The constructor: the handles, then the edges, then the run levels. The numbers are in
        range because `resolve_task` only ever yields declared tasks. */
    constructor (descrs: seq<TaskDescription>, levels: map<string, seq<nat>>)
      requires forall i | 0 <= i < |descrs| :: Ids(descrs[i].dependencies, |descrs|)
      requires forall name | name in levels :: Ids(levels[name], |descrs|)
      ensures Valid() && fresh(handleObjects) && forall t | t in tasks :: fresh(t)
      ensures config.g.deps == DepsOf(descrs, |descrs|)
      ensures config.kinds == seq(|descrs|, i requires 0 <= i < |descrs| => descrs[i].kind)
      ensures config.runLevels == levels
      ensures View() == Initial(config.g, config.kinds)
    {
      hide AllDifferent, Numbered, Ids, BothWays, DepsOf, WellFormed, WiredBy;
      var ts, objects, users := BuildTasks(descrs);
      var found := FindRunLevels(ts, levels);
      EdgesWellFormed(ts, DepsOf(descrs, |descrs|), users);
      tasks, handleObjects, runLevels, pendingTasks := ts, objects, found, 0;
      config := Config(Graph(DepsOf(descrs, |descrs|), users),
                       seq(|descrs|, i requires 0 <= i < |descrs| => descrs[i].kind), levels);
      new;
      Connected(descrs);
      Built(descrs);
    }

    lemma Connected(descrs: seq<TaskDescription>)
      requires |tasks| == |descrs| == |config.kinds| && AllDifferent(tasks)
      requires WiredBy(tasks, config.g.deps, config.g.users) && WellFormed(config.g)
      requires this !in handleObjects && forall t | t in tasks :: t !in handleObjects
      requires forall i | 0 <= i < |tasks| :: Fresh(tasks[i], handleObjects, descrs[i])
      requires runLevels.Keys == config.runLevels.Keys
      requires forall name | name in config.runLevels ::
                 && Ids(config.runLevels[name], |tasks|)
                 && Numbered(tasks, runLevels[name], config.runLevels[name])
      ensures Wired()
    {
      hide AllDifferent, Numbered, Ids, WellFormed;
      forall i | 0 <= i < |tasks|
        ensures tasks[i] !in handleObjects && tasks[i].handle.Repr() <= handleObjects
      {
        assert tasks[i] in tasks && Fresh(tasks[i], handleObjects, descrs[i]);
      }
    }

    lemma Built(descrs: seq<TaskDescription>)
      requires |tasks| == |descrs| == |config.kinds| == |config.g.deps| == |config.g.users|
      requires forall i | 0 <= i < |descrs| :: config.kinds[i] == descrs[i].kind
      requires config.g.deps == DepsOf(descrs, |descrs|) && pendingTasks == 0
      requires forall i | 0 <= i < |tasks| :: Fresh(tasks[i], handleObjects, descrs[i])
      ensures HandlesValid() && View() == Initial(config.g, config.kinds)
    {
      hide DepsOf, Views;
      assert forall i | 0 <= i < |tasks| :: Fresh(tasks[i], handleObjects, descrs[i]);
      var s := Initial(config.g, config.kinds);
      forall i: nat | i < |tasks| ensures View().tasks[i] == s.tasks[i] {
      }
    }

    lemma Wiring(i: nat)
      requires Wired() && i < |tasks|
      ensures |tasks| == |config.kinds| == |config.g.deps| == |config.g.users|
      ensures AllDifferent(tasks) && WellFormed(config.g)
      ensures Numbered(tasks, tasks[i].dependencies, config.g.deps[i])
      ensures Numbered(tasks, tasks[i].dependants, config.g.users[i])
      ensures forall d | d in tasks[i].dependencies :: d in tasks
      ensures forall d | d in tasks[i].dependants :: d in tasks
    {
    }

    /** Counting pointers is counting edges. */
    lemma PointersCounted(i: nat)
      requires Wired() && i < |tasks|
      ensures |tasks| == |config.g.deps| == |config.g.users|
      ensures forall u | 0 <= u < |tasks| ::
                && multiset(tasks[i].dependencies)[tasks[u]] == multiset(config.g.deps[i])[u]
                && multiset(tasks[i].dependants)[tasks[u]] == multiset(config.g.users[i])[u]
                && (u != i ==> tasks[u] != tasks[i])
    {
      hide Wired, AllDifferent, Numbered;
      Wiring(i);
      forall u: nat | u < |tasks|
        ensures multiset(tasks[i].dependencies)[tasks[u]] == multiset(config.g.deps[i])[u]
        ensures multiset(tasks[i].dependants)[tasks[u]] == multiset(config.g.users[i])[u]
        ensures u != i ==> tasks[u] != tasks[i]
      {
        NumberedMultiset(tasks, tasks[i].dependencies, config.g.deps[i], u);
        NumberedMultiset(tasks, tasks[i].dependants, config.g.users[i], u);
        if u != i {
          DifferentTasks(tasks, u, i);
        }
      }
    }

    lemma Apart()
      requires Wired()
      ensures this !in handleObjects && forall t | t in tasks :: t !in handleObjects
      ensures forall i | 0 <= i < |tasks| :: tasks[i].handle.Repr() <= handleObjects
    {
    }

    ghost predicate HandlesValid()
      reads `tasks, `handleObjects, handleObjects
    {
      forall i: nat | i < |tasks| ::
        tasks[i].handle.Repr() <= handleObjects && tasks[i].handle.Valid()
    }

    twostate lemma HandlesKept()
      requires tasks == old(tasks) && handleObjects == old(handleObjects)
      requires unchanged(handleObjects) && old(HandlesValid())
      ensures HandlesValid()
      ensures forall i | 0 <= i < |tasks| :: tasks[i].handle.View() == old(tasks[i].handle.View())
    {
      forall i: nat | i < |tasks|
        ensures tasks[i].handle.View() == old(tasks[i].handle.View())
        ensures tasks[i].handle.Valid() == old(tasks[i].handle.Valid())
      {
        HandleKept(tasks[i].handle);
      }
    }

    ghost function View(): (s: State)
      requires HandlesValid()
      reads `tasks, `pendingTasks, tasks, `handleObjects, handleObjects
      ensures |s.tasks| == |tasks|
      ensures forall i | 0 <= i < |tasks| :: s.tasks[i] == tasks[i].View()
      ensures s.pending == pendingTasks
    {
      State(Views(tasks, handleObjects), pendingTasks)
    }

    ghost predicate Valid()
      reads `tasks, `runLevels, `config, tasks`dependencies, tasks`dependants
      reads `handleObjects, handleObjects
    {
      && Wired()
      && HandlesValid()
      && |tasks| == |config.kinds| == |config.g.deps| == |config.g.users|
    }

    lemma OthersDiffer(i: nat)
      requires Wired() && i < |tasks|
      ensures forall u | 0 <= u < |tasks| && u != i :: tasks[u] != tasks[i]
    {
    }

    /** What `Task.Sync` does to the fields is what `Model.Sync` does to the view. */
    twostate lemma SyncRefines(i: nat)
      requires tasks == old(tasks) && config == old(config) && i < |tasks|
      requires Wired() && old(HandlesValid()) && HandlesValid()
      requires forall u | 0 <= u < |tasks| ::
                 tasks[u].handle.View() == old(tasks[u].handle.View())
      requires forall u | 0 <= u < |tasks| :: tasks[u].shouldWork == old(tasks[u].shouldWork)
      requires forall u | 0 <= u < |tasks| && u != i ::
                 && tasks[u].countedInDependencies == old(tasks[u].countedInDependencies)
                 && tasks[u].countedInDependants == old(tasks[u].countedInDependants)
                 && tasks[u].countedInPendingTasks == old(tasks[u].countedInPendingTasks)
      requires tasks[i].countedInDependencies == old(tasks[i].handle.View()).Live()
      requires tasks[i].countedInDependants == old(tasks[i].handle.View()).Up()
      requires tasks[i].countedInPendingTasks == !old(tasks[i].View()).Settled()
      requires forall u | 0 <= u < |tasks| ::
                 tasks[u].runningDependants == old(tasks[u].runningDependants)
                 + Delta(old(tasks[i].countedInDependencies), tasks[i].countedInDependencies,
                         multiset(tasks[i].dependencies)[tasks[u]])
      requires forall u | 0 <= u < |tasks| ::
                 tasks[u].stoppedDependencies == old(tasks[u].stoppedDependencies)
                 - Delta(old(tasks[i].countedInDependants), tasks[i].countedInDependants,
                         multiset(tasks[i].dependants)[tasks[u]])
      requires pendingTasks == old(pendingTasks)
                 + Delta(old(tasks[i].countedInPendingTasks), tasks[i].countedInPendingTasks, 1)
      ensures |tasks| == |config.g.deps| == |config.g.users|
      ensures View() == Model.Sync(config.g, old(View()), i)
    {
      hide HandlesValid, Views, Wired, Delta;
      PointersCounted(i);
      SyncedState(config.g, old(View()), i, View());
    }

    /** The call `tasks[i]->sync(this)`. */
    method SyncTask(i: nat)
      requires Valid() && i < |tasks|
      modifies `pendingTasks
      modifies tasks`countedInDependencies, tasks`countedInDependants, tasks`countedInPendingTasks
      modifies tasks`runningDependants, tasks`stoppedDependencies
      ensures Valid() && View() == Model.Sync(config.g, old(View()), i)
    {
      hide Wired, AllDifferent, Numbered, HandlesValid, View, Views, Delta, Sync;
      Wiring(i);
      Apart();
      OthersDiffer(i);
      tasks[i].Sync(this);
      assert Wired();
      HandlesKept();
      SyncRefines(i);
    }

    /** The call `t->enqueue_this()`, where `t` is task number `i`. */
    method EnqueueOne(t: Task, ghost i: nat)
      requires Valid() && i < |tasks| && t == tasks[i]
      modifies handleObjects
      ensures Fixed() && Valid() && View() == Model.Enqueue(old(View()), i)
    {
      hide Wired, AllDifferent, Numbered, EnqueueTask, Views;
      Wiring(i);
      Apart();
      OtherHandlesDiffer(i);
      t.EnqueueThis();
      assert Wired();
      forall u: nat | u < |tasks| && u != i
        ensures tasks[u].handle.View() == old(tasks[u].handle.View())
        ensures tasks[u].handle.Valid()
      {
        HandleKept(tasks[u].handle);
      }
    }

    /** The tasks and their wiring are not replaced. */
    twostate predicate Fixed()
      reads `tasks, `runLevels, `config, `handleObjects
    {
      && tasks == old(tasks) && runLevels == old(runLevels)
      && config == old(config) && handleObjects == old(handleObjects)
    }

    lemma OtherHandlesDiffer(i: nat)
      requires Wired() && i < |tasks|
      ensures forall u | 0 <= u < |tasks| && u != i ::
                tasks[u] != tasks[i] && tasks[u].handle.Repr() !! tasks[i].handle.Repr()
    {
    }

    /** `enqueue_all(tts)`, where `tts` are the tasks with the numbers `ids`. */
    method EnqueueAllOf(tts: seq<Task>, ghost ids: seq<nat>)
      requires Valid() && Ids(ids, |tasks|) && Numbered(tasks, tts, ids)
      modifies handleObjects
      ensures Fixed() && Valid() && View() == EnqueueList(old(View()), ids, |ids|)
    {
      hide Wired, HandlesValid, View, Enqueue;
      for k := 0 to |tts|
        invariant Fixed() && Valid() && View() == EnqueueList(old(View()), ids, k)
      {
        EnqueueOne(tts[k], ids[k]);
      }
    }

    /** `enqueue_all()`. */
    method EnqueueAll()
      requires Valid()
      modifies handleObjects
      ensures Fixed() && Valid() && View() == EnqueueFirst(old(View()), |tasks|)
    {
      hide Wired, HandlesValid, View, Enqueue;
      for k := 0 to |tasks|
        invariant Fixed() && Valid() && View() == EnqueueFirst(old(View()), k)
      {
        EnqueueOne(tasks[k], k);
      }
    }

    /** The loop `for (tp : tasks) tp->sync(this)`. */
    method SyncAll()
      requires Valid()
      modifies `pendingTasks
      modifies tasks`countedInDependencies, tasks`countedInDependants, tasks`countedInPendingTasks
      modifies tasks`runningDependants, tasks`stoppedDependencies
      ensures Valid() && View() == SyncFirst(config.g, old(View()), |tasks|)
    {
      hide Wired, HandlesValid, View, Model.Sync;
      for k := 0 to |tasks|
        invariant Valid() && View() == SyncFirst(config.g, old(View()), k)
      {
        SyncTask(k);
      }
    }

    /** The callback given to handle number `i`. */
    method StateChanged(i: nat)
      requires Valid() && i < |tasks|
      modifies `pendingTasks
      modifies tasks`countedInDependencies, tasks`countedInDependants, tasks`countedInPendingTasks
      modifies tasks`runningDependants, tasks`stoppedDependencies
      modifies handleObjects
      ensures Fixed() && Valid() && WellFormedFor(config.g, old(View()))
      ensures View() == Model.StateChanged(config.g, old(View()), i)
    {
      hide Wired, HandlesValid, View, Model.Sync, AllDifferent, Numbered, ValidConfig;
      Wiring(i);
      ghost var s := View();
      SyncTask(i);
      SyncFrame(config.g, s, i);
      if tasks[i].handle.IsRunning() {
        EnqueueAllOf(tasks[i].dependants, config.g.users[i]);
      } else {
        EnqueueAllOf(tasks[i].dependencies, config.g.deps[i]);
      }
    }

    // ---- Marking ---------------------------------------------------------------------------

    twostate lemma WantRefines(m: set<nat>)
      requires tasks == old(tasks) && pendingTasks == old(pendingTasks)
      requires old(HandlesValid()) && HandlesValid()
      requires forall u: nat | u < |tasks| ::
                 tasks[u].View() == old(tasks[u].View()).(shouldWork := u in m)
      ensures View() == Want(old(View()), m)
    {
      hide HandlesValid, Views;
    }

    method ClearShouldWorkFlag()
      requires Valid()
      modifies tasks`shouldWork
      ensures Valid() && View() == Want(old(View()), {})
      ensures forall t | t in tasks :: !t.shouldWork
    {
      hide Wired, View;
      Apart();
      for k := 0 to |tasks|
        invariant forall u | 0 <= u < k :: !tasks[u].shouldWork
      {
        tasks[k].ClearShouldWork();
      }
      HandlesKept();
      WantRefines({});
    }

    /** The tasks with the numbers `m`. */
    ghost function Members(m: set<nat>): set<Task>
      reads `tasks
    {
      set u | u in m && u < |tasks| :: tasks[u]
    }

    lemma MembersClosed(m: set<nat>)
      requires Wired() && ClosedSet(config.g, m)
      ensures HoldsDependencies(Members(m)) && forall t | t in Members(m) :: t in tasks
      ensures forall u: nat | u < |tasks| :: tasks[u] in Members(m) <==> u in m
    {
      forall t, d {:trigger d in t.dependencies} | t in Members(m) && d in t.dependencies ensures d in Members(m) {
        var u: nat :| u in m && u < |tasks| && tasks[u] == t;
        Wiring(u);
        var k :| 0 <= k < |t.dependencies| && t.dependencies[k] == d;
        assert config.g.deps[u][k] in config.g.deps[u];
      }
      forall u: nat | u < |tasks| && tasks[u] in Members(m) ensures u in m {
        var v: nat :| v in m && v < |tasks| && tasks[v] == tasks[u];
        if u != v {
          DifferentTasks(tasks, u, v);
        }
      }
    }

    /** The dependencies of every marked task are marked. */
    ghost predicate MarkedClosed()
      reads `tasks, tasks
    {
      forall t, d {:trigger d in t.dependencies} | t in tasks && t.shouldWork && d in t.dependencies ::
        d in tasks && d.shouldWork
    }

    ghost function Marked(): (m: set<nat>)
      reads `tasks, tasks
    {
      set u: nat | u < |tasks| && tasks[u].shouldWork
    }

    lemma MarkedIsClosed()
      requires Wired() && MarkedClosed()
      ensures ClosedSet(config.g, Marked())
    {
      hide Wired, AllDifferent;
      WiredConfig();
      forall u, d | u in Marked() && d in config.g.deps[u] ensures d in Marked() {
        Wiring(u);
        var k :| 0 <= k < |config.g.deps[u]| && config.g.deps[u][k] == d;
        assert tasks[u].dependencies[k] in tasks[u].dependencies;
      }
    }

    lemma MarkedInside(bound: set<Task>)
      requires HoldsDependencies(bound) && forall t | t in bound :: t in tasks
      requires forall t | t in tasks && t.shouldWork :: t in bound
      requires forall t, d {:trigger d in t.dependencies}
                 | t in bound && t.shouldWork && d in t.dependencies :: d.shouldWork
      ensures MarkedClosed()
    {
    }

    /** The closure of the requisites is a bound for the marking. */
    lemma BeforeMarking(requisites: seq<Task>, ids: seq<nat>)
      requires Wired() && Ids(ids, |tasks|) && Numbered(tasks, requisites, ids)
      ensures var bound := Members(Closure(config.g, ids));
        && HoldsDependencies(bound)
        && (forall t | t in bound :: t in tasks)
        && (forall r | r in requisites :: r in bound)
    {
      hide Wired, Closure, HoldsDependencies, Members, Numbered;
      WiredConfig();
      InRange(ids);
      ClosureIsClosed(config.g, ids);
      MembersClosed(Closure(config.g, ids));
      RequisitesInside(requisites, ids, Closure(config.g, ids));
    }

    /** Marks inside the bound that are closed and include the requisites are the closure. */
    lemma AfterMarking(requisites: seq<Task>, ids: seq<nat>)
      requires Wired() && Ids(ids, |tasks|) && Numbered(tasks, requisites, ids)
      requires forall t | t in tasks && t.shouldWork :: t in Members(Closure(config.g, ids))
      requires forall r | r in requisites :: r.shouldWork
      requires forall t, d {:trigger d in t.dependencies} | t in Members(Closure(config.g, ids))
                 && t.shouldWork && d in t.dependencies :: d.shouldWork
      ensures Marked() == Closure(config.g, ids)
    {
      hide Wired, Closure, HoldsDependencies, Members, Numbered, Marked, ClosedSet;
      var cl := Closure(config.g, ids);
      WiredConfig();
      InRange(ids);
      ClosureIsClosed(config.g, ids);
      MembersClosed(cl);
      MarkedInside(Members(cl));
      MarkedIsClosed();
      RequisitesMarked(requisites, ids);
      ClosureIsLeast(config.g, ids, Marked());
      MarkedBounded(cl);
    }

    /** The loop `for (d : requisites) d->mark_should_work()` after all marks were cleared: it
        marks exactly the tasks that can be reached from a requisite. */
    method MarkRequisites(requisites: seq<Task>, ghost ids: seq<nat>)
      requires Valid() && Ids(ids, |tasks|) && Numbered(tasks, requisites, ids)
      requires forall t | t in tasks :: !t.shouldWork
      modifies tasks`shouldWork
      ensures Valid() && Marked() == Closure(config.g, ids)
    {
      hide Wired, HandlesValid, Closure, HoldsDependencies, Members, Numbered, Ids, Marked;
      Apart();
      BeforeMarking(requisites, ids);
      MarkAllOf(requisites, Members(Closure(config.g, ids)));
      HandlesKept();
      AfterMarking(requisites, ids);
    }

    /** Only the marks have changed, and they are now `m`. */
    twostate lemma OnlyMarked(m: set<nat>)
      requires tasks == old(tasks) && pendingTasks == old(pendingTasks)
      requires old(HandlesValid()) && HandlesValid()
      requires forall u | 0 <= u < |tasks| ::
                 tasks[u].handle.View() == old(tasks[u].handle.View())
      requires forall t | t in tasks :: unchanged(t`stoppedDependencies, t`runningDependants,
                 t`countedInDependencies, t`countedInDependants, t`countedInPendingTasks)
      requires Marked() == m
      ensures View() == Want(old(View()), m)
    {
      hide HandlesValid, View;
      forall u: nat | u < |tasks|
        ensures tasks[u].View() == old(tasks[u].View()).(shouldWork := u in m)
      {
        assert u in Marked() <==> tasks[u].shouldWork;
        assert tasks[u] in tasks;
      }
      WantRefines(m);
    }

    lemma InRange(ids: seq<nat>)
      requires Ids(ids, |tasks|)
      ensures forall r | r in ids :: r < |tasks|
    {
    }

    lemma RequisitesInside(requisites: seq<Task>, ids: seq<nat>, m: set<nat>)
      requires Numbered(tasks, requisites, ids) && forall r | r in ids :: r in m
      ensures forall r | r in requisites :: r in Members(m)
    {
      forall j | 0 <= j < |requisites| ensures requisites[j] in Members(m) {
        assert ids[j] in ids && requisites[j] == tasks[ids[j]];
      }
    }

    lemma RequisitesMarked(requisites: seq<Task>, ids: seq<nat>)
      requires Numbered(tasks, requisites, ids)
      requires forall r | r in requisites :: r.shouldWork
      ensures forall r | r in ids :: r in Marked()
    {
      forall r | r in ids ensures r in Marked() {
        var j :| 0 <= j < |ids| && ids[j] == r;
        assert requisites[j] in requisites;
      }
    }

    lemma MarkedBounded(m: set<nat>)
      requires forall t | t in tasks && t.shouldWork :: t in Members(m)
      requires forall u: nat | u < |tasks| :: tasks[u] in Members(m) <==> u in m
      ensures Marked() <= m
    {
    }

    lemma WiredConfig()
      requires Wired()
      ensures ValidConfig(config) && |tasks| == |config.g.deps| == |config.g.users|
    {
    }

    lemma WiredRunLevel(name: string)
      requires Wired()
      ensures name in runLevels <==> name in config.runLevels
      ensures name in runLevels ==>
                && Ids(config.runLevels[name], |tasks|)
                && Numbered(tasks, runLevels[name], config.runLevels[name])
    {
    }

    // ---- Run levels ------------------------------------------------------------------------

    /** The marks of a run-level switch: those of the run level's requisites. */
    method MarkOnly(requisites: seq<Task>, ghost ids: seq<nat>)
      requires Valid() && Ids(ids, |tasks|) && Numbered(tasks, requisites, ids)
      modifies tasks`shouldWork
      ensures Valid() && View() == Want(old(View()), Closure(config.g, ids))
    {
      hide Wired, HandlesValid, Closure, View, Numbered, Ids, Marked;
      ClearShouldWorkFlag();
      label cleared:
      Apart();
      MarkRequisites(requisites, ids);
      HandlesKept@cleared();
      OnlyMarked@cleared(Closure(config.g, ids));
      WantTwice(old(View()), {}, Closure(config.g, ids));
    }

    /** The syncs and enqueues that end both run-level switches. */
    method SyncAndEnqueueAll()
      requires Valid()
      modifies `pendingTasks
      modifies tasks`countedInDependencies, tasks`countedInDependants, tasks`countedInPendingTasks
      modifies tasks`runningDependants, tasks`stoppedDependencies
      modifies handleObjects
      ensures Fixed() && Valid()
      ensures View() == EnqueueFirst(SyncFirst(config.g, old(View()), |tasks|), |tasks|)
    {
      hide Wired, HandlesValid, View;
      SyncAll();
      EnqueueAll();
    }

    /** `set_run_level`. The result says whether there is a run level of that name; if not,
        nothing has changed. */
    method SetRunLevel(name: string) returns (found: bool)
      requires Valid()
      modifies `pendingTasks, tasks`shouldWork
      modifies tasks`countedInDependencies, tasks`countedInDependants, tasks`countedInPendingTasks
      modifies tasks`runningDependants, tasks`stoppedDependencies
      modifies handleObjects
      ensures Fixed() && Valid() && WellFormedFor(config.g, old(View()))
      ensures found == (name in config.runLevels)
      ensures View() ==
              if found then Switch(config.g, old(View()), Closure(config.g, config.runLevels[name]))
              else old(View())
    {
      hide Wired, HandlesValid, View, Numbered, Ids, Closure, ValidConfig, WellFormed;
      GraphMatches();
      WiredRunLevel(name);
      if name !in runLevels {
        return false;
      }
      MarkOnly(runLevels[name], config.runLevels[name]);
      SyncAndEnqueueAll();
      return true;
    }

    method SetEmptyRunLevel()
      requires Valid()
      modifies `pendingTasks, tasks`shouldWork
      modifies tasks`countedInDependencies, tasks`countedInDependants, tasks`countedInPendingTasks
      modifies tasks`runningDependants, tasks`stoppedDependencies
      modifies handleObjects
      ensures Fixed() && Valid() && WellFormedFor(config.g, old(View()))
      ensures View() == Switch(config.g, old(View()), {})
    {
      hide Wired, HandlesValid, View, ValidConfig, WellFormed;
      GraphMatches();
      ClearShouldWorkFlag();
      SyncAndEnqueueAll();
    }

    lemma GraphMatches()
      requires Valid()
      ensures WellFormedFor(config.g, View())
    {
    }

    predicate HasPendingOperations()
      reads `pendingTasks
    {
      pendingTasks != 0
    }

    // ---- Completions -----------------------------------------------------------------------

    /** The child process of the operation in flight on task `i` exits: its handle completes the
        operation, relaunches itself if necessary, and reports the change. */
    method ChildExit(i: nat)
      requires Valid() && i < |tasks|
      requires tasks[i].handle.View().Ok() && tasks[i].handle.IsInTransition()
      modifies `pendingTasks
      modifies tasks`countedInDependencies, tasks`countedInDependants, tasks`countedInPendingTasks
      modifies tasks`runningDependants, tasks`stoppedDependencies
      modifies handleObjects
      ensures Fixed() && Valid() && WellFormedFor(config.g, old(View()))
      ensures View() == Model.ChildExit(config.g, old(View()), i)
    {
      hide Wired, HandlesValid, View, AllDifferent, ValidConfig, WellFormed;
      GraphMatches();
      Complete(i);
      StateChanged(i);
    }

    method Complete(i: nat)
      requires Valid() && i < |tasks|
      requires tasks[i].handle.View().Ok() && tasks[i].handle.IsInTransition()
      modifies handleObjects
      ensures Fixed() && Valid()
      ensures View() ==
              SetHandle(old(View()), i, old(View()).tasks[i].h.Complete())
    {
      hide Wired, AllDifferent, Views;
      Apart();
      OtherHandlesDiffer(i);
      match tasks[i].handle {
        case AsyncHandle(task) => task.OnChildExit();
        case SyncHandle(_) => assert false;
      }
      assert Wired();
      forall u: nat | u < |tasks| && u != i
        ensures tasks[u].handle.View() == old(tasks[u].handle.View())
        ensures tasks[u].handle.Valid()
      {
        HandleKept(tasks[u].handle);
      }
    }

    /** The eventfd of the function queue of task `i` is readable. */
    method QueueWake(i: nat)
      requires Valid() && i < |tasks| && tasks[i].handle.View().signals > 0
      modifies `pendingTasks
      modifies tasks`countedInDependencies, tasks`countedInDependants, tasks`countedInPendingTasks
      modifies tasks`runningDependants, tasks`stoppedDependencies
      modifies handleObjects
      ensures Fixed() && Valid() && WellFormedFor(config.g, old(View()))
      ensures old(View()).tasks[i].h.queued > 0
      ensures View() == Model.QueueWake(config.g, old(View()), i)
    {
      hide Wired, HandlesValid, View, AllDifferent, ValidConfig, WellFormed;
      GraphMatches();
      Read(i);
      StateChanged(i);
    }

    method Read(i: nat)
      requires Valid() && i < |tasks| && tasks[i].handle.View().signals > 0
      modifies handleObjects
      ensures Fixed() && Valid()
      ensures old(View()).tasks[i].h.queued > 0
      ensures View() == SetHandle(old(View()), i, old(View()).tasks[i].h.Wake())
    {
      hide Wired, AllDifferent, Views;
      Apart();
      OtherHandlesDiffer(i);
      match tasks[i].handle {
        case AsyncHandle(_) => assert false;
        case SyncHandle(adaptor) => adaptor.OnReadable();
      }
      assert Wired();
      forall u: nat | u < |tasks| && u != i
        ensures tasks[u].handle.View() == old(tasks[u].handle.View())
        ensures tasks[u].handle.Valid()
      {
        HandleKept(tasks[u].handle);
      }
    }
  }

  lemma WantTwice(s: State, a: set<nat>, b: set<nat>)
    ensures Want(Want(s, a), b) == Want(s, b)
  {
  }

  /** `r` is `s` after `sync` on task `i`. */
  lemma SyncedState(g: Graph, s: State, i: nat, r: State)
    requires |g.deps| == |g.users| == |s.tasks| == |r.tasks| && i < |s.tasks|
    requires forall u | 0 <= u < |s.tasks| :: r.tasks[u].h == s.tasks[u].h
    requires forall u | 0 <= u < |s.tasks| :: r.tasks[u].shouldWork == s.tasks[u].shouldWork
    requires forall u | 0 <= u < |s.tasks| && u != i ::
               r.tasks[u].countedLive == s.tasks[u].countedLive
    requires forall u | 0 <= u < |s.tasks| && u != i ::
               r.tasks[u].countedUp == s.tasks[u].countedUp
    requires forall u | 0 <= u < |s.tasks| && u != i ::
               r.tasks[u].countedPending == s.tasks[u].countedPending
    requires r.tasks[i].countedLive == s.tasks[i].h.Live()
    requires r.tasks[i].countedUp == s.tasks[i].h.Up()
    requires r.tasks[i].countedPending == !s.tasks[i].Settled()
    requires forall u | 0 <= u < |s.tasks| :: r.tasks[u].liveUsers == s.tasks[u].liveUsers
               + Delta(s.tasks[i].countedLive, r.tasks[i].countedLive, multiset(g.deps[i])[u])
    requires forall u | 0 <= u < |s.tasks| :: r.tasks[u].stoppedDeps == s.tasks[u].stoppedDeps
               - Delta(s.tasks[i].countedUp, r.tasks[i].countedUp, multiset(g.users[i])[u])
    requires r.pending ==
             s.pending + Delta(s.tasks[i].countedPending, r.tasks[i].countedPending, 1)
    ensures r == Model.Sync(g, s, i)
  {
    var q := Model.Sync(g, s, i);
    forall u: nat | u < |s.tasks| ensures r.tasks[u] == q.tasks[u] {
    }
  }
}
