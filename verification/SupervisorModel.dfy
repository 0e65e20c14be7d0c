/** The task supervisor as a state machine on values.

    The classes in `Supervisor` are proved to perform exactly these transitions; the
    theorems about whole runs are proved here, about the transitions.

    A run of the supervisor is a sequence of atomic events. Between two events no callback is
    active: `fork` and `function_queue::push` only schedule later events, so a completion
    callback or a run-level switch always runs to its end first. */
module SupervisorModel {
  import opened Wrappers
  import opened TaskGraph

  // ---- Handles ---------------------------------------------------------------------------

  datatype Kind = StartStop | Synchronous

  datatype Operation = Start | Stop

  /** A handle. `wanted` and `op` are `async_start_stop_task`'s `should_work` and
      `current_operation`; `queued` and `signals` are the length of the function queue and
      the eventfd counter of `sync_task_adaptor`. */
  datatype Handle = Handle(
    kind: Kind,
    running: bool,
    wanted: bool,
    op: Option<Operation>,
    queued: nat,
    signals: nat)
  {
    predicate InTransition() { op.Some? }

    /** Counts as up for the dependants. */
    predicate Up() { running && !InTransition() }

    /** Counts as live for the dependencies. */
    predicate Live() { running || InTransition() }

    function EnqueueJob(): Handle {
      if op.Some? || running == wanted then this
      else this.(op := Some(if wanted then Start else Stop))
    }

    function SetShouldWork(w: bool): Handle {
      match kind
      case StartStop => this.(wanted := w).EnqueueJob()
      case Synchronous => this.(running := w, queued := queued + 1, signals := signals + 1)
    }

    /** What the completion callback does to the handle before it reports the change. */
    function Complete(): Handle
      requires op.Some?
    {
      this.(running := op.value == Start, op := None).EnqueueJob()
    }

    /** The eventfd is read, which resets its counter, and one function is popped. */
    function Wake(): Handle
      requires queued > 0
    {
      this.(signals := 0, queued := queued - 1)
    }

    predicate Ok() {
      match kind
      case StartStop =>
        && queued == 0 && signals == 0
        && (op == Some(Start) ==> !running)
        && (op == Some(Stop) ==> running)
        && (op == None ==> wanted == running)
      case Synchronous =>
        op == None && signals <= queued
    }
  }

  function NewHandle(kind: Kind): (h: Handle)
    ensures h.Ok() && !h.Live()
  {
    Handle(kind, false, false, None, 0, 0)
  }

  // ---- Tasks -----------------------------------------------------------------------------

  datatype Task = Task(
    h: Handle,
    shouldWork: bool,
    stoppedDeps: int,
    liveUsers: int,
    countedLive: bool,
    countedUp: bool,
    countedPending: bool)
  {
    predicate Settled() { !h.InTransition() && h.running == shouldWork }

    predicate Exact() {
      && countedLive == h.Live()
      && countedUp == h.Up()
      && countedPending == !Settled()
    }

    /** `enqueue_this` would ask a handle at rest to change. */
    predicate Startable() { !h.Live() && shouldWork && stoppedDeps == 0 }
    predicate Stoppable() { h.Up() && !shouldWork && liveUsers == 0 }
    predicate Idle() { !Startable() && !Stoppable() }
  }

  datatype State = State(tasks: seq<Task>, pending: int)

  /** The change of a counter that `m` edges contribute to. */
  function Delta(before: bool, after: bool, m: int): int {
    if before == after then 0 else if after then m else -m
  }

  // ---- Steps -----------------------------------------------------------------------------

  /** The flags of a task after its `sync`. */
  function Flagged(x: Task): Task {
    x.(countedLive := x.h.Live(), countedUp := x.h.Up(), countedPending := !x.Settled())
  }

  /** Task `u`, which is `z`, after the `sync` of task `t`, which was `x`. */
  function Recounted(g: Graph, t: nat, x: Task, u: nat, z: Task): Task
    requires t < |g.deps| && t < |g.users|
  {
    z.(
      liveUsers := z.liveUsers + Delta(x.countedLive, x.h.Live(), multiset(g.deps[t])[u]),
      stoppedDeps := z.stoppedDeps - Delta(x.countedUp, x.h.Up(), multiset(g.users[t])[u]))
  }

  /** `task::sync`. */
  function Sync(g: Graph, s: State, t: nat): (s': State)
    requires |g.deps| == |g.users| == |s.tasks| && t < |s.tasks|
    ensures |s'.tasks| == |s.tasks|
  {
    var x := s.tasks[t];
    State(
      seq(|s.tasks|, u requires 0 <= u < |s.tasks| =>
        Recounted(g, t, x, u, if u == t then Flagged(x) else s.tasks[u])),
      s.pending + Delta(x.countedPending, !x.Settled(), 1))
  }

  /** `task::enqueue_this`. */
  function EnqueueTask(x: Task): Task {
    if !x.h.Up() && x.shouldWork && x.stoppedDeps == 0 then
      x.(h := x.h.SetShouldWork(true))
    else if x.h.Live() && !x.shouldWork && x.liveUsers == 0 then
      x.(h := x.h.SetShouldWork(false))
    else x
  }

  function Enqueue(s: State, t: nat): State
    requires t < |s.tasks|
  {
    s.(tasks := s.tasks[t := EnqueueTask(s.tasks[t])])
  }

  ghost predicate Ids(ids: seq<nat>, n: nat) {
    forall k | 0 <= k < |ids| :: ids[k] < n
  }

  /** `enqueue_this` on the first `n` tasks of a list, in order. */
  function EnqueueList(s: State, ids: seq<nat>, n: nat): (s': State)
    requires n <= |ids| && Ids(ids, |s.tasks|)
    ensures |s'.tasks| == |s.tasks|
    decreases n
  {
    if n == 0 then s else Enqueue(EnqueueList(s, ids, n - 1), ids[n - 1])
  }

  /** `sync` on the first `n` tasks, in order. */
  function SyncFirst(g: Graph, s: State, n: nat): (s': State)
    requires |g.deps| == |g.users| == |s.tasks| && n <= |s.tasks|
    ensures |s'.tasks| == |s.tasks|
  {
    if n == 0 then s else Sync(g, SyncFirst(g, s, n - 1), n - 1)
  }

  /** `enqueue_this` on the first `n` tasks, in order. */
  function EnqueueFirst(s: State, n: nat): (s': State)
    requires n <= |s.tasks|
    ensures |s'.tasks| == |s.tasks|
  {
    if n == 0 then s else Enqueue(EnqueueFirst(s, n - 1), n - 1)
  }

  /** The callback that `initd_state` gives to handle `t`. */
  function StateChanged(g: Graph, s: State, t: nat): (s': State)
    requires WellFormedFor(g, s) && t < |s.tasks|
    ensures |s'.tasks| == |s.tasks|
  {
    var ids := if s.tasks[t].h.running then g.users[t] else g.deps[t];
    EnqueueList(Sync(g, s, t), ids, |ids|)
  }

  ghost predicate WellFormedFor(g: Graph, s: State) {
    WellFormed(g) && |s.tasks| == |g.deps| == |g.users|
  }

  function Want(s: State, m: set<nat>): (s': State)
    ensures |s'.tasks| == |s.tasks|
  {
    s.(tasks := seq(|s.tasks|, t requires 0 <= t < |s.tasks| =>
      s.tasks[t].(shouldWork := t in m)))
  }

  /** Both run-level switches, once the tasks that should work are known. */
  function Switch(g: Graph, s: State, m: set<nat>): (s': State)
    requires WellFormedFor(g, s)
    ensures |s'.tasks| == |s.tasks|
  {
    EnqueueFirst(SyncFirst(g, Want(s, m), |s.tasks|), |s.tasks|)
  }

  /** The child process of the operation in flight on task `t` exits. */
  function ChildExit(g: Graph, s: State, t: nat): (s': State)
    requires WellFormedFor(g, s) && t < |s.tasks| && s.tasks[t].h.op.Some?
    ensures |s'.tasks| == |s.tasks|
  {
    StateChanged(g, s.(tasks := s.tasks[t := s.tasks[t].(h := s.tasks[t].h.Complete())]), t)
  }

  /** The eventfd of the function queue of task `t` becomes readable. */
  function QueueWake(g: Graph, s: State, t: nat): (s': State)
    requires WellFormedFor(g, s) && t < |s.tasks| && s.tasks[t].h.queued > 0
    ensures |s'.tasks| == |s.tasks|
  {
    StateChanged(g, s.(tasks := s.tasks[t := s.tasks[t].(h := s.tasks[t].h.Wake())]), t)
  }

  // ---- The initial state -----------------------------------------------------------------

  function NewTask(kind: Kind, deps: nat): Task {
    Task(NewHandle(kind), false, deps, 0, false, false, false)
  }

  function Initial(g: Graph, kinds: seq<Kind>): (s: State)
    requires |kinds| == |g.deps|
    ensures |s.tasks| == |g.deps|
  {
    State(seq(|kinds|, t requires 0 <= t < |kinds| => NewTask(kinds[t], |g.deps[t]|)), 0)
  }
}
