/** The dependency graph between tasks.

    Tasks are numbered by their position in `initd_state::tasks`. Both directions of every
    edge are stored, as in `task::dependencies` and `task::dependants`; a pair may be joined
    by several edges, and self edges and cycles are allowed, because nothing rejects them. */
module TaskGraph {

  datatype Graph = Graph(deps: seq<seq<nat>>, users: seq<seq<nat>>)

  ghost predicate WellFormed(g: Graph) {
    && |g.deps| == |g.users|
    && (forall t, k | 0 <= t < |g.deps| && 0 <= k < |g.deps[t]| :: g.deps[t][k] < |g.deps|)
    && (forall t, k | 0 <= t < |g.users| && 0 <= k < |g.users[t]| :: g.users[t][k] < |g.deps|)
    && (forall t, d | 0 <= t < |g.deps| && 0 <= d < |g.deps| ::
          multiset(g.deps[t])[d] == multiset(g.users[d])[t])
  }

  /** `u` depends on `d` exactly when `d` lists `u` among its dependants. */
  lemma EdgeBothWays(g: Graph, u: nat, d: nat)
    requires WellFormed(g) && u < |g.deps| && d < |g.deps|
    ensures d in g.deps[u] <==> u in g.users[d]
  {
    assert d in g.deps[u] <==> multiset(g.deps[u])[d] > 0;
    assert u in g.users[d] <==> multiset(g.users[d])[u] > 0;
  }

  // ---- Paths, cycles, walks ------------------------------------------------------------

  /** Element `k` of the sequence depends on the next one. */
  ghost predicate StepAt(g: Graph, p: seq<nat>, k: nat)
    requires k + 1 < |p|
  {
    p[k] < |g.deps| && p[k + 1] in g.deps[p[k]]
  }

  /** A sequence of tasks in which each one depends on the next. */
  ghost predicate Path(g: Graph, p: seq<nat>) {
    && |p| > 0
    && (forall k | 0 <= k < |p| :: p[k] < |g.deps|)
    && (forall k | 0 <= k < |p| - 1 :: StepAt(g, p, k))
  }

  lemma PathSlice(g: Graph, p: seq<nat>, i: nat, j: nat)
    requires Path(g, p) && i < j <= |p|
    ensures Path(g, p[i..j])
  {
    forall k | 0 <= k < |p[i..j]| - 1 ensures StepAt(g, p[i..j], k) {
      assert StepAt(g, p, i + k);
    }
  }

  lemma PathTail(g: Graph, p: seq<nat>)
    requires Path(g, p) && |p| > 1
    ensures Path(g, p[1..])
  {
    PathSlice(g, p, 1, |p|);
    assert p[1..|p|] == p[1..];
  }

  /** Two paths, the second going on where the first ends. */
  lemma PathJoin(g: Graph, p: seq<nat>, q: seq<nat>)
    requires Path(g, p) && Path(g, q) && p[|p| - 1] == q[0]
    ensures Path(g, p + q[1..]) && (p + q[1..])[0] == p[0]
    ensures (p + q[1..])[|p| + |q| - 2] == q[|q| - 1]
  {
    var r := p + q[1..];
    forall k | 0 <= k < |r| - 1 ensures StepAt(g, r, k) {
      if k < |p| - 1 {
        assert StepAt(g, p, k);
      } else {
        assert StepAt(g, q, k - (|p| - 1));
      }
    }
  }

  lemma PathPair(g: Graph, a: nat, b: nat)
    requires a < |g.deps| && b < |g.deps| && b in g.deps[a]
    ensures Path(g, [a, b])
  {
    assert StepAt(g, [a, b], 0);
  }

  ghost predicate PathFromTo(g: Graph, p: seq<nat>, a: nat, b: nat) {
    Path(g, p) && p[0] == a && p[|p| - 1] == b
  }

  /** `b` can be reached from `a` along zero or more dependency edges. */
  ghost predicate Reach(g: Graph, a: nat, b: nat) {
    exists p :: PathFromTo(g, p, a, b)
  }

  ghost predicate ClosedPath(g: Graph, p: seq<nat>, c: nat) {
    PathFromTo(g, p, c, c) && |p| >= 2
  }

  /** `c` lies on a dependency cycle (a self edge is one). */
  ghost predicate OnCycle(g: Graph, c: nat) {
    exists p :: ClosedPath(g, p, c)
  }

  /** `t` is on a dependency cycle or transitively depends on one. */
  ghost predicate ReachesCycle(g: Graph, t: nat) {
    exists c :: Reach(g, t, c) && OnCycle(g, c)
  }

  ghost predicate Acyclic(g: Graph) {
    forall c | 0 <= c < |g.deps| :: !OnCycle(g, c)
  }

  /** There is a walk of `n` dependency edges starting at `t`. */
  ghost predicate HasWalk(g: Graph, t: nat, n: nat)
    decreases n
  {
    t < |g.deps| && (n == 0 || exists d :: d in g.deps[t] && HasWalk(g, d, n - 1))
  }

  lemma {:induction false} ShorterWalk(g: Graph, t: nat, m: nat, n: nat)
    requires m <= n && HasWalk(g, t, n)
    ensures HasWalk(g, t, m)
    decreases m
  {
    if m > 0 {
      var d :| d in g.deps[t] && HasWalk(g, d, n - 1);
      ShorterWalk(g, d, m - 1, n - 1);
    }
  }

  lemma LongerWalk(g: Graph, t: nat, d: nat, n: nat)
    requires t < |g.deps| && d in g.deps[t] && HasWalk(g, d, n)
    ensures HasWalk(g, t, n + 1)
  {
  }

  lemma NoWalkBelow(g: Graph, t: nat, d: nat, n: nat)
    requires t < |g.deps| && d in g.deps[t] && !HasWalk(g, t, n)
    ensures n > 0 && !HasWalk(g, d, n - 1)
  {
  }

  /** A walk of `n` edges spells out a path of `n + 1` tasks. */
  lemma {:induction false} WalkPath(g: Graph, t: nat, n: nat) returns (p: seq<nat>)
    requires HasWalk(g, t, n)
    ensures Path(g, p) && p[0] == t && |p| == n + 1
    decreases n
  {
    if n == 0 {
      p := [t];
    } else {
      var d :| d in g.deps[t] && HasWalk(g, d, n - 1);
      var q := WalkPath(g, d, n - 1);
      PathPair(g, t, d);
      PathJoin(g, [t, d], q);
      p := [t, d] + q[1..];
    }
  }

  ghost predicate Distinct(p: seq<nat>) {
    forall i, j | 0 <= i < j < |p| :: p[i] != p[j]
  }

  function UpTo(n: nat): (s: set<nat>)
    ensures forall x: nat :: x in s <==> x < n
    ensures |s| == n
  {
    if n == 0 then {} else UpTo(n - 1) + {n - 1}
  }

  lemma SubsetSize<T>(a: set<T>, b: set<T>)
    requires a <= b
    ensures |a| <= |b|
  {
    assert b == a + (b - a);
  }

  function Elements(p: seq<nat>): (s: set<nat>) {
    set x: nat | x in p
  }

  lemma {:induction false} DistinctSize(p: seq<nat>)
    requires Distinct(p)
    ensures |Elements(p)| == |p|
  {
    if p == [] {
      assert Elements(p) == {};
    } else {
      var q, x := p[..|p| - 1], p[|p| - 1];
      DistinctSize(q);
      assert x !in q;
      assert p == q + [x];
      assert Elements(p) == Elements(q) + {x};
    }
  }

  /** More than `n` numbers below `n` repeat one of them. */
  lemma Pigeonhole(p: seq<nat>, n: nat)
    requires |p| > n && forall k | 0 <= k < |p| :: p[k] < n
    ensures !Distinct(p)
  {
    if Distinct(p) {
      DistinctSize(p);
      SubsetSize(Elements(p), UpTo(n));
    }
  }

  /** From a task on a cycle there are walks of every length. */
  lemma {:induction false} CycleWalks(g: Graph, p: seq<nat>, c: nat, k: nat, n: nat)
    requires ClosedPath(g, p, c) && k < |p|
    ensures HasWalk(g, p[k], n)
    decreases n
  {
    if n > 0 {
      var next := if k + 1 < |p| then k + 1 else 1;
      CycleWalks(g, p, c, next, n - 1);
      assert StepAt(g, p, if k + 1 < |p| then k else 0);
    }
  }

  lemma {:induction false} PathWalks(g: Graph, p: seq<nat>, n: nat)
    requires Path(g, p) && HasWalk(g, p[|p| - 1], n)
    ensures HasWalk(g, p[0], n + |p| - 1)
    decreases |p|
  {
    if |p| > 1 {
      PathTail(g, p);
      PathWalks(g, p[1..], n);
      assert StepAt(g, p, 0);
    }
  }

  /** Reaching a cycle is the same as having a walk of as many edges as there are tasks;
      so the cycle condition can be decided by bounded search. */
  lemma CycleIffLongWalk(g: Graph, t: nat)
    requires t < |g.deps|
    ensures ReachesCycle(g, t) <==> HasWalk(g, t, |g.deps|)
  {
    if ReachesCycle(g, t) {
      CycleGivesWalk(g, t, |g.deps|);
    }
    if HasWalk(g, t, |g.deps|) {
      LongWalkRepeats(g, t);
    }
  }

  lemma CycleGivesWalk(g: Graph, t: nat, n: nat)
    requires ReachesCycle(g, t)
    ensures HasWalk(g, t, n)
  {
    var c :| Reach(g, t, c) && OnCycle(g, c);
    var p :| PathFromTo(g, p, t, c);
    var q :| ClosedPath(g, q, c);
    CycleWalks(g, q, c, 0, n);
    PathWalks(g, p, n);
    ShorterWalk(g, t, n, n + |p| - 1);
  }

  lemma LongWalkRepeats(g: Graph, t: nat)
    requires HasWalk(g, t, |g.deps|)
    ensures ReachesCycle(g, t)
  {
    var p := WalkPath(g, t, |g.deps|);
    Pigeonhole(p, |g.deps|);
    var i, j :| 0 <= i < j < |p| && p[i] == p[j];
    PathSlice(g, p, 0, i + 1);
    PathSlice(g, p, i, j + 1);
    assert PathFromTo(g, p[0..i + 1], t, p[i]);
    assert ClosedPath(g, p[i..j + 1], p[i]);
    assert Reach(g, t, p[i]) && OnCycle(g, p[i]);
  }

  lemma AcyclicReachesNone(g: Graph, t: nat)
    requires Acyclic(g) && t < |g.deps|
    ensures !ReachesCycle(g, t)
  {
    forall c: nat | Reach(g, t, c) ensures !OnCycle(g, c) {
      var p :| PathFromTo(g, p, t, c);
    }
  }

  // ---- Reachability --------------------------------------------------------------------

  lemma ReachSelf(g: Graph, a: nat)
    requires a < |g.deps|
    ensures Reach(g, a, a)
  {
    assert PathFromTo(g, [a], a, a);
  }

  lemma ReachStep(g: Graph, a: nat, b: nat, c: nat)
    requires WellFormed(g) && Reach(g, a, b) && b < |g.deps| && c in g.deps[b]
    ensures Reach(g, a, c)
  {
    var p :| PathFromTo(g, p, a, b);
    PathPair(g, b, c);
    PathJoin(g, p, [b, c]);
    assert PathFromTo(g, p + [b, c][1..], a, c);
  }

  /** A set of tasks that contains the dependencies of each of its members. */
  ghost predicate ClosedSet(g: Graph, m: set<nat>) {
    forall t, d | t in m && t < |g.deps| && d in g.deps[t] :: d in m
  }

  lemma {:induction false} ClosedContainsPath(g: Graph, m: set<nat>, p: seq<nat>)
    requires ClosedSet(g, m) && Path(g, p) && p[0] in m
    ensures p[|p| - 1] in m
    decreases |p|
  {
    if |p| > 1 {
      assert StepAt(g, p, 0);
      PathTail(g, p);
      ClosedContainsPath(g, m, p[1..]);
    }
  }

  /** The tasks reachable from one of the requisites. */
  ghost function Closure(g: Graph, reqs: seq<nat>): (m: set<nat>)
    ensures forall t: nat :: t in m <==> t < |g.deps| && exists r :: r in reqs && Reach(g, r, t)
  {
    var all := UpTo(|g.deps|);
    set t | t in all && exists r :: r in reqs && Reach(g, r, t)
  }

  /** The closure is closed under dependencies and contains the requisites. */
  lemma ClosureIsClosed(g: Graph, reqs: seq<nat>)
    requires WellFormed(g) && forall r | r in reqs :: r < |g.deps|
    ensures ClosedSet(g, Closure(g, reqs))
    ensures forall r | r in reqs :: r in Closure(g, reqs)
  {
    var cl := Closure(g, reqs);
    forall t, d | t in cl && d in g.deps[t] ensures d in cl {
      var r :| r in reqs && Reach(g, r, t);
      ReachStep(g, r, t, d);
      assert d < |g.deps|;
    }
    forall r | r in reqs ensures r in cl {
      ReachSelf(g, r);
    }
  }

  /** It is the least such set. */
  lemma ClosureIsLeast(g: Graph, reqs: seq<nat>, m: set<nat>)
    requires ClosedSet(g, m) && forall r | r in reqs :: r in m
    ensures Closure(g, reqs) <= m
  {
    forall t | t in Closure(g, reqs) ensures t in m {
      var r :| r in reqs && Reach(g, r, t);
      var p :| PathFromTo(g, p, r, t);
      ClosedContainsPath(g, m, p);
    }
  }

  // ---- Counting edges with multiplicity --------------------------------------------------

  function Places(ids: seq<nat>, s: set<nat>): set<nat> {
    set k: nat | k < |ids| && ids[k] in s
  }

  /** How many positions of `ids` hold a member of `s`. */
  function Count(ids: seq<nat>, s: set<nat>): nat {
    |Places(ids, s)|
  }

  lemma CountZero(ids: seq<nat>, s: set<nat>)
    ensures Count(ids, s) == 0 <==> forall k | 0 <= k < |ids| :: ids[k] !in s
  {
    if forall k | 0 <= k < |ids| :: ids[k] !in s {
      assert Places(ids, s) == {};
    }
    if Count(ids, s) == 0 {
      forall k | 0 <= k < |ids| ensures ids[k] !in s {
        assert k !in Places(ids, s);
      }
    }
  }

  lemma {:induction false} CountOne(ids: seq<nat>, x: nat)
    ensures Count(ids, {x}) == multiset(ids)[x]
    decreases |ids|
  {
    if ids == [] {
      assert Places(ids, {x}) == {};
    } else {
      var init, last := ids[..|ids| - 1], |ids| - 1;
      CountOne(init, x);
      assert ids == init + [ids[last]];
      assert Places(ids, {x}) == Places(init, {x}) + if ids[last] == x then {last} else {};
    }
  }

  /** Adding one task to the set raises the count by the number of edges to it. */
  lemma CountAdd(ids: seq<nat>, s: set<nat>, x: nat)
    requires x !in s
    ensures Count(ids, s + {x}) == Count(ids, s) + multiset(ids)[x]
  {
    assert Places(ids, s + {x}) == Places(ids, s) + Places(ids, {x});
    assert Places(ids, s) !! Places(ids, {x});
    CountOne(ids, x);
  }

  lemma CountAll(ids: seq<nat>, s: set<nat>)
    requires forall k | 0 <= k < |ids| :: ids[k] in s
    ensures Count(ids, s) == |ids|
  {
    assert Places(ids, s) == UpTo(|ids|);
  }
}
