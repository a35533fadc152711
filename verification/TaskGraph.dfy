/** The task dependency graph and its layered topological sort (src/agent/engine.rs:27-149). */
module TaskGraphs {
  import opened Keys
  import opened Lists

  /** Task identifiers are strings, ordered by their bytes. */
  type TaskId = Key

  /** Each task's direct dependencies. */
  type Graph = map<TaskId, set<TaskId>>

  // ----- What a graph means -----

  /** Every dependency is itself a task of the graph. */
  ghost predicate Closed(g: Graph) {
    forall t, d | t in g && d in g[t] :: d in g
  }

  /** A chain of tasks, each depending on the next. */
  ghost predicate Path(g: Graph, p: seq<TaskId>) {
    && p != []
    && (forall i | 0 <= i < |p| :: p[i] in g)
    && (forall i | 0 <= i < |p| - 1 :: p[i + 1] in g[p[i]])
  }

  ghost predicate Cycle(g: Graph, p: seq<TaskId>) {
    |p| >= 2 && Path(g, p) && p[0] == p[|p| - 1]
  }

  ghost predicate Cyclic(g: Graph) {
    exists p :: Cycle(g, p)
  }

  /** The tasks of the first `n` tiers: those whose dependencies all lie in earlier tiers. */
  ghost function Ready(g: Graph, n: nat): set<TaskId> {
    if n == 0 then {} else set t | t in g && g[t] <= Ready(g, n - 1)
  }

  ghost function Tier(g: Graph, n: nat): set<TaskId> {
    Ready(g, n + 1) - Ready(g, n)
  }

  lemma {:induction false} ReadyGrows(g: Graph, n: nat)
    ensures Ready(g, n) <= Ready(g, n + 1) <= g.Keys
  {
    if n > 0 {
      ReadyGrows(g, n - 1);
    }
  }

  lemma {:induction false} ReadyMonotone(g: Graph, m: nat, n: nat)
    requires m <= n
    ensures Ready(g, m) <= Ready(g, n)
    decreases n - m
  {
    if m < n {
      ReadyGrows(g, m);
      ReadyMonotone(g, m + 1, n);
    }
  }

  /** A chain that starts in the first `n` tiers has at most `n` tasks. */
  lemma {:induction false} ChainFits(g: Graph, p: seq<TaskId>, n: nat)
    requires Path(g, p) && p[0] in Ready(g, n)
    ensures |p| <= n
    decreases n
  {
    if |p| > 1 {
      assert p[0 + 1] in g[p[0]];
      assert Path(g, p[1..]) by {
        forall i | 0 <= i < |p[1..]| - 1 ensures p[1..][i + 1] in g[p[1..][i]] {
          assert p[i + 1 + 1] in g[p[i + 1]];
        }
      }
      ChainFits(g, p[1..], n - 1);
    }
  }

  /** A task of tier `n` heads a chain of `n + 1` tasks. */
  lemma {:induction false} ChainExists(g: Graph, t: TaskId, n: nat) returns (p: seq<TaskId>)
    requires t in Tier(g, n)
    ensures Path(g, p) && p[0] == t && |p| == n + 1
    decreases n
  {
    if n == 0 {
      p := [t];
    } else {
      assert !(g[t] <= Ready(g, n - 1));
      var d :| d in g[t] && d !in Ready(g, n - 1);
      assert d in Ready(g, n);
      var rest := ChainExists(g, d, n - 1);
      p := [t] + rest;
      forall i | 0 <= i < |p| - 1 ensures p[i + 1] in g[p[i]] {
        if i > 0 {
          assert rest[i - 1 + 1] in g[rest[i - 1]];
        }
      }
    }
  }

  /** The tier of a task is the length of its longest chain of dependencies. */
  lemma TierIsLongestChain(g: Graph, t: TaskId, n: nat)
    requires t in Tier(g, n)
    ensures exists p :: Path(g, p) && p[0] == t && |p| == n + 1
    ensures forall p | Path(g, p) && p[0] == t :: |p| <= n + 1
  {
    var p := ChainExists(g, t, n);
    forall q | Path(g, q) && q[0] == t ensures |q| <= n + 1 {
      ChainFits(g, q, n + 1);
    }
  }

  // ----- Cycles -----

  lemma {:induction false} RepeatCycle(g: Graph, p: seq<TaskId>, n: nat) returns (q: seq<TaskId>)
    requires Cycle(g, p)
    ensures Path(g, q) && q[0] == p[0] && q[|q| - 1] == p[0] && |q| > n
  {
    if n == 0 {
      q := p;
    } else {
      var r := RepeatCycle(g, p, n - 1);
      q := r + p[1..];
      forall i | 0 <= i < |q| - 1 ensures q[i + 1] in g[q[i]] {
        if i < |r| - 1 {
          assert r[i + 1] in g[r[i]];
        } else {
          var k := i - (|r| - 1);
          assert q[i] == p[k] && q[i + 1] == p[k + 1];
          assert p[k + 1] in g[p[k]];
        }
      }
    }
  }

  /** When the tiers take in every task there is no cycle. */
  lemma TieredIsAcyclic(g: Graph, n: nat)
    requires Ready(g, n) == g.Keys
    ensures !Cyclic(g)
  {
    forall p | Cycle(g, p) ensures false {
      var q := RepeatCycle(g, p, n);
      ChainFits(g, q, n);
    }
  }

  ghost predicate DependsWithin(g: Graph, stuck: set<TaskId>, t: TaskId)
    requires t in g
  {
    exists d :: d in g[t] && d in stuck
  }

  /** Outside a stable set of tiers one can follow dependencies for ever. */
  lemma {:induction false} StuckWalk(g: Graph, stuck: set<TaskId>, t: TaskId, n: nat) returns (p: seq<TaskId>)
    requires t in stuck && stuck <= g.Keys
    requires forall s {:trigger DependsWithin(g, stuck, s)} | s in stuck :: DependsWithin(g, stuck, s)
    ensures Path(g, p) && p[0] == t && |p| == n + 1 && forall i | 0 <= i < |p| :: p[i] in stuck
    decreases n
  {
    if n == 0 {
      p := [t];
    } else {
      assert DependsWithin(g, stuck, t);
      var d :| d in g[t] && d in stuck;
      var rest := StuckWalk(g, stuck, d, n - 1);
      p := [t] + rest;
      forall i | 0 <= i < |p| - 1 ensures p[i + 1] in g[p[i]] {
        if i > 0 {
          assert rest[i - 1 + 1] in g[rest[i - 1]];
        }
      }
    }
  }

  lemma {:induction false} Pigeonhole(p: seq<TaskId>, within: set<TaskId>) returns (i: nat, j: nat)
    requires |p| > |within| && forall k | 0 <= k < |p| :: p[k] in within
    ensures i < j < |p| && p[i] == p[j]
    decreases |p|
  {
    if k :| 1 <= k < |p| && p[k] == p[0] {
      i, j := 0, k;
    } else {
      var a, b := Pigeonhole(p[1..], within - {p[0]});
      i, j := a + 1, b + 1;
    }
  }

  lemma LongWalkIsCyclic(g: Graph, p: seq<TaskId>, within: set<TaskId>)
    requires Path(g, p) && |p| > |within| && forall k | 0 <= k < |p| :: p[k] in within
    ensures Cyclic(g)
  {
    var i, j := Pigeonhole(p, within);
    var q := p[i..j + 1];
    forall k | 0 <= k < |q| - 1 ensures q[k + 1] in g[q[k]] {
      assert p[i + k + 1] in g[p[i + k]];
    }
    assert Cycle(g, q);
  }

  /** When the tiers stop short of some task there is a cycle. */
  lemma StuckIsCyclic(g: Graph, n: nat)
    requires Closed(g) && Ready(g, n + 1) == Ready(g, n) && Ready(g, n) != g.Keys
    ensures Cyclic(g)
  {
    ReadyGrows(g, n);
    var stuck := g.Keys - Ready(g, n);
    assert stuck != {};
    forall s | s in stuck ensures DependsWithin(g, stuck, s) {
      var d :| d in g[s] && d !in Ready(g, n);
      assert d in g;
    }
    var t :| t in stuck;
    var p := StuckWalk(g, stuck, t, |stuck|);
    LongWalkIsCyclic(g, p, stuck);
  }

  // ----- Sorting a tier -----

  ghost predicate SortedIds(ids: seq<TaskId>) {
    forall i, j | 0 <= i < j < |ids| :: Lt(ids[i], ids[j])
  }

  /** The list holds exactly the members of the set, in ascending order; order leaves only one such list. */
  ghost predicate ListsInOrder(ids: seq<TaskId>, s: set<TaskId>) {
    SortedIds(ids) && forall t :: t in ids <==> t in s
  }

  lemma ListsInOrderUnique(xs: seq<TaskId>, ys: seq<TaskId>, s: set<TaskId>)
    requires ListsInOrder(xs, s) && ListsInOrder(ys, s)
    ensures xs == ys
  {
    LinearOrder();
    MembersDetermine(Lt, xs, ys);
  }

  function InsertId(ids: seq<TaskId>, t: TaskId): seq<TaskId> {
    if ids == [] || Lt(ids[|ids| - 1], t) then ids + [t]
    else InsertId(ids[..|ids| - 1], t) + [ids[|ids| - 1]]
  }

  function SortIds(ids: seq<TaskId>): seq<TaskId> {
    if ids == [] then [] else InsertId(SortIds(ids[..|ids| - 1]), ids[|ids| - 1])
  }

  lemma {:induction false} InsertIdFacts(ids: seq<TaskId>, t: TaskId)
    requires SortedIds(ids) && t !in ids
    ensures SortedIds(InsertId(ids, t))
    ensures forall x :: x in InsertId(ids, t) <==> x in ids || x == t
    ensures |InsertId(ids, t)| == |ids| + 1
  {
    if ids != [] {
      LinearOrder();
      var init, last := ids[..|ids| - 1], ids[|ids| - 1];
      assert ids == init + [last];
      InsertIdFacts(init, t);
      if Lt(last, t) {
        forall x | x in ids ensures Lt(x, t) {
          var i :| 0 <= i < |ids| && ids[i] == x;
          assert i == |ids| - 1 || Lt(ids[i], ids[|ids| - 1]);
        }
      } else {
        assert Lt(t, last);
        forall x | x in InsertId(init, t) ensures Lt(x, last) {
          if x in init {
            var i :| 0 <= i < |init| && init[i] == x;
            assert Lt(ids[i], ids[|ids| - 1]);
          }
        }
      }
    }
  }

  lemma {:induction false} SortIdsFacts(ids: seq<TaskId>)
    requires NoRepeats(ids)
    ensures SortedIds(SortIds(ids)) && |SortIds(ids)| == |ids|
    ensures forall x :: x in SortIds(ids) <==> x in ids
  {
    if ids != [] {
      var init, last := ids[..|ids| - 1], ids[|ids| - 1];
      assert ids == init + [last];
      SortIdsFacts(init);
      InsertIdFacts(SortIds(init), last);
    }
  }

  // ----- The graph as the engine keeps it -----

  /** In-degrees once the tasks of `gone` have been released. */
  ghost predicate Degrees(g: Graph, degrees: map<TaskId, nat>, gone: set<TaskId>) {
    degrees.Keys == g.Keys && forall t | t in g :: degrees[t] == |g[t] - gone|
  }

  /** The tasks that become free when `gone` grows to `now`. */
  ghost predicate Freed(g: Graph, ids: seq<TaskId>, gone: set<TaskId>, now: set<TaskId>) {
    NoRepeats(ids) && forall t :: t in ids <==> t in g && g[t] <= now && !(g[t] <= gone)
  }

  /** The two maps are inverse to each other over the same tasks. */
  ghost predicate Inverse(dependencies: Graph, dependents: Graph) {
    && dependencies.Keys == dependents.Keys
    && (forall t, d | t in dependencies && d in dependencies[t] :: d in dependents && t in dependents[d])
    && (forall t, d | d in dependents && t in dependents[d] :: t in dependencies && d in dependencies[t])
  }

  lemma InverseClosed(dependencies: Graph, dependents: Graph)
    requires Inverse(dependencies, dependents)
    ensures Closed(dependencies)
  {
  }

  lemma InverseEdge(dependencies: Graph, dependents: Graph, t: TaskId, d: TaskId)
    requires Inverse(dependencies, dependents) && t in dependencies && d in dependents
    ensures Inverse(dependencies[t := dependencies[t] + {d}], dependents[d := dependents[d] + {t}])
  {
  }

  class TaskGraph {
    var dependencies: Graph
    var dependents: Graph

    ghost predicate Valid()
      reads this
    {
      Inverse(dependencies, dependents)
    }

    constructor ()
      ensures Valid() && dependencies == map[]
    {
      dependencies, dependents := map[], map[];
    }

    method AddTask(task: TaskId)
      requires Valid()
      modifies this
      ensures Valid()
      ensures dependencies == if task in old(dependencies) then old(dependencies) else old(dependencies)[task := {}]
    {
      if task !in dependencies {
        dependencies := dependencies[task := {}];
      }
      if task !in dependents {
        dependents := dependents[task := {}];
      }
    }

    /** Records the edge, then rejects it if the graph has a cycle; a rejected edge stays in the maps. */
    method AddDependency(task: TaskId, dependsOn: TaskId) returns (ok: bool)
      requires Valid()
      modifies this
      ensures Valid()
      ensures task == dependsOn ==> !ok && dependencies == old(dependencies)
      ensures task != dependsOn ==> dependencies == WithEdge(old(dependencies), task, dependsOn)
      ensures task != dependsOn ==> (ok <==> !Cyclic(dependencies))
      ensures task != dependsOn ==>
                && dependencies.Keys == old(dependencies).Keys + {task, dependsOn}
                && dependencies[task]
                   == (if task in old(dependencies) then old(dependencies)[task] else {}) + {dependsOn}
                && (forall t | t in dependencies && t != task ::
                      dependencies[t] == if t in old(dependencies) then old(dependencies)[t] else {})
    {
      if task == dependsOn {
        return false;
      }
      AddEdge(task, dependsOn);
      hide Valid, Cyclic, IsTiering;
      var tiers := TopologicalTiers();
      ok := tiers.Some?;
    }

    method AddEdge(task: TaskId, dependsOn: TaskId)
      requires Valid() && task != dependsOn
      modifies this
      ensures Valid() && dependencies == WithEdge(old(dependencies), task, dependsOn)
    {
      AddTask(task);
      AddTask(dependsOn);
      InverseEdge(dependencies, dependents, task, dependsOn);
      hide Inverse;
      dependencies := dependencies[task := dependencies[task] + {dependsOn}];
      dependents := dependents[dependsOn := dependents[dependsOn] + {task}];
    }

    /** Kahn's algorithm, tier by tier: fails exactly on a cycle, and otherwise returns every task in the tier of its
        longest chain of dependencies, each tier in ascending order. */
    method TopologicalTiers() returns (r: Option<seq<seq<TaskId>>>)
      requires Valid()
      ensures r.None? <==> Cyclic(dependencies)
      ensures r.Some? ==> IsTiering(dependencies, r.value)
      ensures r.Some? ==>
                forall n, i, j | 0 <= n < |r.value| && 0 <= i < j < |r.value[n]| :: Lt(r.value[n][i], r.value[n][j])
    {
      hide Ready, Degrees, Freed, ListsInOrder, Inverse, Cyclic, SortIds;
      var inDegrees: map<TaskId, nat> := map t | t in dependencies :: |dependencies[t]|;
      var free := ZeroDegrees(inDegrees);
      FirstTier(dependencies, inDegrees, free);
      var currentTier := SortIds(free);
      var tiers := [];
      var remaining: nat := |dependencies|;
      ghost var n := 0;
      while currentTier != []
        invariant n == |tiers| && ListsInOrder(currentTier, Tier(dependencies, n))
        invariant Degrees(dependencies, inDegrees, Ready(dependencies, n))
        invariant remaining == |dependencies| - |Ready(dependencies, n)|
        invariant forall i | 0 <= i < n :: tiers[i] != [] && ListsInOrder(tiers[i], Tier(dependencies, i))
        decreases remaining
      {
        TierSize(dependencies, n, currentTier);
        remaining := remaining - |currentTier|;
        var nextTier;
        nextTier, inDegrees := ReleaseTier(currentTier, inDegrees, Ready(dependencies, n));
        NextTier(dependencies, n, currentTier, nextTier);
        tiers := tiers + [currentTier];
        currentTier := SortIds(nextTier);
        n := n + 1;
      }
      InverseClosed(dependencies, dependents);
      NoTaskLeft(dependencies, n, currentTier);
      if remaining > 0 {
        return None;
      }
      TiersAscend(dependencies, tiers);
      r := Some(tiers);
    }

    /** Releases every task of a tier; no in-degree is decremented below zero. */
    method ReleaseTier(tier: seq<TaskId>, inDegrees: map<TaskId, nat>, ghost gone: set<TaskId>)
      returns (next: seq<TaskId>, degrees: map<TaskId, nat>)
      requires Valid() && Degrees(dependencies, inDegrees, gone)
      requires NoRepeats(tier) && forall t | t in tier :: t in dependencies && t !in gone
      ensures Degrees(dependencies, degrees, gone + SetOf(tier))
      ensures Freed(dependencies, next, gone, gone + SetOf(tier))
    {
      hide Degrees, Freed, Valid;
      next, degrees := [], inDegrees;
      assert gone + SetOf(tier[..0]) == gone;
      FreedNone(dependencies, gone);
      for i := 0 to |tier|
        invariant Degrees(dependencies, degrees, gone + SetOf(tier[..i]))
        invariant Freed(dependencies, next, gone, gone + SetOf(tier[..i]))
      {
        assert tier[..i + 1] == tier[..i] + [tier[i]];
        assert tier[i] in tier && tier[i] !in tier[..i];
        ghost var before := gone + SetOf(tier[..i]);
        var freed;
        freed, degrees := ReleaseTask(tier[i], degrees, before);
        assert before + {tier[i]} == gone + SetOf(tier[..i + 1]);
        FreedTogether(dependencies, next, freed, gone, before, before + {tier[i]});
        next := next + freed;
      }
      assert tier[..|tier|] == tier;
    }

    /** Decrements the in-degree of every dependent, in any order. */
    method ReleaseTask(task: TaskId, inDegrees: map<TaskId, nat>, ghost gone: set<TaskId>)
      returns (freed: seq<TaskId>, degrees: map<TaskId, nat>)
      requires Valid() && Degrees(dependencies, inDegrees, gone)
      requires task in dependencies && task !in gone
      ensures Degrees(dependencies, degrees, gone + {task})
      ensures Freed(dependencies, freed, gone, gone + {task})
    {
      freed, degrees := [], inDegrees;
      var waiting := dependents[task];
      ghost var all := waiting;
      assert IsDependents(dependencies, task, all);
      hide Inverse, IsDependents, Degrees, Partial, Freed, FreedSoFar, Valid;
      PartialStart(dependencies, degrees, gone, task);
      assert all - waiting == {};
      FreedStart(dependencies, gone + {task});
      while waiting != {}
        invariant waiting <= all
        invariant Partial(dependencies, degrees, gone, task, all - waiting)
        invariant FreedSoFar(dependencies, freed, all - waiting, gone + {task})
        decreases waiting
      {
        var dependent :| dependent in waiting;
        HandleDependent(dependencies, freed, degrees, gone, task, all, waiting, dependent);
        degrees := degrees[dependent := degrees[dependent] - 1];
        if degrees[dependent] == 0 {
          freed := freed + [dependent];
        }
        waiting := waiting - {dependent};
      }
      assert all - waiting == all;
      PartialEnd(dependencies, degrees, gone, task, all);
      FreedByTask(dependencies, freed, gone, task, all);
    }
  }

  ghost predicate IsDependents(g: Graph, task: TaskId, all: set<TaskId>) {
    forall t :: t in all <==> t in g && task in g[t]
  }

  lemma DependentIn(g: Graph, task: TaskId, all: set<TaskId>, d: TaskId)
    requires IsDependents(g, task, all) && d in all
    ensures d in g && task in g[d]
  {
  }

  /** In-degrees while the dependents of `task` are being released. */
  ghost predicate Partial(g: Graph, degrees: map<TaskId, nat>, gone: set<TaskId>, task: TaskId, handled: set<TaskId>) {
    && degrees.Keys == g.Keys
    && forall t | t in g :: degrees[t] == if t in handled then |g[t] - (gone + {task})| else |g[t] - gone|
  }

  /** Each decrement finds a positive in-degree and leaves zero exactly when the last dependency is gone. */
  lemma PartialStep(g: Graph, degrees: map<TaskId, nat>, gone: set<TaskId>, task: TaskId, handled: set<TaskId>,
                    d: TaskId)
    requires Partial(g, degrees, gone, task, handled)
    requires d in g && d !in handled && task in g[d] && task !in gone
    ensures d in degrees && degrees[d] >= 1 && (degrees[d] == 1 <==> g[d] <= gone + {task})
    ensures Partial(g, degrees[d := degrees[d] - 1], gone, task, handled + {d})
  {
    RemoveOne(g[d], gone, task);
  }

  /** Of the dependents handled so far, those with nothing left to wait for. */
  ghost predicate FreedSoFar(g: Graph, freed: seq<TaskId>, handled: set<TaskId>, now: set<TaskId>) {
    NoRepeats(freed) && forall t :: t in freed <==> t in handled && t in g && g[t] <= now
  }

  lemma FreedStart(g: Graph, now: set<TaskId>)
    ensures FreedSoFar(g, [], {}, now)
  {
  }

  lemma FreedStep(g: Graph, freed: seq<TaskId>, handled: set<TaskId>, now: set<TaskId>, d: TaskId)
    requires FreedSoFar(g, freed, handled, now) && d !in handled && d in g
    ensures FreedSoFar(g, if g[d] <= now then freed + [d] else freed, handled + {d}, now)
  {
  }

  /** One round of the loop over the dependents. */
  lemma HandleDependent(g: Graph, freed: seq<TaskId>, degrees: map<TaskId, nat>, gone: set<TaskId>, task: TaskId,
                        all: set<TaskId>, waiting: set<TaskId>, d: TaskId)
    requires IsDependents(g, task, all) && task !in gone && d in waiting && waiting <= all
    requires Partial(g, degrees, gone, task, all - waiting) && FreedSoFar(g, freed, all - waiting, gone + {task})
    ensures d in degrees && degrees[d] >= 1
    ensures Partial(g, degrees[d := degrees[d] - 1], gone, task, all - (waiting - {d}))
    ensures FreedSoFar(g, if degrees[d] == 1 then freed + [d] else freed, all - (waiting - {d}), gone + {task})
  {
    hide IsDependents, Partial, FreedSoFar;
    assert all - (waiting - {d}) == all - waiting + {d};
    DependentIn(g, task, all, d);
    FreedStep(g, freed, all - waiting, gone + {task}, d);
    PartialStep(g, degrees, gone, task, all - waiting, d);
  }

  lemma PartialStart(g: Graph, degrees: map<TaskId, nat>, gone: set<TaskId>, task: TaskId)
    requires Degrees(g, degrees, gone)
    ensures Partial(g, degrees, gone, task, {})
  {
  }

  lemma FreedByTask(g: Graph, freed: seq<TaskId>, gone: set<TaskId>, task: TaskId, all: set<TaskId>)
    requires IsDependents(g, task, all)
    requires task !in gone && FreedSoFar(g, freed, all, gone + {task})
    ensures Freed(g, freed, gone, gone + {task})
  {
    forall t ensures t in freed <==> t in g && g[t] <= gone + {task} && !(g[t] <= gone) {
      if t in g && g[t] <= gone + {task} && !(g[t] <= gone) {
        var d :| d in g[t] && d !in gone;
        assert d == task;
      }
    }
  }

  lemma PartialEnd(g: Graph, degrees: map<TaskId, nat>, gone: set<TaskId>, task: TaskId, handled: set<TaskId>)
    requires Partial(g, degrees, gone, task, handled)
    requires IsDependents(g, task, handled)
    ensures Degrees(g, degrees, gone + {task})
  {
    forall t | t in g && t !in handled ensures g[t] - (gone + {task}) == g[t] - gone {
      assert task !in g[t];
    }
  }

  lemma FreedNone(g: Graph, gone: set<TaskId>)
    ensures Freed(g, [], gone, gone)
  {
  }

  function WithTask(g: Graph, t: TaskId): Graph {
    if t in g then g else g[t := {}]
  }

  function WithEdge(g: Graph, task: TaskId, dependsOn: TaskId): Graph {
    var h := WithTask(WithTask(g, task), dependsOn);
    h[task := h[task] + {dependsOn}]
  }

  /** Adding an edge removes no path. */
  lemma PathStays(g: Graph, task: TaskId, dependsOn: TaskId, p: seq<TaskId>)
    requires Path(g, p)
    ensures Path(WithEdge(g, task, dependsOn), p)
  {
    var h := WithEdge(g, task, dependsOn);
    forall i | 0 <= i < |p| - 1 ensures p[i + 1] in h[p[i]] {
      assert p[i + 1] in g[p[i]];
    }
  }

  /** A rejected edge stays in the graph, so the graph stays cyclic under every later edge: once one dependency between
      two tasks is rejected, all later ones are, and no tiers exist any more. */
  lemma RejectionIsPermanent(g: Graph, task: TaskId, dependsOn: TaskId)
    requires Cyclic(g)
    ensures Cyclic(WithEdge(g, task, dependsOn)) && Cyclic(WithTask(g, task))
  {
    var p :| Cycle(g, p);
    PathStays(g, task, dependsOn, p);
    assert Cycle(WithEdge(g, task, dependsOn), p);
    forall i | 0 <= i < |p| - 1 ensures p[i + 1] in WithTask(g, task)[p[i]] {
      assert p[i + 1] in g[p[i]];
    }
    assert Cycle(WithTask(g, task), p);
  }

  /** The shortest such history: `a` may depend on `b`, and then `b` on `a` is rejected; from there every edge is. */
  lemma TwoTaskCycle(a: TaskId, b: TaskId, task: TaskId, dependsOn: TaskId)
    requires a != b
    ensures var first := WithEdge(map[], a, b);
            var second := WithEdge(first, b, a);
            !Cyclic(first) && Cyclic(second) && Cyclic(WithEdge(second, task, dependsOn))
  {
    var first := WithEdge(map[], a, b);
    var second := WithEdge(first, b, a);
    assert Ready(first, 0) == {};
    assert Ready(first, 1) == {b};
    assert Ready(first, 2) == first.Keys;
    TieredIsAcyclic(first, 2);
    assert Cycle(second, [a, b, a]) by {
      var p := [a, b, a];
      assert p[0 + 1] in second[p[0]] && p[1 + 1] in second[p[1]];
    }
    RejectionIsPermanent(second, task, dependsOn);
  }

  /** Non-empty sorted tiers that take in every task. */
  ghost predicate IsTiering(g: Graph, tiers: seq<seq<TaskId>>) {
    && (forall i | 0 <= i < |tiers| :: tiers[i] != [] && ListsInOrder(tiers[i], Tier(g, i)))
    && Ready(g, |tiers|) == g.Keys
  }

  lemma TiersAscend(g: Graph, tiers: seq<seq<TaskId>>)
    requires forall i | 0 <= i < |tiers| :: ListsInOrder(tiers[i], Tier(g, i))
    ensures forall n, i, j | 0 <= n < |tiers| && 0 <= i < j < |tiers[n]| :: Lt(tiers[n][i], tiers[n][j])
  {
    forall n | 0 <= n < |tiers| ensures SortedIds(tiers[n]) {
      assert ListsInOrder(tiers[n], Tier(g, n));
    }
  }

  lemma RemoveOne(deps: set<TaskId>, gone: set<TaskId>, task: TaskId)
    requires task in deps && task !in gone
    ensures |deps - gone| == |deps - (gone + {task})| + 1
    ensures |deps - (gone + {task})| == 0 <==> deps <= gone + {task}
  {
    assert deps - gone == (deps - (gone + {task})) + {task};
    assert |deps - (gone + {task})| == 0 <==> deps - (gone + {task}) == {};
  }

  lemma FreedTogether(g: Graph, xs: seq<TaskId>, ys: seq<TaskId>, gone: set<TaskId>, mid: set<TaskId>, now: set<TaskId>)
    requires Freed(g, xs, gone, mid) && Freed(g, ys, mid, now) && gone <= mid <= now
    ensures Freed(g, xs + ys, gone, now)
  {
    forall t ensures t in xs + ys <==> t in g && g[t] <= now && !(g[t] <= gone) {
      assert t in xs + ys <==> t in xs || t in ys;
    }
    var zs := xs + ys;
    forall i, j | 0 <= i < j < |zs| ensures zs[i] != zs[j] {
      if i < |xs| <= j {
        assert zs[i] in xs && zs[j] in ys;
      }
    }
  }

  method ZeroDegrees(inDegrees: map<TaskId, nat>) returns (free: seq<TaskId>)
    ensures NoRepeats(free) && forall t :: t in free <==> t in inDegrees && inDegrees[t] == 0
  {
    free := [];
    var left := inDegrees.Keys;
    while left != {}
      invariant left <= inDegrees.Keys
      invariant NoRepeats(free) && forall t :: t in free <==> t in inDegrees && t !in left && inDegrees[t] == 0
      decreases left
    {
      var t :| t in left;
      if inDegrees[t] == 0 {
        free := free + [t];
      }
      left := left - {t};
    }
  }

  lemma FirstTier(g: Graph, inDegrees: map<TaskId, nat>, free: seq<TaskId>)
    requires inDegrees.Keys == g.Keys && forall t | t in g :: inDegrees[t] == |g[t]|
    requires NoRepeats(free) && forall t :: t in free <==> t in inDegrees && inDegrees[t] == 0
    ensures ListsInOrder(SortIds(free), Tier(g, 0))
    ensures Degrees(g, inDegrees, Ready(g, 0)) && Ready(g, 0) == {}
  {
    hide SortIds;
    SortIdsFacts(free);
    forall t | t in g ensures g[t] - {} == g[t] && (inDegrees[t] == 0 <==> g[t] <= {}) {
      assert |g[t]| == 0 <==> g[t] == {};
    }
    FirstReady(g);
  }

  lemma FirstReady(g: Graph)
    ensures Ready(g, 0) == {} && forall t :: t in Tier(g, 0) <==> t in g && g[t] <= {}
  {
    assert Ready(g, 1) == set t | t in g && g[t] <= Ready(g, 0);
  }

  lemma SortedNoRepeats(ids: seq<TaskId>)
    requires SortedIds(ids)
    ensures NoRepeats(ids)
  {
    LinearOrder();
  }

  lemma TierSize(g: Graph, n: nat, tier: seq<TaskId>)
    requires ListsInOrder(tier, Tier(g, n))
    ensures NoRepeats(tier) && SetOf(tier) == Tier(g, n)
    ensures |Ready(g, n + 1)| == |Ready(g, n)| + |tier| <= |g|
    ensures Ready(g, n + 1) == Ready(g, n) + SetOf(tier)
    ensures forall t | t in tier :: t in g && t !in Ready(g, n)
  {
    SortedNoRepeats(tier);
    CountMembers(tier);
    ReadyGrows(g, n);
    assert SetOf(tier) == Tier(g, n);
    assert Ready(g, n + 1) == Ready(g, n) + Tier(g, n);
    SubsetSize(Ready(g, n + 1), g.Keys);
    assert |g.Keys| == |g|;
  }

  lemma {:induction false} SubsetSize(a: set<TaskId>, b: set<TaskId>)
    requires a <= b
    ensures |a| <= |b|
    ensures |a| == |b| ==> a == b
  {
    assert b == a + (b - a);
    assert |b| == |a| + |b - a|;
  }

  lemma NextTier(g: Graph, n: nat, tier: seq<TaskId>, next: seq<TaskId>)
    requires ListsInOrder(tier, Tier(g, n)) && Freed(g, next, Ready(g, n), Ready(g, n) + SetOf(tier))
    ensures ListsInOrder(SortIds(next), Tier(g, n + 1))
  {
    hide SortIds;
    TierSize(g, n, tier);
    SortIdsFacts(next);
    forall t ensures t in next <==> t in Tier(g, n + 1) {
      ReadyStep(g, n, t);
      ReadyStep(g, n + 1, t);
    }
  }

  lemma ReadyStep(g: Graph, n: nat, t: TaskId)
    ensures t in Ready(g, n + 1) <==> t in g && g[t] <= Ready(g, n)
  {
  }

  lemma NothingListed(ids: seq<TaskId>, s: set<TaskId>)
    requires ListsInOrder(ids, s) && ids == []
    ensures s == {}
  {
    forall t ensures t !in s {
      assert t in ids <==> t in s;
    }
  }

  /** Where the tiers stop: every task is in one exactly when there is no cycle. */
  lemma NoTaskLeft(g: Graph, n: nat, tier: seq<TaskId>)
    requires Closed(g) && ListsInOrder(tier, Tier(g, n)) && tier == []
    ensures |Ready(g, n)| <= |g| && (|Ready(g, n)| == |g| <==> Ready(g, n) == g.Keys)
    ensures Cyclic(g) <==> Ready(g, n) != g.Keys
  {
    ReadyGrows(g, n);
    NothingListed(tier, Tier(g, n));
    forall t | t in Ready(g, n + 1) ensures t in Ready(g, n) {
      assert t in Tier(g, n) <==> t !in Ready(g, n);
    }
    SubsetSize(Ready(g, n), g.Keys);
    assert |g.Keys| == |g|;
    if Ready(g, n) == g.Keys {
      TieredIsAcyclic(g, n);
    } else {
      StuckIsCyclic(g, n);
    }
  }

  // ----- What a tiering gives its user -----

  /** The tiers partition the tasks, and every dependency of a task lies in an earlier tier. */
  lemma TieringPartitions(g: Graph, tiers: seq<seq<TaskId>>, t: TaskId)
    requires IsTiering(g, tiers) && t in g
    ensures exists n :: 0 <= n < |tiers| && t in tiers[n]
    ensures forall m, n | 0 <= m < |tiers| && 0 <= n < |tiers| && t in tiers[m] && t in tiers[n] :: m == n
    ensures forall n, d | 0 <= n < |tiers| && t in tiers[n] && d in g[t] :: exists m :: 0 <= m < n && d in tiers[m]
  {
    var n := TierOf(g, t, |tiers|);
    assert t in tiers[n];
    forall i, j | 0 <= i < j < |tiers| ensures !(t in Tier(g, i) && t in Tier(g, j)) {
      ReadyMonotone(g, i + 1, j);
    }
    forall k, d | 0 <= k < |tiers| && t in tiers[k] && d in g[t] ensures exists m :: 0 <= m < k && d in tiers[m] {
      assert t in Tier(g, k);
      var m := TierOf(g, d, k);
      assert d in tiers[m];
    }
  }

  lemma {:induction false} TierOf(g: Graph, t: TaskId, n: nat) returns (m: nat)
    requires t in Ready(g, n)
    ensures m < n && t in Tier(g, m)
    decreases n
  {
    if t in Ready(g, n - 1) {
      m := TierOf(g, t, n - 1);
    } else {
      m := n - 1;
    }
  }

  /** The result does not depend on the order the maps are iterated in. */
  lemma TieringUnique(g: Graph, xs: seq<seq<TaskId>>, ys: seq<seq<TaskId>>)
    requires IsTiering(g, xs) && IsTiering(g, ys)
    ensures xs == ys
  {
    TieringLonger(g, xs, ys);
    TieringLonger(g, ys, xs);
    forall i | 0 <= i < |xs| ensures xs[i] == ys[i] {
      ListsInOrderUnique(xs[i], ys[i], Tier(g, i));
    }
  }

  lemma TieringLonger(g: Graph, xs: seq<seq<TaskId>>, ys: seq<seq<TaskId>>)
    requires IsTiering(g, xs) && IsTiering(g, ys)
    ensures |ys| <= |xs|
  {
    ReadyGrows(g, |xs|);
    assert Tier(g, |xs|) == {};
    forall i | 0 <= i < |ys| ensures Tier(g, i) != {} {
      assert ys[i][0] in ys[i];
    }
  }
}
