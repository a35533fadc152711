/** The workflow driver over the task graph (src/agent/engine.rs:189-490). */
module Workflows {
  import opened Lists
  import opened Keys
  import opened TaskGraphs

  datatype TaskStatus = Pending | Assigned | InProgress | InReflection | Completed | Failed | Cancelled

  datatype WorkflowStatus = Created | Running | Succeeded | WorkflowFailed

  /** How one task execution ends. Routing, tool calls and reflection either complete or fail the step. */
  datatype Execution = Executed | NotFound | DependenciesUnsatisfied | StepFailed

  datatype RunResult =
    | CycleFound
    | Stopped(task: TaskId, reason: Execution)
    | Finished(total: nat, completed: nat, failed: nat)

  /** Every completed task has only completed dependencies. */
  ghost predicate CompletedClosed(g: Graph, tasks: map<TaskId, TaskStatus>) {
    forall t, d | t in tasks && tasks[t] == Completed && t in g && d in g[t] :: d in tasks && tasks[d] == Completed
  }

  /** Each task comes after all its dependencies, and at most once. */
  ghost predicate RespectsOrder(g: Graph, order: seq<TaskId>) {
    && NoRepeats(order)
    && forall i | 0 <= i < |order| :: order[i] in g && g[order[i]] <= SetOf(order[..i])
  }

  lemma RespectsAppend(g: Graph, order: seq<TaskId>, t: TaskId)
    requires RespectsOrder(g, order) && t in g && t !in order && g[t] <= SetOf(order)
    ensures RespectsOrder(g, order + [t])
    ensures SetOf(order + [t]) == SetOf(order) + {t}
  {
    var after := order + [t];
    forall i | 0 <= i < |after| ensures after[i] in g && g[after[i]] <= SetOf(after[..i]) {
      if i < |order| {
        assert after[..i] == order[..i];
      } else {
        assert after[..i] == order;
      }
    }
  }

  /** What a run has done: `order` ran to completion, nothing else changed. */
  ghost predicate Progress(g: Graph, before: map<TaskId, TaskStatus>, now: map<TaskId, TaskStatus>,
                           order: seq<TaskId>) {
    && RespectsOrder(g, order)
    && now.Keys == before.Keys
    && (forall t | t in order :: t in now && now[t] == Completed)
    && (forall t | t in now && t !in order :: now[t] == before[t])
  }

  lemma ProgressStep(g: Graph, before: map<TaskId, TaskStatus>, now: map<TaskId, TaskStatus>, order: seq<TaskId>,
                     t: TaskId)
    requires Progress(g, before, now, order) && t in now && t in g && t !in order && g[t] <= SetOf(order)
    ensures Progress(g, before, now[t := Completed], order + [t])
    ensures SetOf(order + [t]) == SetOf(order) + {t}
  {
    RespectsAppend(g, order, t);
  }

  /** From a start without completed tasks, the completed tasks are exactly those that ran: closed under
      dependencies. */
  lemma ProgressCloses(g: Graph, before: map<TaskId, TaskStatus>, now: map<TaskId, TaskStatus>, order: seq<TaskId>)
    requires Progress(g, before, now, order) && forall t | t in before :: before[t] != Completed
    ensures CompletedClosed(g, now)
    ensures forall t | t in now && t !in order :: CompletedClosed(g, now[t := Failed])
  {
    forall t, d | t in order && t in g && d in g[t] ensures d in order {
      var i :| 0 <= i < |order| && order[i] == t;
      assert d in SetOf(order[..i]);
    }
  }

  /** Adding a task without edges adds no cycle. */
  lemma IsolatedTaskAddsNoCycle(g: Graph, t: TaskId)
    requires Closed(g) && Cyclic(WithTask(g, t))
    ensures Cyclic(g)
  {
    var h := WithTask(g, t);
    var p :| Cycle(h, p);
    forall i | 0 <= i < |p| - 1 ensures p[i] in g && p[i + 1] in g[p[i]] {
      assert p[i + 1] in h[p[i]];
    }
    assert p[|p| - 1] == p[0];
    assert Cycle(g, p);
  }

  /** All dependencies of the task, if the graph knows it, are completed tasks. */
  predicate DependenciesReady(g: Graph, tasks: map<TaskId, TaskStatus>, t: TaskId) {
    t in g ==> forall d | d in g[t] :: d in tasks && tasks[d] == Completed
  }

  /** Completing a task keeps the completed ones closed under dependencies exactly when the task is ready. */
  lemma ReadyIff(g: Graph, tasks: map<TaskId, TaskStatus>, t: TaskId)
    requires CompletedClosed(g, tasks) && t in tasks && (t in g ==> t !in g[t])
    ensures DependenciesReady(g, tasks, t) <==> CompletedClosed(g, tasks[t := Completed])
  {
    var after := tasks[t := Completed];
    if t in g && CompletedClosed(g, after) {
      forall d | d in g[t] ensures d in tasks && tasks[d] == Completed {
        assert d in after && after[d] == Completed;
      }
    }
  }

  lemma DependenciesCompleted(g: Graph, before: map<TaskId, TaskStatus>, now: map<TaskId, TaskStatus>,
                              order: seq<TaskId>,
                              t: TaskId)
    requires Progress(g, before, now, order) && t in g && g[t] <= SetOf(order)
    ensures DependenciesReady(g, now, t)
  {
    forall d | d in g[t] ensures d in now && now[d] == Completed {
      assert d in SetOf(order);
    }
  }

  /** The next task of a tier has all its dependencies in earlier tiers. */
  lemma RunnableNow(g: Graph, n: nat, tier: seq<TaskId>, i: nat, order: seq<TaskId>)
    requires ListsInOrder(tier, Tier(g, n)) && i < |tier| && SetOf(order) == Ready(g, n) + SetOf(tier[..i])
    ensures tier[i] in g && tier[i] !in order && g[tier[i]] <= SetOf(order)
    ensures SetOf(tier[..i + 1]) == SetOf(tier[..i]) + {tier[i]}
  {
    SortedNoRepeats(tier);
    assert tier[i] in tier && tier[i] in Tier(g, n);
    assert tier[..i + 1] == tier[..i] + [tier[i]];
    assert tier[i] !in SetOf(order);
  }

  lemma NoneRunYet(tier: seq<TaskId>)
    ensures SetOf(tier[..0]) == {}
  {
  }

  class AgentEngine {
    const graph: TaskGraph
    var tasks: map<TaskId, TaskStatus>
    var status: WorkflowStatus

    /** Every submitted task is in the graph. */
    ghost predicate Valid()
      reads this, graph
    {
      graph.Valid() && tasks.Keys <= graph.dependencies.Keys
    }

    constructor ()
      ensures Valid() && tasks == map[] && graph.dependencies == map[] && fresh(graph)
    {
      graph := new TaskGraph();
      tasks, status := map[], Created;
    }

    /** A rejected submission records no task; an accepted one leaves an acyclic graph acyclic. */
    method SubmitTask(task: TaskId, dependsOn: seq<TaskId>) returns (ok: bool)
      requires Valid()
      modifies this, graph
      ensures Valid() && status == old(status)
      ensures tasks == if ok then old(tasks)[task := Pending] else old(tasks)
      ensures task in graph.dependencies && old(graph.dependencies).Keys <= graph.dependencies.Keys
      ensures ok ==> graph.dependencies == WithEdges(WithTask(old(graph.dependencies), task), task, dependsOn)
      ensures ok ==>
                var before, now := old(graph.dependencies), graph.dependencies;
                && now.Keys == before.Keys + {task} + SetOf(dependsOn)
                && now[task] == (if task in before then before[task] else {}) + SetOf(dependsOn)
                && (forall t | t in now && t != task :: now[t] == if t in before then before[t] else {})
      ensures ok && !Cyclic(old(graph.dependencies)) ==> !Cyclic(graph.dependencies)
    {
      hide Cyclic, Inverse;
      ghost var start := graph.dependencies;
      graph.AddTask(task);
      if Cyclic(graph.dependencies) {
        InverseClosed(start, old(graph.dependents));
        IsolatedTaskAddsNoCycle(start, task);
      }
      for i := 0 to |dependsOn|
        invariant graph.Valid() && tasks == old(tasks) && status == old(status)
        invariant graph.dependencies == WithEdges(WithTask(start, task), task, dependsOn[..i])
        invariant task in graph.dependencies && start.Keys <= graph.dependencies.Keys
        invariant !Cyclic(start) ==> !Cyclic(graph.dependencies)
      {
        var accepted := graph.AddDependency(task, dependsOn[i]);
        assert dependsOn[..i + 1][..i] == dependsOn[..i];
        if !accepted {
          return false;
        }
      }
      assert dependsOn[..|dependsOn|] == dependsOn;
      EdgesRecorded(start, task, dependsOn);
      tasks := tasks[task := Pending];
      ok := true;
    }

    /** Refuses a task whose dependencies are not all completed; otherwise the step completes or fails. */
    method ExecuteTask(task: TaskId) returns (r: Execution)
      requires Valid()
      modifies this`tasks
      ensures Valid()
      ensures r == NotFound <==> task !in old(tasks)
      ensures r == DependenciesUnsatisfied
              <==> task in old(tasks) && !DependenciesReady(graph.dependencies, old(tasks), task)
      ensures tasks == if r == Executed then old(tasks)[task := Completed] else old(tasks)
      ensures CompletedClosed(graph.dependencies, old(tasks)) ==> CompletedClosed(graph.dependencies, tasks)
    {
      if task !in tasks {
        return NotFound;
      }
      if task in graph.dependencies {
        var left := graph.dependencies[task];
        while left != {}
          invariant left <= graph.dependencies[task]
          invariant forall d | d in graph.dependencies[task] && d !in left :: d in tasks && tasks[d] == Completed
          decreases left
        {
          var d :| d in left;
          if d !in tasks || tasks[d] != Completed {
            return DependenciesUnsatisfied;
          }
          left := left - {d};
        }
      }
      var stepFails: bool := *;
      if stepFails {
        return StepFailed;
      }
      tasks := tasks[task := Completed];
      r := Executed;
    }

    /** Runs the next task of a tier; it is never refused for unsatisfied dependencies. */
    method RunNext(tier: seq<TaskId>, i: nat, ghost n: nat, ghost order: seq<TaskId>, ghost before: map<TaskId,
                   TaskStatus>)
      returns (r: Execution)
      requires Valid() && Progress(graph.dependencies, before, tasks, order)
      requires ListsInOrder(tier, Tier(graph.dependencies, n)) && i < |tier|
      requires SetOf(order) == Ready(graph.dependencies, n) + SetOf(tier[..i])
      modifies this`tasks
      ensures Valid()
      ensures r == Executed ==> Progress(graph.dependencies, before, tasks, order + [tier[i]])
      ensures r == Executed ==> SetOf(order + [tier[i]]) == Ready(graph.dependencies, n) + SetOf(tier[..i + 1])
      ensures r != Executed ==> tasks == old(tasks) && tier[i] in graph.dependencies && tier[i] !in order
      ensures r != Executed ==> r == if tier[i] in tasks then StepFailed else NotFound
    {
      hide Progress, ListsInOrder, Inverse, Ready, NoRepeats, DependenciesReady, Tier;
      ghost var task := tier[i];
      RunnableNow(graph.dependencies, n, tier, i, order);
      DependenciesCompleted(graph.dependencies, before, tasks, order, task);
      r := ExecuteTask(tier[i]);
      if r == Executed {
        ProgressStep(graph.dependencies, before, old(tasks), order, task);
        assert SetOf(order + [task]) == SetOf(order) + {task};
      }
    }

    /** Runs one tier; stops at the first task that does not complete. */
    method RunTier(tier: seq<TaskId>, ghost n: nat, ghost order: seq<TaskId>, ghost before: map<TaskId, TaskStatus>)
      returns (stopped: Option<(TaskId, Execution)>, ghost order': seq<TaskId>)
      requires Valid() && Progress(graph.dependencies, before, tasks, order)
      requires ListsInOrder(tier, Tier(graph.dependencies, n)) && SetOf(order) == Ready(graph.dependencies, n)
      modifies this`tasks
      ensures Valid() && Progress(graph.dependencies, before, tasks, order')
      ensures |order'| >= |order|
      ensures stopped.None? ==> SetOf(order') == Ready(graph.dependencies, n + 1) && |order'| == |order| + |tier|
      ensures stopped.Some? ==> stopped.value.0 in graph.dependencies && stopped.value.0 !in order'
      ensures stopped.Some? ==> stopped.value.1 == if stopped.value.0 in tasks then StepFailed else NotFound
    {
      hide Progress, ListsInOrder, Inverse, Ready, NoRepeats, Tier, SetOf;
      order' := order;
      TierSize(graph.dependencies, n, tier);
      NoneRunYet(tier);
      for i := 0 to |tier|
        invariant Valid() && Progress(graph.dependencies, before, tasks, order')
        invariant SetOf(order') == Ready(graph.dependencies, n) + SetOf(tier[..i]) && |order'| == |order| + i
      {
        var r := RunNext(tier, i, n, order', before);
        if r != Executed {
          return Some((tier[i], r)), order';
        }
        order' := order' + [tier[i]];
      }
      assert tier[..|tier|] == tier;
      stopped := None;
    }

    /** Runs every task in tier order. A cycle is reported before anything runs, with the status left at `Running`. No
        task is ever refused for unsatisfied dependencies; a stop is a task that was never submitted or a failed
        step. */
    method RunWorkflow() returns (r: RunResult, ghost order: seq<TaskId>)
      requires Valid()
      modifies this
      ensures Valid()
      ensures r.CycleFound? <==> Cyclic(graph.dependencies)
      ensures r.CycleFound? ==> tasks == old(tasks) && order == [] && status == Running
      ensures Outcome(graph.dependencies, old(tasks), tasks, order, if r.Stopped? then Some(r.task) else None)
      ensures r.Stopped? ==>
                && status == WorkflowFailed && r.task in graph.dependencies && r.task !in order
                && r.reason == (if r.task in tasks then StepFailed else NotFound)
      ensures r.Finished? ==>
                && status == Succeeded && r.failed == 0
                && r.total == r.completed == |tasks| == |graph.dependencies| == |order|
                && tasks.Keys == graph.dependencies.Keys == SetOf(order)
    {
      hide Progress, Outcome, Cyclic, Inverse, Ready, ListsInOrder, Closed, RespectsOrder;
      status := Running;
      order := [];
      ghost var before := tasks;
      NothingRan(graph.dependencies, before);
      var tiers := graph.TopologicalTiers();
      if tiers.None? {
        return CycleFound, [];
      }
      var completedCount := 0;
      for i := 0 to |tiers.value|
        invariant Valid() && Progress(graph.dependencies, before, tasks, order)
        invariant SetOf(order) == Ready(graph.dependencies, i) && completedCount == |order|
      {
        var stopped;
        stopped, order := RunTier(tiers.value[i], i, order, before);
        if stopped.Some? {
          status := WorkflowFailed;
          var (task, reason) := stopped.value;
          StoppedOutcome(graph.dependencies, before, tasks, order, task);
          if task in tasks {
            tasks := tasks[task := Failed];
          }
          return Stopped(task, reason), order;
        }
        completedCount := completedCount + |tiers.value[i]|;
      }
      status := Succeeded;
      FinishedOutcome(graph.dependencies, before, tasks, order);
      r := Finished(|tasks|, completedCount, 0);
    }
  }

  /** How a run leaves the tasks: `order` ran, each task once and after its dependencies; the task it stopped at, if it
      was submitted, is failed; nothing else changed; and if nothing was completed at the start, the completed tasks are
      closed under dependencies. */
  ghost predicate Outcome(g: Graph, before: map<TaskId, TaskStatus>, now: map<TaskId, TaskStatus>, order: seq<TaskId>,
                          stopped: Option<TaskId>)
  {
    && RespectsOrder(g, order)
    && now.Keys == before.Keys
    && (forall t | t in order :: t in now && now[t] == Completed)
    && (forall t | t in now && t !in order ::
          now[t] == if stopped == Some(t) then Failed else before[t])
    && ((forall t | t in before :: before[t] != Completed) ==> CompletedClosed(g, now))
  }

  lemma NothingRan(g: Graph, tasks: map<TaskId, TaskStatus>)
    ensures Progress(g, tasks, tasks, []) && Outcome(g, tasks, tasks, [], None)
    ensures SetOf([]) == {} == Ready(g, 0)
  {
  }

  lemma StoppedOutcome(g: Graph, before: map<TaskId, TaskStatus>, now: map<TaskId, TaskStatus>, order: seq<TaskId>,
                       t: TaskId)
    requires Progress(g, before, now, order) && t !in order
    ensures Outcome(g, before, if t in now then now[t := Failed] else now, order, Some(t))
  {
    if forall x | x in before :: before[x] != Completed {
      ProgressCloses(g, before, now, order);
    }
  }

  lemma FinishedOutcome(g: Graph, before: map<TaskId, TaskStatus>, now: map<TaskId, TaskStatus>, order: seq<TaskId>)
    requires Progress(g, before, now, order) && SetOf(order) == g.Keys && now.Keys <= g.Keys
    ensures Outcome(g, before, now, order, None)
    ensures now.Keys == g.Keys && |now| == |g| == |order|
  {
    if forall x | x in before :: before[x] != Completed {
      ProgressCloses(g, before, now, order);
    }
    AllRan(g, now, order);
  }

  lemma AllRan(g: Graph, tasks: map<TaskId, TaskStatus>, order: seq<TaskId>)
    requires RespectsOrder(g, order) && SetOf(order) == g.Keys && tasks.Keys <= g.Keys
    requires forall t | t in order :: t in tasks
    ensures tasks.Keys == g.Keys && |tasks| == |g| == |order|
  {
    CountMembers(order);
    assert g.Keys <= tasks.Keys by {
      forall t | t in g.Keys ensures t in tasks {
        assert t in SetOf(order);
      }
    }
    assert |tasks.Keys| == |tasks| && |g.Keys| == |g|;
  }

  /** A submission adds its own dependencies to its task and nothing to any other. */
  lemma {:induction false} EdgesRecorded(g: Graph, task: TaskId, dependsOn: seq<TaskId>)
    ensures var h := WithEdges(WithTask(g, task), task, dependsOn);
            && h.Keys == g.Keys + {task} + SetOf(dependsOn)
            && h[task] == (if task in g then g[task] else {}) + SetOf(dependsOn)
            && (forall t | t in h && t != task :: h[t] == if t in g then g[t] else {})
  {
    if dependsOn != [] {
      var init, last := dependsOn[..|dependsOn| - 1], dependsOn[|dependsOn| - 1];
      assert dependsOn == init + [last];
      EdgesRecorded(g, task, init);
      assert SetOf(dependsOn) == SetOf(init) + {last};
    }
  }

  /** A dependency that was submitted with a task lies in an earlier tier than it. */
  lemma SubmittedDependencyIsEarlier(g: Graph, task: TaskId, dependsOn: seq<TaskId>, d: TaskId,
                                     tiers: seq<seq<TaskId>>, n: nat)
    requires IsTiering(WithEdges(WithTask(g, task), task, dependsOn), tiers)
    requires d in dependsOn && n < |tiers| && task in tiers[n]
    ensures exists m :: 0 <= m < n && d in tiers[m]
  {
    hide IsTiering, WithEdges, WithTask, WithEdge;
    EdgesRecorded(g, task, dependsOn);
    var h := WithEdges(WithTask(g, task), task, dependsOn);
    assert task in h && d in SetOf(dependsOn) && d in h[task];
    TieringPartitions(h, tiers, task);
  }

  /** In the order tasks ran, every dependency of a task comes before it. */
  lemma DependencyRanBefore(g: Graph, order: seq<TaskId>, j: nat, d: TaskId)
    requires RespectsOrder(g, order) && j < |order| && d in g[order[j]]
    ensures exists i :: 0 <= i < j && order[i] == d
  {
    assert d in SetOf(order[..j]);
    var i :| 0 <= i < j && order[..j][i] == d;
    assert order[i] == d;
  }

  function WithEdges(g: Graph, task: TaskId, dependsOn: seq<TaskId>): Graph {
    if dependsOn == [] then g
    else WithEdge(WithEdges(g, task, dependsOn[..|dependsOn| - 1]), task, dependsOn[|dependsOn| - 1])
  }
}
