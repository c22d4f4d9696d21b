/**
  Level-by-level scheduling of dependent tasks: `find_parallelizable_tasks` of
  `agents/task_decomposer.py` and `_determine_parallel_execution` of `agents/pipeline_initializer.py`.
 */
module Scheduling {
  import opened Basics

  datatype Task = Task(id: string, dependsOn: seq<string>)

  function Ids(tasks: seq<Task>): set<string> {
    set i | 0 <= i < |tasks| :: tasks[i].id
  }

  predicate UniqueIds(tasks: seq<Task>) {
    forall i, j :: 0 <= i < j < |tasks| ==> tasks[i].id != tasks[j].id
  }

  function Elements(group: seq<string>): set<string> {
    set x | x in group
  }

  predicate IsReady(t: Task, completed: set<string>) {
    t.id !in completed && forall d :: d in t.dependsOn ==> d in completed
  }

  /** The ids of the tasks that can run next, in list order. */
  function Ready(tasks: seq<Task>, completed: set<string>): seq<string> {
    if tasks == [] then [] else
      var last := tasks[|tasks| - 1];
      var before := Ready(tasks[..|tasks| - 1], completed);
      if IsReady(last, completed) then before + [last.id] else before
  }

  function ReadySet(tasks: seq<Task>, completed: set<string>): set<string> {
    set i | 0 <= i < |tasks| && IsReady(tasks[i], completed) :: tasks[i].id
  }

  lemma {:induction false} ReadyIsReadySet(tasks: seq<Task>, completed: set<string>)
    ensures Elements(Ready(tasks, completed)) == ReadySet(tasks, completed)
  {
    if tasks != [] {
      var n := |tasks| - 1;
      ReadyIsReadySet(tasks[..n], completed);
      assert ReadySet(tasks, completed) ==
             ReadySet(tasks[..n], completed) + if IsReady(tasks[n], completed) then {tasks[n].id} else {};
    }
  }

  lemma ReadyShrinks(tasks: seq<Task>, completed: set<string>)
    requires Ready(tasks, completed) != []
    ensures Elements(Ready(tasks, completed)) <= Ids(tasks)
    ensures Ids(tasks) - (completed + Elements(Ready(tasks, completed))) < Ids(tasks) - completed
  {
    ReadyIsReadySet(tasks, completed);
    var group := Ready(tasks, completed);
    var x := group[0];
    assert x in Elements(group);
    assert x in Ids(tasks) - completed && x !in Ids(tasks) - (completed + Elements(group));
  }

  /** The groups that are scheduled from a set of completed tasks on. */
  function Layers(tasks: seq<Task>, completed: set<string>): seq<seq<string>>
    decreases Ids(tasks) - completed
  {
    var group := Ready(tasks, completed);
    if group == [] then [] else
      ReadyShrinks(tasks, completed);
      [group] + Layers(tasks, completed + Elements(group))
  }

  // ----- The two implementations

  lemma {:induction false} FewIds(tasks: seq<Task>)
    ensures |Ids(tasks)| <= |tasks|
  {
    if tasks == [] {
      assert Ids(tasks) == {};
    } else {
      var n := |tasks| - 1;
      FewIds(tasks[..n]);
      assert Ids(tasks) == Ids(tasks[..n]) + {tasks[n].id};
    }
  }

  /** As many completed tasks as there are list entries leave nothing to do. */
  lemma NothingLeft(tasks: seq<Task>, completed: set<string>)
    requires completed <= Ids(tasks) && |completed| >= |tasks|
    ensures Layers(tasks, completed) == []
  {
    var group := Ready(tasks, completed);
    assert forall k :: 0 <= k < |group| ==> group[k] in Elements(group);
    FewIds(tasks);
    assert |Ids(tasks) - completed| == |Ids(tasks)| - |completed|;
    assert Ids(tasks) - completed == {};
    forall i | 0 <= i < |tasks| ensures !IsReady(tasks[i], completed) {
      assert tasks[i].id in Ids(tasks);
      assert tasks[i].id !in Ids(tasks) - completed;
    }
    ReadyIsReadySet(tasks, completed);
  }

  /** One round over the task list. */
  method CollectReady(tasks: seq<Task>, completed: set<string>) returns (group: seq<string>)
    ensures group == Ready(tasks, completed)
  {
    group := [];
    for i := 0 to |tasks|
      invariant group == Ready(tasks[..i], completed)
    {
      assert tasks[..i + 1][..i] == tasks[..i];
      if tasks[i].id !in completed && forall d :: d in tasks[i].dependsOn ==> d in completed {
        group := group + [tasks[i].id];
      }
    }
    assert tasks[..|tasks|] == tasks;
  }

  method FindParallelizableTasks(tasks: seq<Task>) returns (groups: seq<seq<string>>)
    ensures groups == Layers(tasks, {})
  {
    var completed: set<string> := {};
    groups := [];
    while |completed| < |tasks|
      invariant completed <= Ids(tasks)
      invariant groups + Layers(tasks, completed) == Layers(tasks, {})
      decreases Ids(tasks) - completed
    {
      var group := CollectReady(tasks, completed);
      if group == [] {
        return;
      }
      OneRound(tasks, completed);
      Associate(groups, [group], Layers(tasks, completed + Elements(group)));
      groups := groups + [group];
      completed := completed + (set x | x in group);
    }
    NothingLeft(tasks, completed);
  }

  lemma OneRound(tasks: seq<Task>, completed: set<string>)
    requires completed <= Ids(tasks) && Ready(tasks, completed) != []
    ensures
      var group := Ready(tasks, completed);
      && completed + Elements(group) <= Ids(tasks)
      && Ids(tasks) - (completed + Elements(group)) < Ids(tasks) - completed
      && Layers(tasks, completed) == [group] + Layers(tasks, completed + Elements(group))
  {
    ReadyShrinks(tasks, completed);
  }

  /** The dependencies of the last task with the given id. */
  function BoundTo(tasks: seq<Task>, id: string): seq<string> {
    if tasks == [] then []
    else if tasks[|tasks| - 1].id == id then tasks[|tasks| - 1].dependsOn
    else BoundTo(tasks[..|tasks| - 1], id)
  }

  /** The second implementation keeps dependencies in a map, where the last task of a name wins. */
  function Rebound(tasks: seq<Task>): (r: seq<Task>)
    ensures |r| == |tasks|
  {
    seq(|tasks|, i requires 0 <= i < |tasks| => Task(tasks[i].id, BoundTo(tasks, tasks[i].id)))
  }

  lemma {:induction false} BoundToOwn(tasks: seq<Task>, i: nat)
    requires UniqueIds(tasks) && i < |tasks|
    ensures BoundTo(tasks, tasks[i].id) == tasks[i].dependsOn
  {
    if i < |tasks| - 1 {
      BoundToOwn(tasks[..|tasks| - 1], i);
    }
  }

  lemma UniqueIdsNeedNoRebinding(tasks: seq<Task>)
    requires UniqueIds(tasks)
    ensures Rebound(tasks) == tasks
  {
    forall i | 0 <= i < |tasks| ensures Rebound(tasks)[i] == tasks[i] {
      BoundToOwn(tasks, i);
    }
  }

  /** The dependency map of the second implementation. */
  method BuildDependencyMap(steps: seq<Task>) returns (dependsOn: map<string, set<string>>)
    ensures dependsOn.Keys == Ids(steps)
    ensures forall x :: x in dependsOn ==> dependsOn[x] == Elements(BoundTo(steps, x))
  {
    dependsOn := map[];
    for i := 0 to |steps|
      invariant dependsOn.Keys == Ids(steps[..i])
      invariant forall x :: x in dependsOn ==> dependsOn[x] == Elements(BoundTo(steps[..i], x))
    {
      assert steps[..i + 1][..i] == steps[..i];
      assert Ids(steps[..i + 1]) == Ids(steps[..i]) + {steps[i].id};
      dependsOn := dependsOn[steps[i].id := set d | d in steps[i].dependsOn];
    }
    assert steps[..|steps|] == steps;
  }

  /** One level of the second implementation. */
  method CollectLevel(steps: seq<Task>, dependsOn: map<string, set<string>>, executed: set<string>)
    returns (level: seq<string>)
    requires dependsOn.Keys == Ids(steps)
    requires forall x :: x in dependsOn ==> dependsOn[x] == Elements(BoundTo(steps, x))
    ensures level == Ready(Rebound(steps), executed)
  {
    ghost var tasks := Rebound(steps);
    level := [];
    for i := 0 to |steps|
      invariant level == Ready(tasks[..i], executed)
    {
      assert tasks[..i + 1][..i] == tasks[..i];
      assert steps[i].id in Ids(steps);
      if steps[i].id !in executed && dependsOn[steps[i].id] <= executed {
        level := level + [steps[i].id];
      }
    }
    assert tasks[..|tasks|] == tasks;
  }

  method CollectIndependent(steps: seq<Task>) returns (independent: seq<string>)
    ensures independent == Ready(steps, {})
  {
    independent := [];
    for i := 0 to |steps|
      invariant independent == Ready(steps[..i], {})
    {
      assert steps[..i + 1][..i] == steps[..i];
      assert steps[i].dependsOn != [] ==> steps[i].dependsOn[0] in steps[i].dependsOn;
      if steps[i].dependsOn == [] {
        independent := independent + [steps[i].id];
      }
    }
    assert steps[..|steps|] == steps;
  }

  method CollectLevels(steps: seq<Task>, dependsOn: map<string, set<string>>) returns (levels: seq<seq<string>>)
    requires dependsOn.Keys == Ids(steps)
    requires forall x :: x in dependsOn ==> dependsOn[x] == Elements(BoundTo(steps, x))
    ensures levels == Layers(Rebound(steps), {})
  {
    ghost var tasks := Rebound(steps);
    var executed: set<string> := {};
    levels := [];
    while |executed| < |steps|
      invariant executed <= Ids(tasks)
      invariant levels + Layers(tasks, executed) == Layers(tasks, {})
      decreases Ids(tasks) - executed
    {
      var level := CollectLevel(steps, dependsOn, executed);
      if level == [] {
        return;
      }
      OneRound(tasks, executed);
      Associate(levels, [level], Layers(tasks, executed + Elements(level)));
      levels := levels + [level];
      executed := executed + (set x | x in level);
    }
    NothingLeft(tasks, executed);
  }

  /** For any list of steps; when the names are unique, the levels are the groups of the first
      implementation, and the independent steps are the first level. */
  method DetermineParallelExecution(steps: seq<Task>)
    returns (maxWorkers: nat, levels: seq<seq<string>>, independent: seq<string>)
    ensures levels == Layers(Rebound(steps), {})
    ensures UniqueIds(steps) ==> levels == Layers(steps, {})
    ensures UniqueIds(steps) ==> independent == if levels == [] then [] else levels[0]
    ensures levels == [] ==> maxWorkers == 1
    ensures levels != [] ==> exists k :: 0 <= k < |levels| && maxWorkers == |levels[k]|
    ensures forall k :: 0 <= k < |levels| ==> |levels[k]| <= maxWorkers
  {
    var dependsOn := BuildDependencyMap(steps);
    independent := CollectIndependent(steps);
    levels := CollectLevels(steps, dependsOn);
    if UniqueIds(steps) {
      UniqueIdsNeedNoRebinding(steps);
    }
    maxWorkers := LongestLevel(levels);
  }

  method LongestLevel(levels: seq<seq<string>>) returns (m: nat)
    ensures levels == [] ==> m == 1
    ensures levels != [] ==> exists k :: 0 <= k < |levels| && m == |levels[k]|
    ensures forall k :: 0 <= k < |levels| ==> |levels[k]| <= m
  {
    if levels == [] {
      return 1;
    }
    m := |levels[0]|;
    for k := 1 to |levels|
      invariant exists j :: 0 <= j < |levels| && m == |levels[j]|
      invariant forall j :: 0 <= j < k ==> |levels[j]| <= m
    {
      if |levels[k]| > m {
        m := |levels[k]|;
      }
    }
  }
}
