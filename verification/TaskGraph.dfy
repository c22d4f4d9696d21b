/** `generate_dependency_graph` of `agents/task_decomposer.py`. */
module TaskGraph {
  import opened Scheduling
  import opened LayerLaws

  /** In the order of `category_order`. */
  datatype Category = Backend | Frontend | Tests | Docs

  function Order(c: Category): nat {
    match c
    case Backend => 0
    case Frontend => 1
    case Tests => 2
    case Docs => 3
  }

  class Subtask {
    const id: string
    const category: Category
    var dependsOn: seq<string>

    constructor (id: string, category: Category)
      ensures this.id == id && this.category == category && dependsOn == []
    {
      this.id, this.category, this.dependsOn := id, category, [];
    }
  }

  // ----- Stable sorting by category

  function OfCategory(s: seq<Subtask>, c: Category): seq<Subtask> {
    if s == [] then []
    else if s[0].category == c then [s[0]] + OfCategory(s[1..], c)
    else OfCategory(s[1..], c)
  }

  function StableSorted(s: seq<Subtask>): seq<Subtask> {
    OfCategory(s, Backend) + OfCategory(s, Frontend) + OfCategory(s, Tests) + OfCategory(s, Docs)
  }

  /** Backend before frontend before tests before docs. */
  predicate SortedByCategory(s: seq<Subtask>) {
    forall i, j :: 0 <= i < j < |s| ==>
      && (s[i].category == Frontend ==> s[j].category != Backend)
      && (s[i].category == Tests ==> s[j].category == Tests || s[j].category == Docs)
      && (s[i].category == Docs ==> s[j].category == Docs)
  }

  lemma {:induction false} OfCategoryHasCategory(s: seq<Subtask>, c: Category)
    ensures forall i :: 0 <= i < |OfCategory(s, c)| ==> OfCategory(s, c)[i].category == c
  {
    if s != [] {
      OfCategoryHasCategory(s[1..], c);
    }
  }

  lemma {:induction false} OfCategoryOfConcat(s: seq<Subtask>, t: seq<Subtask>, c: Category)
    ensures OfCategory(s + t, c) == OfCategory(s, c) + OfCategory(t, c)
  {
    if s == [] {
      assert s + t == t;
    } else {
      assert (s + t)[1..] == s[1..] + t;
      OfCategoryOfConcat(s[1..], t, c);
    }
  }

  lemma {:induction false} OfCategoryOfOne(s: seq<Subtask>, c: Category, d: Category)
    requires forall i :: 0 <= i < |s| ==> s[i].category == d
    ensures OfCategory(s, c) == if c == d then s else []
  {
    if s != [] {
      OfCategoryOfOne(s[1..], c, d);
    }
  }

  lemma SortSorts(s: seq<Subtask>)
    ensures SortedByCategory(StableSorted(s))
  {
    OfCategoryHasCategory(s, Backend);
    OfCategoryHasCategory(s, Frontend);
    OfCategoryHasCategory(s, Tests);
    OfCategoryHasCategory(s, Docs);
  }

  /** Within each category the sorted list is the original one. */
  lemma SortIsStable(s: seq<Subtask>, c: Category)
    ensures OfCategory(StableSorted(s), c) == OfCategory(s, c)
  {
    var b, f, t, d := OfCategory(s, Backend), OfCategory(s, Frontend), OfCategory(s, Tests), OfCategory(s, Docs);
    OfCategoryOfConcat(b + f + t, d, c);
    OfCategoryOfConcat(b + f, t, c);
    OfCategoryOfConcat(b, f, c);
    OfCategoryTwice(s, c, Backend);
    OfCategoryTwice(s, c, Frontend);
    OfCategoryTwice(s, c, Tests);
    OfCategoryTwice(s, c, Docs);
  }

  lemma OfCategoryTwice(s: seq<Subtask>, c: Category, d: Category)
    ensures OfCategory(OfCategory(s, d), c) == if c == d then OfCategory(s, d) else []
  {
    OfCategoryHasCategory(s, d);
    OfCategoryOfOne(OfCategory(s, d), c, d);
  }

  lemma {:induction false} OfCategoryMembers(s: seq<Subtask>, c: Category, x: Subtask)
    ensures x in OfCategory(s, c) <==> x in s && x.category == c
  {
    if s != [] {
      OfCategoryMembers(s[1..], c, x);
    }
  }

  lemma SortKeepsMembers(s: seq<Subtask>, x: Subtask)
    ensures x in StableSorted(s) <==> x in s
  {
    OfCategoryMembers(s, Backend, x);
    OfCategoryMembers(s, Frontend, x);
    OfCategoryMembers(s, Tests, x);
    OfCategoryMembers(s, Docs, x);
  }

  predicate Distinct(s: seq<Subtask>) {
    forall i, j :: 0 <= i < j < |s| ==> s[i] != s[j]
  }

  lemma {:induction false} OfCategoryStaysDistinct(s: seq<Subtask>, c: Category)
    requires Distinct(s)
    ensures Distinct(OfCategory(s, c))
  {
    if s != [] {
      OfCategoryStaysDistinct(s[1..], c);
      OfCategoryMembers(s[1..], c, s[0]);
      assert s[0] !in s[1..];
    }
  }

  lemma SortStaysDistinct(s: seq<Subtask>)
    requires Distinct(s)
    ensures Distinct(StableSorted(s))
  {
    OfCategoryStaysDistinct(s, Backend);
    OfCategoryStaysDistinct(s, Frontend);
    OfCategoryStaysDistinct(s, Tests);
    OfCategoryStaysDistinct(s, Docs);
    OfCategoryHasCategory(s, Backend);
    OfCategoryHasCategory(s, Frontend);
    OfCategoryHasCategory(s, Tests);
    OfCategoryHasCategory(s, Docs);
  }

  // ----- Filling in dependencies

  /** The dependencies of a task after the tasks `before` it have been offered in order. */
  function Filled(own: string, initial: seq<string>, before: seq<string>): seq<string> {
    if before == [] then initial else
      var filled := Filled(own, initial, before[..|before| - 1]);
      var offer := before[|before| - 1];
      if offer == own || offer in filled then filled else filled + [offer]
  }

  /** The dependencies a task had come first; after them are the other ids offered, each once. */
  lemma {:induction false} FilledAdds(own: string, initial: seq<string>, before: seq<string>)
    ensures
      var r := Filled(own, initial, before);
      && initial <= r
      && (forall x :: x in r <==> x in initial || (x in before && x != own))
      && (forall i, j :: |initial| <= i < |r| && 0 <= j < i ==> r[i] != r[j])
  {
    if before != [] {
      var n := |before| - 1;
      FilledAdds(own, initial, before[..n]);
      assert before == before[..n] + [before[n]];
    }
  }

  function IdsOf(s: seq<Subtask>): (r: seq<string>)
    ensures |r| == |s|
  {
    seq(|s|, i requires 0 <= i < |s| => s[i].id)
  }

  method OfferAll(sorted: seq<Subtask>, index: nat)
    requires index < |sorted| && SortedByCategory(sorted) && Distinct(sorted)
    modifies sorted[index]
    ensures sorted[index].dependsOn == Filled(sorted[index].id, old(sorted[index].dependsOn), IdsOf(sorted[..index]))
    ensures forall i :: 0 <= i < |sorted| && i != index ==> sorted[i].dependsOn == old(sorted[i].dependsOn)
  {
    var current := sorted[index];
    for other := 0 to |sorted|
      invariant current.dependsOn ==
                Filled(current.id, old(current.dependsOn), IdsOf(sorted[..if other < index then other else index]))
    {
      var o := sorted[other];
      if other < index {
        assert IdsOf(sorted[..other + 1])[..other] == IdsOf(sorted[..other]);
      }
      if current.id != o.id {
        if Order(current.category) > Order(o.category) {
          if o.id !in current.dependsOn {
            current.dependsOn := current.dependsOn + [o.id];
          }
        } else if current.category == o.category && index > other {
          if o.id !in current.dependsOn {
            current.dependsOn := current.dependsOn + [o.id];
          }
        }
      }
    }
  }

  /** The outer loop. */
  method FillAll(sorted: seq<Subtask>)
    requires SortedByCategory(sorted) && Distinct(sorted)
    modifies sorted
    ensures forall i :: 0 <= i < |sorted| ==>
              sorted[i].dependsOn == Filled(sorted[i].id, old(sorted[i].dependsOn), IdsOf(sorted[..i]))
  {
    hide Filled, IdsOf;
    for index := 0 to |sorted|
      invariant forall i :: 0 <= i < index ==>
                  sorted[i].dependsOn == Filled(sorted[i].id, old(sorted[i].dependsOn), IdsOf(sorted[..i]))
      invariant forall i :: index <= i < |sorted| ==> sorted[i].dependsOn == old(sorted[i].dependsOn)
    {
      OfferAll(sorted, index);
    }
  }

  /** Every task is made to depend on all tasks that precede it in the stable category order. */
  method GenerateDependencyGraph(subtasks: seq<Subtask>) returns (sorted: seq<Subtask>)
    requires Distinct(subtasks)
    modifies subtasks
    ensures sorted == StableSorted(subtasks)
    ensures forall i :: 0 <= i < |sorted| ==>
              sorted[i] in subtasks
              && sorted[i].dependsOn == Filled(sorted[i].id, old(sorted[i].dependsOn), IdsOf(sorted[..i]))
  {
    sorted := StableSorted(subtasks);
    SortStaysDistinct(subtasks);
    SortSorts(subtasks);
    forall i | 0 <= i < |sorted| ensures sorted[i] in subtasks {
      SortKeepsMembers(subtasks, sorted[i]);
    }
    FillAll(sorted);
  }

  // ----- What comes of it

  /** The graph as `find_parallelizable_tasks` receives it. */
  function GraphOf(sorted: seq<Subtask>): (r: seq<Task>)
    reads sorted
    ensures |r| == |sorted|
  {
    seq(|sorted|, i requires 0 <= i < |sorted| reads sorted => Task(sorted[i].id, sorted[i].dependsOn))
  }

  lemma {:induction false} FilledFromNothing(own: string, before: seq<string>)
    requires own !in before
    requires forall i, j :: 0 <= i < j < |before| ==> before[i] != before[j]
    ensures Filled(own, [], before) == before
  {
    if before != [] {
      FilledFromNothing(own, before[..|before| - 1]);
    }
  }

  /** A list where each task depends on exactly all earlier ones. */
  ghost predicate Total(tasks: seq<Task>) {
    forall i :: 0 <= i < |tasks| ==> Elements(tasks[i].dependsOn) == Ids(tasks[..i])
  }

  lemma IdInPrefix(tasks: seq<Task>, n: nat, i: nat)
    requires UniqueIds(tasks) && n <= |tasks| && i < |tasks|
    ensures tasks[i].id in Ids(tasks[..n]) <==> i < n
  {
    if i < n {
      assert tasks[..n][i] == tasks[i];
    }
  }

  lemma TotalReady(tasks: seq<Task>, n: nat, i: nat)
    requires UniqueIds(tasks) && Total(tasks) && n <= |tasks| && i < |tasks|
    ensures IsReady(tasks[i], Ids(tasks[..n])) <==> i == n
  {
    IdInPrefix(tasks, n, i);
    if i > n {
      IdInPrefix(tasks, i, n);
      IdInPrefix(tasks, n, n);
      assert tasks[n].id in Elements(tasks[i].dependsOn);
    } else if i == n {
      assert forall d :: d in tasks[i].dependsOn ==> d in Elements(tasks[i].dependsOn);
    }
  }

  lemma TotalReadySet(tasks: seq<Task>, n: nat)
    requires UniqueIds(tasks) && Total(tasks) && n < |tasks|
    ensures ReadySet(tasks, Ids(tasks[..n])) == {tasks[n].id}
    ensures Ids(tasks[..n + 1]) == Ids(tasks[..n]) + {tasks[n].id}
  {
    forall i | 0 <= i < |tasks| ensures IsReady(tasks[i], Ids(tasks[..n])) <==> i == n {
      TotalReady(tasks, n, i);
    }
  }

  lemma {:induction false} SoleReady(tasks: seq<Task>, completed: set<string>, n: nat)
    requires n < |tasks|
    requires forall i :: 0 <= i < |tasks| ==> (IsReady(tasks[i], completed) <==> i == n)
    ensures Ready(tasks, completed) == [tasks[n].id]
  {
    var last := |tasks| - 1;
    if n < last {
      SoleReady(tasks[..last], completed, n);
    } else {
      NoneReady(tasks[..last], completed);
    }
  }

  lemma {:induction false} NoneReady(tasks: seq<Task>, completed: set<string>)
    requires forall i :: 0 <= i < |tasks| ==> !IsReady(tasks[i], completed)
    ensures Ready(tasks, completed) == []
  {
    if tasks != [] {
      NoneReady(tasks[..|tasks| - 1], completed);
    }
  }

  lemma TotalRound(tasks: seq<Task>, n: nat)
    requires UniqueIds(tasks) && Total(tasks) && n <= |tasks|
    ensures Layers(tasks, Ids(tasks[..n])) ==
            if n == |tasks| then [] else [[tasks[n].id]] + Layers(tasks, Ids(tasks[..n + 1]))
  {
    var done := Ids(tasks[..n]);
    forall i | 0 <= i < |tasks| ensures IsReady(tasks[i], done) <==> i == n {
      TotalReady(tasks, n, i);
    }
    if n == |tasks| {
      NoneReady(tasks, done);
    } else {
      SoleReady(tasks, done, n);
      TotalReadySet(tasks, n);
      ReadyIsReadySet(tasks, done);
    }
  }

  /** The groups are single tasks, in list order from the n-th on. */
  predicate Singles(tasks: seq<Task>, n: nat, groups: seq<seq<string>>) {
    n + |groups| == |tasks| && forall k :: n <= k < |tasks| ==> groups[k - n] == [tasks[k].id]
  }

  lemma OneMoreSingle(tasks: seq<Task>, n: nat, groups: seq<seq<string>>)
    requires n < |tasks| && Singles(tasks, n + 1, groups)
    ensures Singles(tasks, n, [[tasks[n].id]] + groups)
  {
  }

  lemma {:induction false} TotalLayers(tasks: seq<Task>, n: nat)
    requires UniqueIds(tasks) && Total(tasks) && n <= |tasks|
    ensures Singles(tasks, n, Layers(tasks, Ids(tasks[..n])))
    decreases |tasks| - n
  {
    TotalRound(tasks, n);
    if n < |tasks| {
      TotalLayers(tasks, n + 1);
      OneMoreSingle(tasks, n, Layers(tasks, Ids(tasks[..n + 1])));
    }
  }

  lemma SingleIsNotDoomed(tasks: seq<Task>, i: nat)
    requires UniqueIds(tasks) && i < |tasks| && Singles(tasks, 0, Layers(tasks, {}))
    ensures !Doomed(tasks, tasks[i].id)
  {
    assert Layers(tasks, {})[i - 0] == [tasks[i].id];
    assert tasks[i].id in Layers(tasks, {})[i];
    UnplacedExactly(tasks, tasks[i].id);
  }

  lemma TotalGraphIsAChain(tasks: seq<Task>)
    requires UniqueIds(tasks) && Total(tasks)
    ensures Singles(tasks, 0, Layers(tasks, {}))
  {
    TotalLayers(tasks, 0);
    assert Ids(tasks[..0]) == {};
  }

  /** With distinct ids and no dependencies to begin with, the graph gives every task exactly its
      predecessors, has no cycle and no unknown dependency, and the parallel groups are single tasks
      in list order. */
  lemma GraphIsAChain(sorted: seq<Subtask>)
    requires forall i, j :: 0 <= i < j < |sorted| ==> sorted[i].id != sorted[j].id
    requires forall i :: 0 <= i < |sorted| ==> sorted[i].dependsOn == Filled(sorted[i].id, [], IdsOf(sorted[..i]))
    ensures forall i :: 0 <= i < |sorted| ==> sorted[i].dependsOn == IdsOf(sorted[..i])
    ensures Singles(GraphOf(sorted), 0, Layers(GraphOf(sorted), {}))
    ensures forall i :: 0 <= i < |sorted| ==> !Doomed(GraphOf(sorted), sorted[i].id)
  {
    var tasks := GraphOf(sorted);
    forall i | 0 <= i < |sorted| ensures sorted[i].dependsOn == IdsOf(sorted[..i]) {
      FilledFromNothing(sorted[i].id, IdsOf(sorted[..i]));
    }
    forall i | 0 <= i < |tasks| ensures Elements(tasks[i].dependsOn) == Ids(tasks[..i]) {
      IdsOfPrefix(sorted, i);
    }
    TotalGraphIsAChain(tasks);
    forall i | 0 <= i < |sorted| ensures !Doomed(tasks, sorted[i].id) {
      SingleIsNotDoomed(tasks, i);
    }
  }

  lemma DistinctIdsStay(subtasks: seq<Subtask>)
    requires forall i, j :: 0 <= i < j < |subtasks| ==> subtasks[i].id != subtasks[j].id
    ensures Distinct(subtasks)
    ensures
      var sorted := StableSorted(subtasks);
      forall i, j :: 0 <= i < j < |sorted| ==> sorted[i].id != sorted[j].id
  {
    var sorted := StableSorted(subtasks);
    SortStaysDistinct(subtasks);
    forall i, j | 0 <= i < j < |sorted| ensures sorted[i].id != sorted[j].id {
      SortKeepsMembers(subtasks, sorted[i]);
      SortKeepsMembers(subtasks, sorted[j]);
      var a :| 0 <= a < |subtasks| && subtasks[a] == sorted[i];
      var b :| 0 <= b < |subtasks| && subtasks[b] == sorted[j];
      assert a < b || b < a;
    }
  }

  predicate NewSubtasks(subtasks: seq<Subtask>)
    reads subtasks
  {
    && (forall i, j :: 0 <= i < j < |subtasks| ==> subtasks[i].id != subtasks[j].id)
    && (forall s :: s in subtasks ==> s.dependsOn == [])
  }

  /** The graph of new subtasks with distinct ids. */
  method BuildChain(subtasks: seq<Subtask>) returns (sorted: seq<Subtask>)
    requires NewSubtasks(subtasks)
    modifies subtasks
    ensures sorted == StableSorted(subtasks)
    ensures forall i :: 0 <= i < |sorted| ==> sorted[i].dependsOn == Filled(sorted[i].id, [], IdsOf(sorted[..i]))
  {
    DistinctIdsStay(subtasks);
    sorted := GenerateDependencyGraph(subtasks);
  }

  /** Building the graph of any new subtasks with distinct ids and grouping it: one task at a time, in the
      stable category order. */
  method ScheduleSubtasks(subtasks: seq<Subtask>) returns (sorted: seq<Subtask>, groups: seq<seq<string>>)
    requires NewSubtasks(subtasks)
    modifies subtasks
    ensures sorted == StableSorted(subtasks) && |sorted| == |subtasks|
    ensures forall i :: 0 <= i < |sorted| ==> sorted[i].dependsOn == IdsOf(sorted[..i])
    ensures |groups| == |sorted| && forall k :: 0 <= k < |sorted| ==> groups[k] == [sorted[k].id]
  {
    DistinctIdsStay(subtasks);
    SortKeepsLength(subtasks);
    sorted := BuildChain(subtasks);
    GraphIsAChain(sorted);
    groups := FindParallelizableTasks(GraphOf(sorted));
    SinglesOf(sorted, groups);
  }

  lemma SinglesOf(sorted: seq<Subtask>, groups: seq<seq<string>>)
    requires Singles(GraphOf(sorted), 0, groups)
    ensures |groups| == |sorted| && forall k :: 0 <= k < |sorted| ==> groups[k] == [sorted[k].id]
  {
    var tasks := GraphOf(sorted);
    forall k | 0 <= k < |sorted| ensures groups[k] == [sorted[k].id] {
      assert groups[k - 0] == [tasks[k].id];
    }
  }

  lemma {:induction false} SortKeepsLength(s: seq<Subtask>)
    ensures |StableSorted(s)| == |s|
  {
    if s != [] {
      SortKeepsLength(s[1..]);
    }
  }

  lemma IdsOfPrefix(sorted: seq<Subtask>, i: nat)
    requires i <= |sorted|
    ensures Elements(IdsOf(sorted[..i])) == Ids(GraphOf(sorted)[..i])
  {
    var tasks, before := GraphOf(sorted), IdsOf(sorted[..i]);
    assert forall k :: 0 <= k < i ==> before[k] == tasks[..i][k].id;
    assert forall k :: 0 <= k < i ==> before[k] in before;
  }
}
