/** What the groups of the level-by-level scheduler are: longest-path depths, and nothing else. */
module LayerLaws {
  import opened Scheduling

  // ----- Reference notions

  ghost predicate DependsOn(tasks: seq<Task>, id: string, dependency: string) {
    exists i :: 0 <= i < |tasks| && tasks[i].id == id && dependency in tasks[i].dependsOn
  }

  /** A chain of dependencies, each task followed by one it depends on. */
  ghost predicate Trail(tasks: seq<Task>, p: seq<string>) {
    |p| > 0 && forall i :: 0 <= i < |p| - 1 ==> DependsOn(tasks, p[i], p[i + 1])
  }

  /** A chain through known tasks only. */
  ghost predicate KnownTrail(tasks: seq<Task>, p: seq<string>) {
    Trail(tasks, p) && forall i :: 0 <= i < |p| ==> p[i] in Ids(tasks)
  }

  ghost predicate HasTrail(tasks: seq<Task>, id: string, length: nat) {
    exists p :: KnownTrail(tasks, p) && p[0] == id && |p| == length
  }

  ghost predicate Repeats(p: seq<string>) {
    exists i, j :: 0 <= i < j < |p| && p[i] == p[j]
  }

  /** The task can reach an unknown task or a cycle. */
  ghost predicate Doomed(tasks: seq<Task>, id: string) {
    exists p :: Trail(tasks, p) && p[0] == id && (p[|p| - 1] !in Ids(tasks) || Repeats(p))
  }

  /** Some tasks, each assigned a round, with the dependencies of each in earlier rounds. */
  ghost predicate ValidSchedule(tasks: seq<Task>, round: map<string, nat>) {
    forall id :: id in round ==>
      && id in Ids(tasks)
      && forall d :: DependsOn(tasks, id, d) ==> d in round && round[d] < round[id]
  }

  // ----- Rounds

  /** The tasks completed after the first n rounds. */
  function Done(tasks: seq<Task>, n: nat): set<string>
    decreases n
  {
    if n == 0 then {} else Done(tasks, n - 1) + ReadySet(tasks, Done(tasks, n - 1))
  }

  ghost predicate InLayer(tasks: seq<Task>, id: string, k: nat) {
    id in ReadySet(tasks, Done(tasks, k))
  }

  lemma OneMoreRound(tasks: seq<Task>, n: nat, done: set<string>)
    requires done == Done(tasks, n)
    ensures Done(tasks, n + 1) == done + ReadySet(tasks, done)
  {
  }

  lemma StaysOneRound(tasks: seq<Task>, id: string, n: nat, done: set<string>)
    requires done == Done(tasks, n) && id in done
    ensures id in Done(tasks, n + 1)
  {
    OneMoreRound(tasks, n, done);
  }

  /** What is completed stays completed. */
  lemma {:induction false} Stays(tasks: seq<Task>, id: string, m: nat, n: nat)
    requires m <= n && id in Done(tasks, m)
    ensures id in Done(tasks, n)
    decreases n - m
  {
    if m < n {
      StaysOneRound(tasks, id, m, Done(tasks, m));
      Stays(tasks, id, m + 1, n);
    }
  }

  lemma {:induction false} DoneHasLayer(tasks: seq<Task>, id: string, n: nat) returns (k: nat)
    requires id in Done(tasks, n)
    ensures k < n && InLayer(tasks, id, k)
    decreases n
  {
    if id in Done(tasks, n - 1) {
      k := DoneHasLayer(tasks, id, n - 1);
    } else {
      k := n - 1;
    }
  }

  lemma LayerIsUnique(tasks: seq<Task>, id: string, j: nat, k: nat)
    requires InLayer(tasks, id, j) && InLayer(tasks, id, k)
    ensures j == k
  {
    if j < k {
      NotInLater(tasks, id, j, k);
    } else if k < j {
      NotInLater(tasks, id, k, j);
    }
  }

  lemma NotInLater(tasks: seq<Task>, id: string, j: nat, k: nat)
    requires InLayer(tasks, id, j) && j < k
    ensures id in Done(tasks, k) && !InLayer(tasks, id, k)
  {
    OneMoreRound(tasks, j, Done(tasks, j));
    Stays(tasks, id, j + 1, k);
  }

  /** A known task is ready exactly when it is not completed and its dependencies are. */
  lemma ReadyExactly(tasks: seq<Task>, id: string, completed: set<string>)
    requires UniqueIds(tasks) && id in Ids(tasks)
    ensures id in ReadySet(tasks, completed)
            <==> id !in completed && forall d :: DependsOn(tasks, id, d) ==> d in completed
  {
    var i :| 0 <= i < |tasks| && tasks[i].id == id;
    assert forall d :: DependsOn(tasks, id, d) <==> d in tasks[i].dependsOn;
  }

  lemma FirstGroup(tasks: seq<Task>, done: set<string>)
    ensures Ready(tasks, done) == [] <==> ReadySet(tasks, done) == {}
    ensures Layers(tasks, done) ==
            if Ready(tasks, done) == [] then [] else [Ready(tasks, done)] + Layers(tasks, done + ReadySet(tasks, done))
  {
    ReadyIsReadySet(tasks, done);
    assert Ready(tasks, done) != [] ==> Ready(tasks, done)[0] in Elements(Ready(tasks, done));
  }

  /** Group k of the groups that remain after n rounds is what is ready after n + k rounds. */
  ghost predicate Matches(tasks: seq<Task>, layers: seq<seq<string>>, n: nat, k: nat)
    decreases k
  {
    if layers == [] then Ready(tasks, Done(tasks, n + k)) == []
    else if k == 0 then layers[0] == Ready(tasks, Done(tasks, n))
    else Matches(tasks, layers[1..], n + 1, k - 1)
  }

  lemma {:induction false} MatchesMeans(tasks: seq<Task>, layers: seq<seq<string>>, n: nat, k: nat, ready: seq<string>)
    requires Matches(tasks, layers, n, k) && ready == Ready(tasks, Done(tasks, n + k))
    ensures ready == if k < |layers| then layers[k] else []
    decreases k
  {
    if layers != [] && k > 0 {
      assert n + 1 + (k - 1) == n + k;
      MatchesMeans(tasks, layers[1..], n + 1, k - 1, ready);
    }
  }

  lemma MatchesShifted(tasks: seq<Task>, first: seq<string>, rest: seq<seq<string>>, n: nat, k: nat)
    requires k > 0 && Matches(tasks, rest, n + 1, k - 1)
    ensures Matches(tasks, [first] + rest, n, k)
  {
    assert ([first] + rest)[1..] == rest;
  }

  lemma NextLayers(tasks: seq<Task>, n: nat)
    requires Ready(tasks, Done(tasks, n)) != []
    ensures Layers(tasks, Done(tasks, n)) == [Ready(tasks, Done(tasks, n))] + Layers(tasks, Done(tasks, n + 1))
  {
    FirstGroup(tasks, Done(tasks, n));
    OneMoreRound(tasks, n, Done(tasks, n));
  }

  lemma NoLayers(tasks: seq<Task>, n: nat, k: nat)
    requires Ready(tasks, Done(tasks, n)) == []
    ensures Layers(tasks, Done(tasks, n)) == [] && Ready(tasks, Done(tasks, n + k)) == []
  {
    FirstGroup(tasks, Done(tasks, n));
    StuckForGood(tasks, n, n + k);
  }

  lemma {:induction false} LayersFrom(tasks: seq<Task>, n: nat, k: nat)
    ensures Matches(tasks, Layers(tasks, Done(tasks, n)), n, k)
    decreases k
  {
    if Ready(tasks, Done(tasks, n)) == [] {
      NoLayers(tasks, n, k);
    } else {
      NextLayers(tasks, n);
      if k > 0 {
        LayersFrom(tasks, n + 1, k - 1);
        MatchesShifted(tasks, Ready(tasks, Done(tasks, n)), Layers(tasks, Done(tasks, n + 1)), n, k);
      }
    }
  }

  lemma {:induction false} StuckForGood(tasks: seq<Task>, m: nat, n: nat)
    requires m <= n && Ready(tasks, Done(tasks, m)) == []
    ensures Done(tasks, n) == Done(tasks, m)
    decreases n
  {
    if m < n {
      StuckForGood(tasks, m, n - 1);
      FirstGroup(tasks, Done(tasks, n - 1));
      OneMoreRound(tasks, n - 1, Done(tasks, n - 1));
    }
  }

  /** Group k is what is ready after k rounds, and there is no group k when nothing is. */
  lemma GroupsInTurn(tasks: seq<Task>, k: nat)
    ensures Ready(tasks, Done(tasks, k)) == if k < |Layers(tasks, {})| then Layers(tasks, {})[k] else []
  {
    LayersFrom(tasks, 0, k);
    MatchesMeans(tasks, Layers(tasks, Done(tasks, 0)), 0, k, Ready(tasks, Done(tasks, k)));
  }

  lemma GroupIsLayer(tasks: seq<Task>, id: string, k: nat)
    ensures k < |Layers(tasks, {})| && id in Layers(tasks, {})[k] <==> InLayer(tasks, id, k)
  {
    GroupsInTurn(tasks, k);
    ReadyIsReadySet(tasks, Done(tasks, k));
    assert id in Ready(tasks, Done(tasks, k)) <==> id in Elements(Ready(tasks, Done(tasks, k)));
  }

  /** What is in no group is in no layer. */
  ghost predicate Placed(tasks: seq<Task>, id: string) {
    exists k :: 0 <= k < |Layers(tasks, {})| && id in Layers(tasks, {})[k]
  }

  lemma PlacedExactly(tasks: seq<Task>, id: string)
    ensures Placed(tasks, id) <==> exists k: nat :: InLayer(tasks, id, k)
    ensures Placed(tasks, id) <==> id in Done(tasks, |Layers(tasks, {})|)
  {
    var n := |Layers(tasks, {})|;
    forall k: nat ensures k < n && id in Layers(tasks, {})[k] <==> InLayer(tasks, id, k) {
      GroupIsLayer(tasks, id, k);
    }
    if k: nat :| InLayer(tasks, id, k) {
      NotInLater(tasks, id, k, n);
    }
    if id in Done(tasks, n) {
      var k := DoneHasLayer(tasks, id, n);
    }
  }

  // ----- A layer is a longest path

  /** Along any trail from a task in layer k, the i-th task is known and completed after k - i + 1 rounds. */
  lemma {:induction false} TrailDescends(tasks: seq<Task>, p: seq<string>, k: nat, i: nat)
    requires UniqueIds(tasks) && Trail(tasks, p) && InLayer(tasks, p[0], k) && i < |p|
    ensures i <= k && exists j: nat :: j <= k - i && InLayer(tasks, p[i], j)
    decreases i
  {
    if i == 0 {
      assert InLayer(tasks, p[0], k);
    } else {
      TrailDescends(tasks, p, k, i - 1);
      var j: nat :| j <= k - (i - 1) && InLayer(tasks, p[i - 1], j);
      assert p[i - 1] in Ids(tasks);
      ReadyExactly(tasks, p[i - 1], Done(tasks, j));
      assert DependsOn(tasks, p[i - 1], p[i]);
      var j' := DoneHasLayer(tasks, p[i], j);
      assert j' <= k - i;
    }
  }

  lemma DependencyOneLayerBelow(tasks: seq<Task>, id: string, k: nat) returns (d: string)
    requires UniqueIds(tasks) && k > 0 && InLayer(tasks, id, k)
    ensures DependsOn(tasks, id, d) && InLayer(tasks, d, k - 1)
  {
    ReadyExactly(tasks, id, Done(tasks, k));
    ReadyExactly(tasks, id, Done(tasks, k - 1));
    d :| DependsOn(tasks, id, d) && d !in Done(tasks, k - 1);
  }

  lemma {:induction false} TrailOfLayer(tasks: seq<Task>, id: string, k: nat) returns (p: seq<string>)
    requires UniqueIds(tasks) && InLayer(tasks, id, k)
    ensures KnownTrail(tasks, p) && p[0] == id && |p| == k + 1
    decreases k
  {
    assert id in Ids(tasks);
    if k == 0 {
      p := [id];
    } else {
      var d := DependencyOneLayerBelow(tasks, id, k);
      var rest := TrailOfLayer(tasks, d, k - 1);
      p := [id] + rest;
      assert forall i :: 0 <= i < |rest| ==> p[i + 1] == rest[i];
    }
  }

  // ----- The tasks left over

  /** From a task that is never placed, a trail of distinct unplaced tasks can be followed until it
      leaves the known tasks or comes back to itself. */
  lemma {:induction false} UnplacedIsDoomed(tasks: seq<Task>, p: seq<string>)
    requires UniqueIds(tasks) && KnownTrail(tasks, p) && !Repeats(p)
    requires forall i :: 0 <= i < |p| ==> !Placed(tasks, p[i])
    ensures Doomed(tasks, p[0])
    decreases |Ids(tasks) - Elements(p)|
  {
    var d := UnplacedDependency(tasks, p[|p| - 1]);
    var longer := p + [d];
    TrailGrows(tasks, p, d);
    if d in Ids(tasks) && !Repeats(longer) {
      UnplacedIsDoomed(tasks, longer);
    }
  }

  lemma TrailGrows(tasks: seq<Task>, p: seq<string>, d: string)
    requires KnownTrail(tasks, p) && DependsOn(tasks, p[|p| - 1], d)
    ensures Trail(tasks, p + [d]) && (p + [d])[0] == p[0] && (p + [d])[|p|] == d
    ensures d in Ids(tasks) ==> KnownTrail(tasks, p + [d])
    ensures d in Ids(tasks) && !Repeats(p + [d]) ==>
              |Ids(tasks) - Elements(p + [d])| < |Ids(tasks) - Elements(p)|
  {
    var longer := p + [d];
    if d in Ids(tasks) && !Repeats(longer) {
      forall i | 0 <= i < |p| ensures p[i] != d {
        assert longer[i] != longer[|p|];
      }
      assert Elements(longer) == Elements(p) + {d};
      assert Ids(tasks) - Elements(longer) == (Ids(tasks) - Elements(p)) - {d};
    }
  }

  lemma UnplacedDependency(tasks: seq<Task>, id: string) returns (d: string)
    requires UniqueIds(tasks) && id in Ids(tasks) && !Placed(tasks, id)
    ensures DependsOn(tasks, id, d) && !Placed(tasks, d)
  {
    var n := |Layers(tasks, {})|;
    PlacedExactly(tasks, id);
    ReadyExactly(tasks, id, Done(tasks, n));
    GroupsInTurn(tasks, n);
    FirstGroup(tasks, Done(tasks, n));
    d :| DependsOn(tasks, id, d) && d !in Done(tasks, n);
    PlacedExactly(tasks, d);
  }

  lemma PlacedDoesNotComeBack(tasks: seq<Task>, p: seq<string>, k: nat, i: nat, j: nat)
    requires UniqueIds(tasks) && Trail(tasks, p) && InLayer(tasks, p[0], k) && i < j < |p|
    ensures p[i] != p[j]
  {
    TrailDescends(tasks, p, k, i);
    var l: nat :| l <= k - i && InLayer(tasks, p[i], l);
    var tail := p[i..];
    assert forall m :: 0 <= m < |tail| ==> tail[m] == p[i + m];
    TrailDescends(tasks, tail, l, j - i);
    if p[i] == p[j] {
      var l': nat :| l' <= l - (j - i) && InLayer(tasks, p[j], l');
      LayerIsUnique(tasks, p[i], l, l');
    }
  }

  /** The tasks in no group are exactly those that can reach a cycle or an unknown dependency. */
  lemma UnplacedExactly(tasks: seq<Task>, id: string)
    requires UniqueIds(tasks) && id in Ids(tasks)
    ensures !Placed(tasks, id) <==> Doomed(tasks, id)
  {
    if Placed(tasks, id) {
      PlacedExactly(tasks, id);
      var k: nat :| InLayer(tasks, id, k);
      forall p | Trail(tasks, p) && p[0] == id ensures p[|p| - 1] in Ids(tasks) && !Repeats(p) {
        TrailDescends(tasks, p, k, |p| - 1);
        forall i, j | 0 <= i < j < |p| ensures p[i] != p[j] {
          PlacedDoesNotComeBack(tasks, p, k, i, j);
        }
      }
    } else {
      UnplacedIsDoomed(tasks, [id]);
    }
  }

  /** A task is in group k exactly when it can reach neither a cycle nor an unknown dependency and its
      longest chain of dependencies has k + 1 tasks. */
  lemma GroupIsLongestPath(tasks: seq<Task>, id: string, k: nat)
    requires UniqueIds(tasks) && id in Ids(tasks)
    ensures k < |Layers(tasks, {})| && id in Layers(tasks, {})[k] <==>
              !Doomed(tasks, id) && HasTrail(tasks, id, k + 1) && !HasTrail(tasks, id, k + 2)
  {
    GroupIsLayer(tasks, id, k);
    UnplacedExactly(tasks, id);
    PlacedExactly(tasks, id);
    if !Doomed(tasks, id) {
      var j: nat :| InLayer(tasks, id, j);
      var p := TrailOfLayer(tasks, id, j);
      assert HasTrail(tasks, id, j + 1);
      forall q | KnownTrail(tasks, q) && q[0] == id ensures |q| <= j + 1 {
        TrailDescends(tasks, q, j, |q| - 1);
      }
      if InLayer(tasks, id, k) {
        LayerIsUnique(tasks, id, j, k);
      } else if HasTrail(tasks, id, k + 1) {
        assert k < j;
        var front := p[..k + 2];
        assert KnownTrail(tasks, front);
        assert HasTrail(tasks, id, k + 2);
      }
    }
  }

  // ----- No schedule does better

  lemma {:induction false} ScheduleLagsBehind(tasks: seq<Task>, round: map<string, nat>, id: string, n: nat)
    requires UniqueIds(tasks) && ValidSchedule(tasks, round) && id in round && round[id] < n
    ensures id in Done(tasks, n)
    decreases n
  {
    forall d | DependsOn(tasks, id, d) ensures d in Done(tasks, n - 1) {
      ScheduleLagsBehind(tasks, round, d, n - 1);
    }
    ReadyExactly(tasks, id, Done(tasks, n - 1));
  }

  /** Whatever a valid schedule runs, the groups contain, and no later. */
  lemma NoScheduleIsEarlier(tasks: seq<Task>, round: map<string, nat>, id: string)
    requires UniqueIds(tasks) && ValidSchedule(tasks, round) && id in round
    ensures exists k :: 0 <= k < |Layers(tasks, {})| && id in Layers(tasks, {})[k] && k <= round[id]
  {
    ScheduleLagsBehind(tasks, round, id, round[id] + 1);
    var k := DoneHasLayer(tasks, id, round[id] + 1);
    GroupIsLayer(tasks, id, k);
  }

  /** The groups are themselves a valid schedule. */
  lemma GroupsAreASchedule(tasks: seq<Task>, round: map<string, nat>)
    requires UniqueIds(tasks)
    requires forall id :: id in round <==> Placed(tasks, id)
    requires forall id :: id in round ==> round[id] < |Layers(tasks, {})| && id in Layers(tasks, {})[round[id]]
    ensures ValidSchedule(tasks, round)
  {
    forall id, d | id in round && DependsOn(tasks, id, d)
      ensures id in Ids(tasks) && d in round && round[d] < round[id] {
      GroupIsLayer(tasks, id, round[id]);
      assert id in Ids(tasks);
      ReadyExactly(tasks, id, Done(tasks, round[id]));
      var k := DoneHasLayer(tasks, d, round[id]);
      PlacedExactly(tasks, d);
      GroupIsLayer(tasks, d, round[d]);
      LayerIsUnique(tasks, d, k, round[d]);
    }
    forall id | id in round ensures id in Ids(tasks) {
      GroupIsLayer(tasks, id, round[id]);
    }
  }

  /** Every placed task is listed exactly once. */
  lemma GroupsDoNotRepeat(tasks: seq<Task>, j: nat, k: nat, a: nat, b: nat)
    requires UniqueIds(tasks) && j < |Layers(tasks, {})| && k < |Layers(tasks, {})|
    requires a < |Layers(tasks, {})[j]| && b < |Layers(tasks, {})[k]| && (j != k || a != b)
    ensures Layers(tasks, {})[j][a] != Layers(tasks, {})[k][b]
  {
    var x, y := Layers(tasks, {})[j][a], Layers(tasks, {})[k][b];
    GroupIsLayer(tasks, x, j);
    GroupIsLayer(tasks, y, k);
    if x == y {
      assert x in Layers(tasks, {})[j] && y in Layers(tasks, {})[k];
      LayerIsUnique(tasks, x, j, k);
      GroupsInTurn(tasks, j);
      ReadyDoesNotRepeat(tasks, Done(tasks, j), a, b);
    }
  }

  lemma {:induction false} ReadyDoesNotRepeat(tasks: seq<Task>, completed: set<string>, a: nat, b: nat)
    requires UniqueIds(tasks) && a < |Ready(tasks, completed)| && b < |Ready(tasks, completed)| && a != b
    ensures Ready(tasks, completed)[a] != Ready(tasks, completed)[b]
  {
    var n := |tasks| - 1;
    var before := Ready(tasks[..n], completed);
    if a < |before| && b < |before| {
      ReadyDoesNotRepeat(tasks[..n], completed, a, b);
    } else {
      ReadyIsReadySet(tasks[..n], completed);
      assert forall k :: 0 <= k < |before| ==> before[k] in Elements(before);
    }
  }
}
