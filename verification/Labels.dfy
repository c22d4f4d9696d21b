/**
  The labels of one issue.  The dispatcher and the pipelines it starts write them concurrently, each from
  the labels it saw when the issue was scanned (`agents/issue_pipeline_dispatcher.py`,
  `agents/code_generator.py`, `agents/pr_merge_agent.py`).
 */
module Labels {
  datatype Label = Opened | Planning | Ready | Fixed | Other(name: string)

  /** The labels that somebody saw. */
  type Seen = set<Label>

  const STAGES: set<Label> := {Opened, Planning, Ready, Fixed}

  /** What a writer puts in place of all labels. */
  function Staged(seen: set<Label>, target: Label): set<Label> {
    seen - {Opened, Planning, Ready} + {target}
  }

  method UpdateIssueStageLabel(labelsBefore: set<Label>, target: Label) returns (labels: set<Label>)
    ensures labels == Staged(labelsBefore, target)
    ensures forall l :: l in labels <==> l == target || (l in labelsBefore && l !in {Opened, Planning, Ready})
  {
    labels := labelsBefore;
    labels := labels - {Opened};
    labels := labels - {Planning};
    labels := labels - {Ready};
    labels := labels + {target};
  }

  /** Where the dispatcher is with the issue, and the labels it saw. */
  datatype Phase =
    | Idle
    | Scanned(seen: set<Label>)
    | Planned(seen: set<Label>)
    | Dispatched(seen: set<Label>, accepted: bool)

  /** The labels on GitHub, the dispatcher, and what each running pipeline saw.  Whether a write has
      succeeded and which other labels users want are remembered for the statements below. */
  datatype State = State(labels: set<Label>, phase: Phase, pipelines: set<Seen>, written: bool, wanted: set<Label>)

  /** Pipelines may publish before the dispatcher has recorded the start; users may change other labels
      while somebody is about to write from what was seen before. */
  datatype Env = Env(early: bool, users: bool)

  datatype Step =
    | Scan
    | MoveToPlanning(ok: bool)
    | KeepReady
    | PlanFails
    | Dispatch(accepted: bool)
    | RecordDispatch(ok: bool)
    | MarkAsFixed(pipeline: set<Label>, ok: bool)
    | PipelineEnds(pipeline: set<Label>)
    | UserAdds(name: string)
    | UserRemoves(name: string)

  /** Nobody holds labels seen earlier: the dispatcher is idle and no pipeline runs. */
  predicate Unseen(s: State) {
    s.phase.Idle? && s.pipelines == {}
  }

  predicate Enabled(env: Env, s: State, step: Step) {
    match step
    case Scan => s.phase.Idle? && Fixed !in s.labels
    case MoveToPlanning(_) => s.phase.Scanned? && Ready !in s.phase.seen
    case KeepReady => s.phase.Scanned? && Ready in s.phase.seen
    case PlanFails => s.phase.Planned?
    case Dispatch(_) => s.phase.Planned?
    case RecordDispatch(_) => s.phase.Dispatched?
    case MarkAsFixed(p, _) => p in s.pipelines && (env.early || s.phase.Idle?)
    case PipelineEnds(p) => p in s.pipelines
    case UserAdds(_) => env.users || Unseen(s)
    case UserRemoves(_) => env.users || Unseen(s)
  }

  function Write(s: State, seen: set<Label>, target: Label, ok: bool): State {
    if ok then s.(labels := Staged(seen, target), written := true) else s
  }

  function Apply(env: Env, s: State, step: Step): State
    requires Enabled(env, s, step)
  {
    match step
    case Scan => s.(phase := Scanned(s.labels))
    case MoveToPlanning(ok) => Write(s, s.phase.seen, Planning, ok).(phase := Planned(s.phase.seen))
    case KeepReady => s.(phase := Planned(s.phase.seen))
    case PlanFails => s.(phase := Idle)
    case Dispatch(accepted) =>
      s.(phase := Dispatched(s.phase.seen, accepted),
         pipelines := if accepted then s.pipelines + {s.phase.seen} else s.pipelines)
    case RecordDispatch(ok) =>
      var target := if s.phase.accepted || Ready in s.phase.seen then Ready else Opened;
      Write(s, s.phase.seen, target, ok).(phase := Idle)
    case MarkAsFixed(p, ok) => Write(s, p, Fixed, ok)
    case PipelineEnds(p) => s.(pipelines := s.pipelines - {p})
    case UserAdds(name) => s.(labels := s.labels + {Other(name)}, wanted := s.wanted + {Other(name)})
    case UserRemoves(name) => s.(labels := s.labels - {Other(name)}, wanted := s.wanted - {Other(name)})
  }

  function Start(labels: set<Label>): State {
    State(labels, Idle, {}, false, labels - STAGES)
  }

  predicate Leads(env: Env, s: State, step: Step, t: State) {
    Enabled(env, s, step) && t == Apply(env, s, step)
  }

  ghost predicate IsRun(env: Env, states: seq<State>, steps: seq<Step>) {
    && |states| == |steps| + 1
    && states[0] == Start(states[0].labels)
    && forall i :: 0 <= i < |steps| ==> Leads(env, states[i], steps[i], states[i + 1])
  }

  // ----- What every step keeps

  ghost predicate IsHeld(s: State, seen: set<Label>) {
    (!s.phase.Idle? && seen == s.phase.seen) || seen in s.pipelines
  }

  predicate OneStage(labels: set<Label>) {
    exists stage :: stage in STAGES && labels * STAGES == {stage}
  }

  ghost predicate Inv(env: Env, s: State) {
    && (forall seen :: IsHeld(s, seen) ==> Fixed !in seen)
    && (s.written ==> OneStage(s.labels))
    && (!env.early && !s.phase.Idle? ==> Fixed !in s.labels)
    && (!env.users ==> s.labels - STAGES == s.wanted && forall seen :: IsHeld(s, seen) ==> seen - STAGES == s.wanted)
  }

  lemma StagedIsOneStage(seen: set<Label>, target: Label)
    requires Fixed !in seen && target in STAGES
    ensures OneStage(Staged(seen, target)) && Staged(seen, target) - STAGES == seen - STAGES
    ensures Fixed in Staged(seen, target) <==> target == Fixed
  {
    assert Staged(seen, target) * STAGES == {target};
  }

  lemma InvKept(env: Env, s: State, step: Step)
    requires Inv(env, s) && Enabled(env, s, step)
    ensures Inv(env, Apply(env, s, step))
  {
    var t := Apply(env, s, step);
    match step {
      case MoveToPlanning(_) => StagedIsOneStage(s.phase.seen, Planning);
      case RecordDispatch(_) =>
        StagedIsOneStage(s.phase.seen, Ready);
        StagedIsOneStage(s.phase.seen, Opened);
      case MarkAsFixed(p, _) => StagedIsOneStage(p, Fixed);
      case UserAdds(name) => assert t.labels * STAGES == s.labels * STAGES;
      case UserRemoves(name) => assert t.labels * STAGES == s.labels * STAGES;
      case _ =>
    }
    assert forall seen :: IsHeld(t, seen) ==> IsHeld(s, seen) || (step == Scan && seen == s.labels);
  }

  lemma StepOfRun(env: Env, states: seq<State>, steps: seq<Step>, i: nat)
    requires IsRun(env, states, steps) && i < |steps|
    ensures Leads(env, states[i], steps[i], states[i + 1])
  {
  }

  lemma {:induction false} InvHolds(env: Env, states: seq<State>, steps: seq<Step>, i: nat)
    requires IsRun(env, states, steps) && i < |states|
    ensures Inv(env, states[i])
  {
    if i > 0 {
      InvHolds(env, states, steps, i - 1);
      StepOfRun(env, states, steps, i - 1);
      InvKept(env, states[i - 1], steps[i - 1]);
    }
  }

  // ----- Whole runs

  /** From the first successful write on, the issue has exactly one of the four stage labels, whoever
      writes when. */
  lemma OneStageLabel(env: Env, states: seq<State>, steps: seq<Step>, i: nat)
    requires IsRun(env, states, steps) && i < |states| && states[i].written
    ensures OneStage(states[i].labels)
  {
    InvHolds(env, states, steps, i);
  }

  /** Step j is the last scan before step i. */
  ghost predicate LastScan(steps: seq<Step>, j: nat, i: nat) {
    j < i <= |steps| && steps[j].Scan? && forall k :: j < k < i ==> !steps[k].Scan?
  }

  ghost predicate LastDispatch(steps: seq<Step>, j: nat, i: nat) {
    j < i <= |steps| && steps[j].Dispatch? && forall k :: j < k < i ==> !steps[k].Dispatch?
  }

  /** What the dispatcher remembers is what was on the issue when it scanned it, and how its last start went. */
  lemma {:induction false} Remembered(env: Env, states: seq<State>, steps: seq<Step>, i: nat)
    returns (scan: nat, dispatch: nat)
    requires IsRun(env, states, steps) && i < |states| && !states[i].phase.Idle?
    ensures LastScan(steps, scan, i) && states[i].phase.seen == states[scan].labels
    ensures states[i].phase.Dispatched? ==>
              LastDispatch(steps, dispatch, i) && scan < dispatch
              && states[i].phase.accepted == steps[dispatch].accepted
  {
    StepOfRun(env, states, steps, i - 1);
    if steps[i - 1].Scan? {
      scan, dispatch := i - 1, 0;
    } else {
      scan, dispatch := Remembered(env, states, steps, i - 1);
      if steps[i - 1].Dispatch? {
        dispatch := i - 1;
      }
    }
  }

  /** What a pipeline saw is what was on the issue when the dispatcher scanned it before starting it. */
  lemma {:induction false} PipelineSaw(env: Env, states: seq<State>, steps: seq<Step>, i: nat, seen: set<Label>)
    returns (scan: nat, dispatch: nat)
    requires IsRun(env, states, steps) && i < |states| && seen in states[i].pipelines
    ensures dispatch < i && steps[dispatch] == Dispatch(true)
    ensures forall k :: dispatch < k < i ==> steps[k] != PipelineEnds(seen)
    ensures LastScan(steps, scan, dispatch) && seen == states[scan].labels
  {
    StepOfRun(env, states, steps, i - 1);
    if seen in states[i - 1].pipelines {
      scan, dispatch := PipelineSaw(env, states, steps, i - 1, seen);
    } else {
      dispatch := i - 1;
      scan := ScanBefore(env, states, steps, dispatch);
    }
  }

  lemma ScanBefore(env: Env, states: seq<State>, steps: seq<Step>, i: nat) returns (scan: nat)
    requires IsRun(env, states, steps) && i < |states| && !states[i].phase.Idle?
    ensures LastScan(steps, scan, i) && states[i].phase.seen == states[scan].labels
  {
    var dispatch;
    scan, dispatch := Remembered(env, states, steps, i);
  }

  /** Which stage each step of a run leaves on the issue.  A start is recorded as ready when the pipeline
      accepted it, or when the issue was ready at the scan, and is taken back to opened otherwise; planning and
      fixed are what their writers say; nothing else changes the stage. */
  lemma StageAfterStep(env: Env, states: seq<State>, steps: seq<Step>, i: nat)
    requires IsRun(env, states, steps) && i < |steps|
    ensures
      var before, after := states[i].labels * STAGES, states[i + 1].labels * STAGES;
      match steps[i]
      case MoveToPlanning(ok) => after == if ok then {Planning} else before
      case MarkAsFixed(_, ok) => after == if ok then {Fixed} else before
      case RecordDispatch(ok) =>
        exists scan: nat, dispatch: nat ::
          LastScan(steps, scan, i) && LastDispatch(steps, dispatch, i) && scan < dispatch
          && after == (if !ok then before
                       else if steps[dispatch].accepted || Ready in states[scan].labels then {Ready}
                       else {Opened})
      case _ => after == before
  {
    StepOfRun(env, states, steps, i);
    InvHolds(env, states, steps, i);
    var s := states[i];
    match steps[i] {
      case MoveToPlanning(_) => StagedHasTarget(s.phase.seen, Planning);
      case MarkAsFixed(p, _) => StagedHasTarget(p, Fixed);
      case RecordDispatch(ok) =>
        StagedHasTarget(s.phase.seen, Ready);
        StagedHasTarget(s.phase.seen, Opened);
        var scan, dispatch := Remembered(env, states, steps, i);
        assert LastScan(steps, scan, i) && LastDispatch(steps, dispatch, i);
      case UserAdds(name) => assert states[i + 1].labels * STAGES == s.labels * STAGES;
      case UserRemoves(name) => assert states[i + 1].labels * STAGES == s.labels * STAGES;
      case _ =>
    }
  }

  lemma StagedHasTarget(seen: set<Label>, target: Label)
    requires Fixed !in seen && target in STAGES
    ensures Staged(seen, target) * STAGES == {target}
  {
  }

  /** A fixed issue is not taken up; one that was ready at the scan keeps its plan, any other is moved to
      planning. */
  lemma TakenUpByStage(env: Env, states: seq<State>, steps: seq<Step>, i: nat)
    requires IsRun(env, states, steps) && i < |steps|
    ensures steps[i].Scan? ==> Fixed !in states[i].labels
    ensures steps[i].MoveToPlanning? || steps[i].KeepReady? ==>
              exists scan: nat :: LastScan(steps, scan, i)
                && (steps[i].KeepReady? <==> Ready in states[scan].labels)
  {
    StepOfRun(env, states, steps, i);
    if steps[i].MoveToPlanning? || steps[i].KeepReady? {
      var scan := ScanBefore(env, states, steps, i);
    }
  }

  /** Every successful write puts back the other labels that were on the issue at an earlier scan: the last one,
      or the one before the start of the pipeline that writes. */
  lemma OthersAfterWrite(env: Env, states: seq<State>, steps: seq<Step>, i: nat)
    requires IsRun(env, states, steps) && i < |steps|
    requires steps[i] == MoveToPlanning(true) || steps[i] == RecordDispatch(true)
             || (steps[i].MarkAsFixed? && steps[i].ok)
    ensures exists scan: nat :: scan < i && steps[scan].Scan?
                           && states[i + 1].labels - STAGES == states[scan].labels - STAGES
                           && (!steps[i].MarkAsFixed? ==> LastScan(steps, scan, i))
  {
    StepOfRun(env, states, steps, i);
    if steps[i].MarkAsFixed? {
      var scan, dispatch := PipelineSaw(env, states, steps, i, steps[i].pipeline);
    } else {
      var scan := ScanBefore(env, states, steps, i);
    }
  }

  /** The other labels are always what users want. */
  ghost predicate OthersSurvive(states: seq<State>) {
    forall i :: 0 <= i < |states| ==> states[i].labels - STAGES == states[i].wanted
  }

  ghost predicate OthersSurviveInEveryRun(env: Env) {
    forall states: seq<State>, steps: seq<Step> :: IsRun(env, states, steps) ==> OthersSurvive(states)
  }

  /** Other labels survive in every run exactly when users leave them alone while the dispatcher is at work
      or a pipeline runs; in between they may change them. */
  lemma OtherLabelsSurviveExactly(env: Env)
    ensures OthersSurviveInEveryRun(env) <==> !env.users
  {
    if env.users {
      UserLabelIsLost(env);
    } else {
      forall states: seq<State>, steps: seq<Step> | IsRun(env, states, steps) ensures OthersSurvive(states) {
        forall i | 0 <= i < |states| ensures states[i].labels - STAGES == states[i].wanted {
          InvHolds(env, states, steps, i);
        }
      }
    }
  }

  /** A label that a user adds after the scan is lost with the next write. */
  lemma UserLabelIsLost(env: Env)
    requires env.users
    ensures exists states: seq<State>, steps: seq<Step> :: IsRun(env, states, steps) && !OthersSurvive(states)
  {
    var s0 := Start({Opened});
    var steps := [Scan, UserAdds("urgent"), MoveToPlanning(true)];
    var s1 := Apply(env, s0, steps[0]);
    var s2 := Apply(env, s1, steps[1]);
    var s3 := Apply(env, s2, steps[2]);
    var states := [s0, s1, s2, s3];
    assert IsRun(env, states, steps);
    assert Other("urgent") in states[3].wanted && Other("urgent") !in states[3].labels;
    assert !OthersSurvive(states);
  }

  /** No step takes the fixed label away. */
  ghost predicate FixedStays(states: seq<State>) {
    forall i :: 0 <= i < |states| - 1 && Fixed in states[i].labels ==> Fixed in states[i + 1].labels
  }

  ghost predicate FixedStaysInEveryRun(env: Env) {
    forall states: seq<State>, steps: seq<Step> :: IsRun(env, states, steps) ==> FixedStays(states)
  }

  /** An issue marked as fixed stays so in every run exactly when no pipeline publishes while the
      dispatcher is at work on the issue. */
  lemma FixedStaysExactly(env: Env)
    ensures FixedStaysInEveryRun(env) <==> !env.early
  {
    if env.early {
      FixedLabelIsLost(env);
    } else {
      forall states: seq<State>, steps: seq<Step> | IsRun(env, states, steps) ensures FixedStays(states) {
        forall i | 0 <= i < |states| - 1 && Fixed in states[i].labels ensures Fixed in states[i + 1].labels {
          InvHolds(env, states, steps, i);
          StepOfRun(env, states, steps, i);
        }
      }
    }
  }

  /** The pipeline publishes before the dispatcher writes that it has started: the issue is taken for
      ready again. */
  lemma FixedLabelIsLost(env: Env)
    requires env.early
    ensures exists states: seq<State>, steps: seq<Step> :: IsRun(env, states, steps) && !FixedStays(states)
  {
    var seen := {Opened};
    var s0 := Start(seen);
    var steps := [Scan, MoveToPlanning(true), Dispatch(true), MarkAsFixed(seen, true), RecordDispatch(true)];
    var s1 := Apply(env, s0, steps[0]);
    var s2 := Apply(env, s1, steps[1]);
    var s3 := Apply(env, s2, steps[2]);
    var s4 := Apply(env, s3, steps[3]);
    var s5 := Apply(env, s4, steps[4]);
    var states := [s0, s1, s2, s3, s4, s5];
    assert IsRun(env, states, steps);
    assert Fixed in states[4].labels && Fixed !in states[5].labels;
    assert !FixedStays(states);
  }
}
