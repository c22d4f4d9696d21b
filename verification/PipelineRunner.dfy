/** The step loop of `agents/pipeline_runner.py`. */
module PipelineRunner {
  import opened Basics

  /** What to do when a step fails; the first three stop the pipeline. */
  datatype OnFailure = StopPipeline | EscalateToHuman | CreateIssueForHuman | OtherPolicy(text: string)

  datatype Step = Step(name: string, agent: Option<string>, onFailure: OnFailure)

  datatype Status = Success | PartialSuccess | Failed | Blocked | OtherStatus(text: string)

  /** An agent's output: a status and whatever else it holds. */
  datatype Output = Output(status: Status, content: string)

  /** What running an agent comes to.  An exception becomes an output of status FAILED; some exceptions
      say that the agent could not be loaded. */
  datatype Outcome = Outcome(output: Output, loadError: bool)

  type Context = map<string, Output>

  predicate Failing(status: Status) {
    status.Failed? || status.Blocked?
  }

  /** Agents may act differently each time; the index of the step tells the calls apart. */
  type Agents = (nat, string, Context) -> Outcome

  /** The outcome of a step in a context; a step without an agent has failed. */
  function Perform(agents: Agents, index: nat, step: Step, context: Context): Outcome {
    if step.agent.None? then Outcome(Output(Failed, step.name), true) else agents(index, step.agent.value, context)
  }

  predicate Stops(step: Step, o: Outcome) {
    step.agent.None? || (Failing(o.output.status) && (o.loadError || !step.onFailure.OtherPolicy?))
  }

  /** The inputs overlaid with the outputs of the first steps. */
  function Overlaid(inputs: Context, steps: seq<Step>, outs: seq<Outcome>): Context
    requires |outs| <= |steps|
  {
    if outs == [] then inputs
    else
      var n := |outs| - 1;
      Overlaid(inputs, steps, outs[..n])[steps[n].name := outs[n].output]
  }

  /** Each step was performed in the inputs overlaid with all earlier outputs. */
  ghost predicate Faithful(agents: Agents, inputs: Context, steps: seq<Step>, outs: seq<Outcome>) {
    && |outs| <= |steps|
    && forall i :: 0 <= i < |outs| ==> outs[i] == Perform(agents, i, steps[i], Overlaid(inputs, steps, outs[..i]))
  }

  lemma FaithfulExtends(agents: Agents, inputs: Context, steps: seq<Step>, outs: seq<Outcome>, o: Outcome)
    requires Faithful(agents, inputs, steps, outs) && |outs| < |steps|
    requires o == Perform(agents, |outs|, steps[|outs|], Overlaid(inputs, steps, outs))
    ensures Faithful(agents, inputs, steps, outs + [o])
    ensures Overlaid(inputs, steps, outs + [o]) == Overlaid(inputs, steps, outs)[steps[|outs|].name := o.output]
  {
    var more := outs + [o];
    assert more[..|outs|] == outs;
    forall i | 0 <= i < |outs| ensures more[i] == Perform(agents, i, steps[i], Overlaid(inputs, steps, more[..i])) {
      assert more[..i] == outs[..i];
    }
  }

  /** The steps performed are the shortest prefix that ends at a stopping failure, or else all. */
  ghost predicate Stopped(steps: seq<Step>, outs: seq<Outcome>) {
    && |outs| <= |steps|
    && (forall i :: 0 <= i < |outs| - 1 ==> !Stops(steps[i], outs[i]))
    && (|outs| < |steps| ==> outs != [] && Stops(steps[|outs| - 1], outs[|outs| - 1]))
  }

  ghost predicate LastFailure(outs: seq<Outcome>, i: nat) {
    && i < |outs| && Failing(outs[i].output.status)
    && forall j :: i < j < |outs| ==> !Failing(outs[j].output.status)
  }

  ghost predicate NoFailure(outs: seq<Outcome>) {
    forall i :: 0 <= i < |outs| ==> !Failing(outs[i].output.status)
  }

  ghost predicate SomePartial(outs: seq<Outcome>) {
    exists i :: 0 <= i < |outs| && outs[i].output.status == PartialSuccess
  }

  /** The last failing status if there is one, else partial success if a step had that, else success. */
  ghost predicate Final(outs: seq<Outcome>, status: Status) {
    || (exists i: nat :: LastFailure(outs, i) && status == outs[i].output.status)
    || (NoFailure(outs) && status == if SomePartial(outs) then PartialSuccess else Success)
  }

  function NextStatus(status: Status, s: Status): Status {
    if Failing(s) then s else if s.PartialSuccess? && status.Success? then PartialSuccess else status
  }

  lemma FinalExtends(outs: seq<Outcome>, status: Status, o: Outcome)
    requires Final(outs, status)
    ensures Final(outs + [o], NextStatus(status, o.output.status))
  {
    var more, s := outs + [o], o.output.status;
    assert forall i :: 0 <= i < |outs| ==> more[i] == outs[i];
    assert more[|outs|] == o;
    if Failing(s) {
      assert LastFailure(more, |outs|);
    } else if i: nat :| LastFailure(outs, i) && status == outs[i].output.status {
      assert LastFailure(more, i) && Failing(status);
    } else {
      assert NoFailure(more);
      if i :| 0 <= i < |outs| && outs[i].output.status == PartialSuccess {
        assert more[i].output.status == PartialSuccess;
      }
    }
  }

  method RunStep(agents: Agents, index: nat, step: Step, context: Context, status: Status)
    returns (o: Outcome, nextContext: Context, nextStatus: Status, stop: bool)
    ensures o == Perform(agents, index, step, context)
    ensures step.agent.None? ==>
              stop && o == Outcome(Output(Failed, step.name), true) && nextContext == context && nextStatus == Failed
    ensures step.agent.Some? ==>
              && o == agents(index, step.agent.value, context) && nextContext == context[step.name := o.output]
              && nextStatus == (if o.output.status == Failed || o.output.status == Blocked then o.output.status
                                else if o.output.status == PartialSuccess && status == Success then PartialSuccess
                                else status)
              && (stop <==>
                    && (o.output.status == Failed || o.output.status == Blocked)
                    && (o.loadError || step.onFailure == StopPipeline || step.onFailure == EscalateToHuman
                        || step.onFailure == CreateIssueForHuman))
    ensures nextStatus == NextStatus(status, o.output.status) && stop == Stops(step, o)
  {
    nextContext, nextStatus, stop := context, status, false;
    o := Perform(agents, index, step, context);
    if step.agent.None? {
      return o, context, Failed, true;
    }
    nextContext := context[step.name := o.output];
    if Failing(o.output.status) {
      nextStatus := o.output.status;
      if o.loadError {
        stop := true;
      } else if !step.onFailure.OtherPolicy? {
        stop := true;
      }
    } else if o.output.status.PartialSuccess? && status.Success? {
      nextStatus := PartialSuccess;
    }
  }

  /** The steps performed so far have not stopped the pipeline. */
  ghost predicate Underway(agents: Agents, inputs: Context, steps: seq<Step>, outs: seq<Outcome>,
                           context: Context, status: Status)
  {
    && Faithful(agents, inputs, steps, outs) && Final(outs, status)
    && (forall i :: 0 <= i < |outs| ==> !Stops(steps[i], outs[i]))
    && context == Overlaid(inputs, steps, outs)
  }

  lemma OneMoreStep(agents: Agents, inputs: Context, steps: seq<Step>, outs: seq<Outcome>,
                    context: Context, status: Status, o: Outcome)
    requires Underway(agents, inputs, steps, outs, context, status) && |outs| < |steps|
    requires o == Perform(agents, |outs|, steps[|outs|], context)
    ensures
      var step, more, next := steps[|outs|], outs + [o], NextStatus(status, o.output.status);
      if Stops(step, o) then Faithful(agents, inputs, steps, more) && Stopped(steps, more) && Final(more, next)
      else Underway(agents, inputs, steps, more, context[step.name := o.output], next)
  {
    FinalExtends(outs, status, o);
    FaithfulExtends(agents, inputs, steps, outs, o);
  }

  /** The outputs are in the order of the steps performed. */
  method Run(agents: Agents, inputs: Context, steps: seq<Step>) returns (outs: seq<Outcome>, finalStatus: Status)
    ensures Faithful(agents, inputs, steps, outs) && Stopped(steps, outs) && Final(outs, finalStatus)
  {
    var context := inputs;
    outs, finalStatus := [], Success;
    for index := 0 to |steps|
      invariant |outs| == index
      invariant Underway(agents, inputs, steps, outs, context, finalStatus)
    {
      var o, nextContext, nextStatus, stop := RunStep(agents, index, steps[index], context, finalStatus);
      OneMoreStep(agents, inputs, steps, outs, context, finalStatus, o);
      outs, context, finalStatus := outs + [o], nextContext, nextStatus;
      if stop {
        return;
      }
    }
  }

  /** These conditions leave one possibility: a run is a function of the agents, the inputs and the steps. */
  lemma RunIsDetermined(agents: Agents, inputs: Context, steps: seq<Step>, a: seq<Outcome>, b: seq<Outcome>)
    requires Faithful(agents, inputs, steps, a) && Stopped(steps, a)
    requires Faithful(agents, inputs, steps, b) && Stopped(steps, b)
    ensures a == b
  {
    SameLength(agents, inputs, steps, a, b);
    SameLength(agents, inputs, steps, b, a);
    SamePrefix(agents, inputs, steps, a, b, |a|);
    assert a[..|a|] == a && b[..|b|] == b;
  }

  lemma SameLength(agents: Agents, inputs: Context, steps: seq<Step>, a: seq<Outcome>, b: seq<Outcome>)
    requires Faithful(agents, inputs, steps, a) && Stopped(steps, a)
    requires Faithful(agents, inputs, steps, b) && Stopped(steps, b)
    ensures |a| >= |b|
  {
    var n := if |a| < |b| then |a| else |b|;
    SamePrefix(agents, inputs, steps, a, b, n);
    assert n > 0 ==> a[n - 1] == a[..n][n - 1] == b[..n][n - 1] == b[n - 1];
  }

  lemma OneMore(outs: seq<Outcome>, n: nat)
    requires n < |outs|
    ensures outs[..n + 1] == outs[..n] + [outs[n]]
  {
  }

  lemma {:induction false} SamePrefix(agents: Agents, inputs: Context, steps: seq<Step>,
                                      a: seq<Outcome>, b: seq<Outcome>, n: nat)
    requires Faithful(agents, inputs, steps, a) && Faithful(agents, inputs, steps, b) && n <= |a| && n <= |b|
    ensures a[..n] == b[..n]
    decreases n
  {
    hide Overlaid, Perform;
    if n > 0 {
      SamePrefix(agents, inputs, steps, a, b, n - 1);
      OneMore(a, n - 1);
      OneMore(b, n - 1);
    }
  }
}
