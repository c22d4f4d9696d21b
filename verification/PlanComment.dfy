/**
  The plan that `agents/issue_pipeline_dispatcher.py` prints into an issue comment, and the two readers
  of it: the dispatcher's own loader and the extractor of `agents/code_generator.py`.
 */
module PlanComment {
  import opened Basics
  import opened Json
  import opened JsonDictionary
  import opened Texts

  const PLANNING_COMMENT_MARKER := "<!-- hordeforge:planning-update -->"
  const PLAN_JSON_START := "<!-- hordeforge:plan-json:start -->"
  const PLAN_JSON_END := "<!-- hordeforge:plan-json:end -->"

  const GENERATED_BY := "_Generated by HordeForge " + "issue scanner pipeline._"

  const MAX_CRITERIA := 20
  const MAX_TEST_CASES := 25
  const MAX_GHERKIN := 4000

  /** A test case with its defaults filled in. */
  datatype TestCase = TestCase(filePath: string, description: string)

  function Take<T>(s: seq<T>, n: nat): seq<T> {
    if |s| <= n then s else s[..n]
  }

  // ----- What the comment shows

  function CriterionLine(text: string): string {
    "- " + text
  }

  function TestCaseLine(t: TestCase): string {
    "- `" + t.filePath + "`: " + t.description
  }

  function CriteriaLines(criteria: seq<string>): seq<string> {
    if criteria == [] then []
    else CriteriaLines(criteria[..|criteria| - 1]) + [CriterionLine(criteria[|criteria| - 1])]
  }

  /** Entries that are not dictionaries are skipped. */
  function TestLines(cases: seq<Option<TestCase>>): seq<string> {
    if cases == [] then []
    else
      var last := cases[|cases| - 1];
      TestLines(cases[..|cases| - 1]) + if last.Some? then [TestCaseLine(last.value)] else []
  }

  function ShownGherkin(gherkin: Option<string>): string {
    if gherkin.None? then "" else Take(Strip(gherkin.value), MAX_GHERKIN)
  }

  function HeadLines(): seq<string> {
    [PLANNING_COMMENT_MARKER, "## HordeForge Planning Update", "", "### DoD (Acceptance Criteria)", ""]
  }

  function DodLines(criteria: seq<string>): seq<string> {
    (if criteria == [] then ["- No acceptance criteria extracted."] else CriteriaLines(Take(criteria, MAX_CRITERIA)))
    + [""]
  }

  function BddLines(gherkin: Option<string>): seq<string> {
    ["### BDD Scenarios", ""]
    + if ShownGherkin(gherkin) != "" then ["```gherkin", ShownGherkin(gherkin), "```", ""]
      else ["- No BDD scenarios generated.", ""]
  }

  function TddLines(cases: seq<Option<TestCase>>): seq<string> {
    ["### TDD Test Plan", ""]
    + (if cases == [] then ["- No TDD test plan generated."] else TestLines(Take(cases, MAX_TEST_CASES)))
    + ["", GENERATED_BY]
  }

  /** Everything above the embedded plan. */
  function VisibleLines(criteria: seq<string>, gherkin: Option<string>, cases: seq<Option<TestCase>>): seq<string> {
    HeadLines() + DodLines(criteria) + BddLines(gherkin) + TddLines(cases)
  }

  function PlanLines(plan: Json): seq<string> {
    ["", PLAN_JSON_START, Print(plan), PLAN_JSON_END]
  }

  method AppendCriteria(before: seq<string>, displayed: seq<string>) returns (lines: seq<string>)
    ensures lines == before + CriteriaLines(displayed)
  {
    lines := before;
    for i := 0 to |displayed|
      invariant lines == before + CriteriaLines(displayed[..i])
    {
      assert displayed[..i + 1][..i] == displayed[..i];
      lines := lines + ["- " + displayed[i]];
    }
    assert displayed[..|displayed|] == displayed;
  }

  method AppendTestCases(before: seq<string>, displayed: seq<Option<TestCase>>) returns (lines: seq<string>)
    ensures lines == before + TestLines(displayed)
  {
    lines := before;
    for i := 0 to |displayed|
      invariant lines == before + TestLines(displayed[..i])
    {
      assert displayed[..i + 1][..i] == displayed[..i];
      if displayed[i].Some? {
        lines := lines + ["- `" + displayed[i].value.filePath + "`: " + displayed[i].value.description];
      }
    }
    assert displayed[..|displayed|] == displayed;
  }

  method AppendDod(before: seq<string>, criteria: seq<string>) returns (lines: seq<string>)
    ensures lines == before + DodLines(criteria)
  {
    if criteria != [] {
      lines := AppendCriteria(before, Take(criteria, MAX_CRITERIA));
    } else {
      lines := before + ["- No acceptance criteria extracted."];
    }
    lines := lines + [""];
  }

  method AppendBdd(before: seq<string>, gherkin: Option<string>) returns (lines: seq<string>)
    ensures lines == before + BddLines(gherkin)
  {
    lines := before + ["### BDD Scenarios", ""];
    if gherkin.Some? && Strip(gherkin.value) != "" {
      lines := lines + ["```gherkin", Take(Strip(gherkin.value), MAX_GHERKIN), "```", ""];
    } else {
      lines := lines + ["- No BDD scenarios generated.", ""];
    }
  }

  method AppendTdd(before: seq<string>, cases: seq<Option<TestCase>>) returns (lines: seq<string>)
    ensures lines == before + TddLines(cases)
  {
    lines := before + ["### TDD Test Plan", ""];
    if cases != [] {
      lines := AppendTestCases(lines, Take(cases, MAX_TEST_CASES));
    } else {
      lines := lines + ["- No TDD test plan generated."];
    }
    lines := lines + ["", GENERATED_BY];
  }

  method BuildPlanningCommentBody(criteria: seq<string>, gherkin: Option<string>,
                                  cases: seq<Option<TestCase>>, plan: Json)
    returns (body: string)
    ensures
      var shown := VisibleLines(criteria, gherkin, cases);
      body == Join(if plan.Obj? && plan.members != [] then shown + PlanLines(plan) else shown)
  {
    var lines := AppendDod(HeadLines(), criteria);
    lines := AppendBdd(lines, gherkin);
    lines := AppendTdd(lines, cases);
    if plan.Obj? && plan.members != [] {
      lines := lines + ["", PLAN_JSON_START, Print(plan), PLAN_JSON_END];
    }
    body := Join(lines);
  }

  // ----- Reading the plan back

  /** The text in front of the first end marker, parsed. */
  function PlanUpToEnd(after: string): (r: Option<Json>)
    ensures r.Some? ==> r.value.Obj?
  {
    var end := IndexOf(after, PLAN_JSON_END);
    if end.None? then None
    else
      var raw := Strip(after[..end.value]);
      if raw == "" then None
      else
        var parsed := Loads(raw);
        if parsed.Some? && parsed.value.Obj? then parsed else None
  }

  /** The text between the first start marker and the next end marker, parsed.  The original uses a
      regular expression with a non-greedy group between white space; it finds the same text. */
  function ExtractPlanJson(body: string): (r: Option<Json>)
    ensures r.Some? ==> r.value.Obj?
  {
    if Strip(body) == "" then None
    else
      var start := IndexOf(body, PLAN_JSON_START);
      if start.None? then None else PlanUpToEnd(body[start.value + |PLAN_JSON_START|..])
  }

  /** The entries of a plan that the dispatcher passes on; a missing one is an empty dictionary. */
  datatype PlanBundle = PlanBundle(dod: Json, spec: Json, subtasks: Json, bddSpecification: Json, tests: Json)

  function Entry(ms: seq<Member>, key: string): Json {
    if ms == [] then Obj([]) else if ms[0].key == key then ms[0].value else Entry(ms[1..], key)
  }

  function BundleOf(plan: Json): PlanBundle
    requires plan.Obj?
  {
    var ms := plan.members;
    PlanBundle(Entry(ms, "dod"), Entry(ms, "spec"), Entry(ms, "subtasks"),
               Entry(ms, "bdd_specification"), Entry(ms, "tests"))
  }

  datatype LoadedPlan = PlanOk(bundle: PlanBundle) | PlanInvalid | PlanningCommentNotFound

  /** Comments without a text are None. */
  predicate IsPlanning(comment: Option<string>) {
    comment.Some? && IndexOf(comment.value, PLANNING_COMMENT_MARKER).Some?
  }

  function PlanIn(comment: Option<string>): (r: Option<Json>)
    ensures r.Some? ==> r.value.Obj?
  {
    if comment.None? then None else ExtractPlanJson(comment.value)
  }

  function Loaded(comment: Option<string>): LoadedPlan {
    var plan := PlanIn(comment);
    if plan.None? then PlanInvalid else PlanOk(BundleOf(plan.value))
  }

  /** The dispatcher looks at the first planning comment only. */
  function PlanFromIssue(comments: seq<Option<string>>): LoadedPlan {
    if comments == [] then PlanningCommentNotFound
    else if IsPlanning(comments[0]) then Loaded(comments[0])
    else PlanFromIssue(comments[1..])
  }

  /** The value is that of the member with the key; without such a member it is an empty dictionary. */
  ghost predicate Holds(ms: seq<Member>, key: string, value: Json) {
    && (forall i :: 0 <= i < |ms| && ms[i].key == key ==> ms[i].value == value)
    && ((forall i :: 0 <= i < |ms| ==> ms[i].key != key) ==> value == Obj([]))
  }

  /** Each entry is in the field of its name. */
  ghost predicate HoldsAll(ms: seq<Member>, bundle: PlanBundle) {
    && Holds(ms, "dod", bundle.dod) && Holds(ms, "spec", bundle.spec) && Holds(ms, "subtasks", bundle.subtasks)
    && Holds(ms, "bdd_specification", bundle.bddSpecification) && Holds(ms, "tests", bundle.tests)
  }

  lemma {:induction false} EntryHolds(ms: seq<Member>, key: string)
    requires UniqueKeys(ms)
    ensures Holds(ms, key, Entry(ms, key))
  {
    if ms != [] {
      EntryHolds(ms[1..], key);
      assert forall i :: 0 < i < |ms| ==> ms[i] == ms[1..][i - 1];
      assert forall i :: 0 <= i < |ms[1..]| ==> ms[1..][i] == ms[i + 1];
    }
  }

  lemma PlanReadIsWellFormed(body: string)
    ensures ExtractPlanJson(body).Some? ==> WellFormed(ExtractPlanJson(body).value)
  {
    hide Loads;
    if ExtractPlanJson(body).Some? {
      var after := body[IndexOf(body, PLAN_JSON_START).value + |PLAN_JSON_START|..];
      LoadedIsWellFormed(Strip(after[..IndexOf(after, PLAN_JSON_END).value]));
    }
  }

  lemma BundleHoldsAll(plan: Json)
    requires plan.Obj? && WellFormed(plan)
    ensures HoldsAll(plan.members, BundleOf(plan))
  {
    hide Holds;
    EntryHolds(plan.members, "dod");
    EntryHolds(plan.members, "spec");
    EntryHolds(plan.members, "subtasks");
    EntryHolds(plan.members, "bdd_specification");
    EntryHolds(plan.members, "tests");
  }

  /** The first comment with the planning marker decides. */
  method LoadPlanFromIssue(comments: seq<Option<string>>) returns (r: LoadedPlan)
    ensures r == PlanFromIssue(comments)
    ensures r.PlanningCommentNotFound? <==>
            forall i :: 0 <= i < |comments| && comments[i].Some? ==>
              !Contains(comments[i].value, "<!-- hordeforge:planning-update -->")
    ensures r.PlanInvalid? || r.PlanOk? ==>
              exists i :: 0 <= i < |comments| && comments[i].Some?
                && Contains(comments[i].value, "<!-- hordeforge:planning-update -->")
                && (forall k :: 0 <= k < i && comments[k].Some? ==>
                      !Contains(comments[k].value, "<!-- hordeforge:planning-update -->"))
                && var plan := ExtractPlanJson(comments[i].value);
                   (r.PlanOk? <==> plan.Some?)
                   && (r.PlanOk? ==> HoldsAll(plan.value.members, r.bundle))
  {
    for i := 0 to |comments|
      invariant PlanFromIssue(comments) == PlanFromIssue(comments[i..])
      invariant forall k :: 0 <= k < i && comments[k].Some? ==>
                  !Contains(comments[k].value, "<!-- hordeforge:planning-update -->")
    {
      if comments[i].Some? {
        ContainsExactly(comments[i].value, PLANNING_COMMENT_MARKER);
      }
      if IsPlanning(comments[i]) {
        ghost var plan := ExtractPlanJson(comments[i].value);
        PlanReadIsWellFormed(comments[i].value);
        if plan.Some? {
          BundleHoldsAll(plan.value);
        }
        return Loaded(comments[i]);
      }
      assert comments[i..][1..] == comments[i + 1..];
    }
    return PlanningCommentNotFound;
  }

  /** The code generator takes the first comment, or else the issue text, that yields a plan. */
  function PlanPayload(comments: seq<Option<string>>, issueBody: Option<string>): Option<Json> {
    if comments == [] then PlanIn(issueBody)
    else if PlanIn(comments[0]).Some? then PlanIn(comments[0])
    else PlanPayload(comments[1..], issueBody)
  }

  method ExtractPlanPayload(comments: seq<Option<string>>, issueBody: Option<string>) returns (r: Option<Json>)
    ensures r == PlanPayload(comments, issueBody)
    ensures
      || (exists i :: 0 <= i < |comments| && comments[i].Some? && r.Some? && r == ExtractPlanJson(comments[i].value)
                      && forall k :: 0 <= k < i && comments[k].Some? ==> ExtractPlanJson(comments[k].value).None?)
      || ((forall k :: 0 <= k < |comments| && comments[k].Some? ==> ExtractPlanJson(comments[k].value).None?)
          && r == if issueBody.Some? then ExtractPlanJson(issueBody.value) else None)
  {
    for i := 0 to |comments|
      invariant PlanPayload(comments, issueBody) == PlanPayload(comments[i..], issueBody)
      invariant forall k :: 0 <= k < i && comments[k].Some? ==> ExtractPlanJson(comments[k].value).None?
    {
      var plan := PlanIn(comments[i]);
      if plan.Some? {
        return plan;
      }
      assert comments[i..][1..] == comments[i + 1..];
    }
    return PlanIn(issueBody);
  }
}
