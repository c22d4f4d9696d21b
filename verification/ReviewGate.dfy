/**
  From findings to a merge: the decision of `agents/review_agent.py` and the gates of
  `agents/pr_merge_agent.py`.
 */
module ReviewGate {
  import opened Basics
  import opened Json
  import opened Texts

  // ----- Findings

  /** A finding as reported; what is missing is None or empty. */
  datatype RawFinding = RawFinding(file: Option<string>, kind: Option<string>, severity: Option<string>,
                                   description: string, message: string)

  datatype Finding = Finding(file: Option<string>, kind: string, severity: string, description: string)

  function Default(text: Option<string>, other: string): string {
    if text.Some? then text.value else other
  }

  function Normal(raw: RawFinding): Finding {
    Finding(raw.file, Default(raw.kind, "maintainability"), Default(raw.severity, "medium"),
            if raw.description != "" then raw.description
            else if raw.message != "" then raw.message
            else "Review finding")
  }

  type FindingKey = (string, string, string)

  /** A missing file has the same key as a file of the name None. */
  function Key(f: Finding): FindingKey {
    (Default(f.file, "None"), f.kind, f.description)
  }

  function Keys(fs: seq<Finding>): set<FindingKey> {
    set f | f in fs :: Key(f)
  }

  /** Findings without those whose key has occurred before; entries that are no dictionaries are None. */
  function Kept(raws: seq<Option<RawFinding>>): seq<Finding> {
    if raws == [] then []
    else
      var front, last := Kept(raws[..|raws| - 1]), raws[|raws| - 1];
      if last.None? || Key(Normal(last.value)) in Keys(front) then front else front + [Normal(last.value)]
  }

  method NormalizeFindings(raws: seq<Option<RawFinding>>) returns (normalized: seq<Finding>)
    ensures normalized == Kept(raws)
  {
    normalized := [];
    var seen: set<FindingKey> := {};
    for i := 0 to |raws|
      invariant normalized == Kept(raws[..i])
      invariant seen == Keys(normalized)
    {
      assert raws[..i + 1][..i] == raws[..i];
      if raws[i].Some? {
        var item := Normal(raws[i].value);
        if Key(item) !in seen {
          KeysOfOneMore(normalized, item);
          seen := seen + {Key(item)};
          normalized := normalized + [item];
        }
      }
    }
    assert raws[..|raws|] == raws;
  }

  lemma KeysOfOneMore(fs: seq<Finding>, f: Finding)
    ensures Keys(fs + [f]) == Keys(fs) + {Key(f)}
  {
  }

  predicate Severe(f: Finding) {
    Lower(f.severity) == "critical" || Lower(f.severity) == "high"
  }

  const GROUNDING := "grounding_mismatch"
  const VERIFICATION := "verification_invalid"

  predicate Blocking(f: Finding) {
    Lower(f.kind) == GROUNDING || Lower(f.kind) == VERIFICATION
  }

  // ----- Paths

  const ROOTS := ["workspace/repo/", "/workspace/repo/", "workspace/", "/workspace/", "repo/"]

  function Slashes(s: string): string {
    if s == "" then "" else [if s[0] == '\\' then '/' else s[0]] + Slashes(s[1..])
  }

  function WithoutDots(s: string): string {
    if "./" <= s then WithoutDots(s[2..]) else s
  }

  function WithoutRoot(s: string, roots: seq<string>): string {
    if roots == [] then s else if roots[0] <= s then s[|roots[0]|..] else WithoutRoot(s, roots[1..])
  }

  /** The part before the name of a test. */
  function WithoutTest(s: string): string {
    var at := IndexOf(s, "::");
    if at.Some? then s[..at.value] else s
  }

  function NormalPath(value: string): string {
    WithoutTest(WithoutRoot(WithoutDots(Slashes(Strip(value))), ROOTS))
  }

  method NormalizePath(value: string) returns (path: string)
    ensures path == NormalPath(value)
  {
    path := Slashes(Strip(value));
    while "./" <= path
      invariant WithoutDots(path) == WithoutDots(Slashes(Strip(value)))
      decreases |path|
    {
      path := path[2..];
    }
    path := DropRoot(path);
    path := WithoutTest(path);
  }

  method DropRoot(path: string) returns (r: string)
    ensures r == WithoutRoot(path, ROOTS)
  {
    for i := 0 to |ROOTS|
      invariant WithoutRoot(path, ROOTS) == WithoutRoot(path, ROOTS[i..])
    {
      if ROOTS[i] <= path {
        return path[|ROOTS[i]|..];
      }
      assert ROOTS[i..][1..] == ROOTS[i + 1..];
    }
    return path;
  }

  // ----- The two checks of the review agent

  /** The files and test targets named by the diagnostics, blank ones dropped. */
  function Allowed(mentioned: seq<string>): set<string> {
    set m | m in mentioned && Strip(m) != "" && NormalPath(m) != "" :: NormalPath(m)
  }

  method AllowedPaths(mentioned: seq<string>) returns (allowed: set<string>)
    ensures allowed == Allowed(mentioned)
  {
    allowed := {};
    for i := 0 to |mentioned|
      invariant allowed == Allowed(mentioned[..i])
    {
      assert mentioned[..i + 1] == mentioned[..i] + [mentioned[i]];
      var path := NormalizePath(mentioned[i]);
      OneMoreAllowed(mentioned[..i], mentioned[i]);
      if Strip(mentioned[i]) != "" && path != "" {
        allowed := allowed + {path};
      }
    }
    assert mentioned[..|mentioned|] == mentioned;
  }

  lemma OneMoreAllowed(mentioned: seq<string>, m: string)
    ensures Allowed(mentioned + [m])
            == Allowed(mentioned) + if Strip(m) != "" && NormalPath(m) != "" then {NormalPath(m)} else {}
  {
    var all := mentioned + [m];
    assert forall x :: x in all <==> x in mentioned || x == m;
  }

  const NOT_REFERENCED :=
    "Patch modifies a file that is not referenced by CI diagnostics " + "or extracted failure targets."

  function GroundingFinding(path: string): RawFinding {
    RawFinding(Some(path), Some(GROUNDING), Some("high"), NOT_REFERENCED, "")
  }

  /** The file is none of the allowed ones. */
  predicate Strays(file: Option<string>, allowed: set<string>) {
    file.Some? && NormalPath(file.value) != "" && NormalPath(file.value) !in allowed
  }

  /** Entries that are no dictionaries are None. */
  function Ungrounded(files: seq<Option<string>>, allowed: set<string>): seq<Option<RawFinding>> {
    if files == [] || allowed == {} then []
    else
      var last := files[|files| - 1];
      Ungrounded(files[..|files| - 1], allowed)
      + if Strays(last, allowed) then [Some(GroundingFinding(NormalPath(last.value)))] else []
  }

  /** The file has a path, and none of the files and targets that are mentioned has the same. */
  ghost predicate NotMentioned(file: string, mentioned: seq<string>) {
    NormalPath(file) != "" && forall m :: m in mentioned ==> NormalPath(m) != NormalPath(file)
  }

  lemma BlankPath(value: string)
    requires Strip(value) == ""
    ensures NormalPath(value) == ""
  {
    assert WithoutRoot("", ROOTS) == "";
  }

  lemma AllowedExactly(mentioned: seq<string>, path: string)
    ensures path in Allowed(mentioned) <==> path != "" && exists m :: m in mentioned && NormalPath(m) == path
  {
    hide NormalPath, Strip;
    forall m | m in mentioned && NormalPath(m) != "" ensures Strip(m) != "" {
      if Strip(m) == "" {
        BlankPath(m);
      }
    }
  }

  lemma StraysExactly(file: Option<string>, mentioned: seq<string>)
    ensures Strays(file, Allowed(mentioned)) <==> file.Some? && NotMentioned(file.value, mentioned)
  {
    hide NormalPath, Allowed;
    if file.Some? {
      AllowedExactly(mentioned, NormalPath(file.value));
    }
  }

  lemma {:induction false} UngroundedMembers(files: seq<Option<string>>, allowed: set<string>, f: Option<RawFinding>)
    ensures f in Ungrounded(files, allowed) <==>
            allowed != {} && exists i :: 0 <= i < |files| && Strays(files[i], allowed)
                                         && f == Some(GroundingFinding(NormalPath(files[i].value)))
  {
    hide NormalPath, GroundingFinding;
    if files != [] && allowed != {} {
      var n := |files| - 1;
      UngroundedMembers(files[..n], allowed, f);
      assert forall i :: 0 <= i < n ==> files[..n][i] == files[i];
      assert f in Ungrounded(files, allowed) <==>
             f in Ungrounded(files[..n], allowed)
             || (Strays(files[n], allowed) && f == Some(GroundingFinding(NormalPath(files[n].value))));
    }
  }

  /** There is one high finding for each file that is not mentioned, unless nothing is mentioned at all. */
  ghost predicate ReportsStray(f: Option<RawFinding>, files: seq<Option<string>>, mentioned: seq<string>) {
    && (exists m :: m in mentioned && NormalPath(m) != "")
    && exists i :: 0 <= i < |files| && files[i].Some? && NotMentioned(files[i].value, mentioned)
                   && f == Some(RawFinding(Some(NormalPath(files[i].value)), Some("grounding_mismatch"), Some("high"),
                                           NOT_REFERENCED, ""))
  }

  lemma UngroundedExactly(files: seq<Option<string>>, mentioned: seq<string>, f: Option<RawFinding>)
    ensures f in Ungrounded(files, Allowed(mentioned)) <==> ReportsStray(f, files, mentioned)
  {
    hide NormalPath, Allowed, Strays, NotMentioned, Ungrounded;
    var allowed := Allowed(mentioned);
    UngroundedMembers(files, allowed, f);
    forall i | 0 <= i < |files|
      ensures Strays(files[i], allowed) <==> files[i].Some? && NotMentioned(files[i].value, mentioned)
    {
      StraysExactly(files[i], mentioned);
    }
    SomeAllowed(mentioned);
  }

  lemma SomeAllowed(mentioned: seq<string>)
    ensures Allowed(mentioned) != {} <==> exists m :: m in mentioned && NormalPath(m) != ""
  {
    hide NormalPath, Allowed;
    if p :| p in Allowed(mentioned) {
      AllowedExactly(mentioned, p);
    }
    if m :| m in mentioned && NormalPath(m) != "" {
      AllowedExactly(mentioned, NormalPath(m));
    }
  }

  method EvaluateGrounding(files: seq<Option<string>>, mentioned: seq<string>) returns (r: seq<Option<RawFinding>>)
    ensures r == Ungrounded(files, Allowed(mentioned))
    ensures forall f :: f in r <==> ReportsStray(f, files, mentioned)
  {
    forall f ensures f in Ungrounded(files, Allowed(mentioned)) <==> ReportsStray(f, files, mentioned) {
      UngroundedExactly(files, mentioned, f);
    }
    var allowed := AllowedPaths(mentioned);
    r := [];
    if allowed == {} {
      return;
    }
    for i := 0 to |files|
      invariant r == Ungrounded(files[..i], allowed)
    {
      assert files[..i + 1][..i] == files[..i];
      if files[i].Some? {
        var path := NormalizePath(files[i].value);
        if path != "" && path !in allowed {
          r := r + [Some(GroundingFinding(path))];
        }
      }
    }
    assert files[..|files|] == files;
  }

  datatype TestResults = NoResults | Results(classification: string, exitCode: Option<int>, failed: Option<int>)

  predicate NotExecuted(t: TestResults) {
    t.Results? && Lower(Strip(t.classification)) in {"path_error", "collection_error"}
  }

  predicate OddExit(t: TestResults) {
    t.Results? && t.exitCode.Some? && t.exitCode.value !in {0, 1}
  }

  const UNRELIABLE := "Verification is not reliable because pytest " + "did not execute the intended tests."
  const ODD_EXIT := "Verification ended with non-standard exit code "

  function VerificationFinding(description: string): RawFinding {
    RawFinding(None, Some(VERIFICATION), Some("high"), description, "")
  }

  function EvaluateVerification(t: TestResults): (r: seq<Option<RawFinding>>)
    ensures r == [] <==>
            t.NoResults?
            || (Lower(Strip(t.classification)) != "path_error" && Lower(Strip(t.classification)) != "collection_error"
                && (t.exitCode.None? || t.exitCode.value == 0 || t.exitCode.value == 1))
    ensures |r| <= 1 && forall f :: f in r ==>
              f.Some? && f.value.file.None? && f.value.kind == Some("verification_invalid")
              && f.value.severity == Some("high")
  {
    if NotExecuted(t) then
      [Some(VerificationFinding(UNRELIABLE))]
    else if OddExit(t) then
      [Some(VerificationFinding(ODD_EXIT + PrintNum(t.exitCode.value) + ", indicating execution issues."))]
    else []
  }

  // ----- The decision

  const APPROVE := "approve"
  const REQUEST_CHANGES := "request_changes"

  datatype ReviewResult = ReviewResult(decision: string, findings: seq<Finding>)

  /** All that is reported: by the model or the analysis, and by the two checks. */
  function Reported(own: seq<Option<RawFinding>>, files: seq<Option<string>>, mentioned: seq<string>, t: TestResults)
    : seq<Option<RawFinding>>
  {
    own + Ungrounded(files, Allowed(mentioned)) + EvaluateVerification(t)
  }

  function Decided(initial: string, kept: seq<Finding>): string {
    if exists i :: 0 <= i < |kept| && (Severe(kept[i]) || Blocking(kept[i])) then REQUEST_CHANGES else initial
  }

  method AnyFinding(kept: seq<Finding>, severe: bool) returns (found: bool)
    ensures found <==> exists i :: 0 <= i < |kept| && if severe then Severe(kept[i]) else Blocking(kept[i])
  {
    found := false;
    for i := 0 to |kept|
      invariant forall k :: 0 <= k < i ==> !(if severe then Severe(kept[k]) else Blocking(kept[k]))
    {
      if if severe then Severe(kept[i]) else Blocking(kept[i]) {
        return true;
      }
    }
  }

  /** The initial decision is the one of the model, or approval when there is no model. */
  method Review(initial: string, own: seq<Option<RawFinding>>, files: seq<Option<string>>,
                mentioned: seq<string>, t: TestResults)
    returns (r: ReviewResult)
    ensures r.findings == Kept(Reported(own, files, mentioned, t))
    ensures r.decision == Decided(initial, r.findings)
  {
    var overall := initial;
    var grounded := EvaluateGrounding(files, mentioned);
    var findings := own + grounded;
    findings := findings + EvaluateVerification(t);
    var kept := NormalizeFindings(findings);
    var severe := AnyFinding(kept, true);
    if severe {
      overall := REQUEST_CHANGES;
    }
    var blocking := AnyFinding(kept, false);
    if blocking {
      overall := REQUEST_CHANGES;
    }
    return ReviewResult(overall, kept);
  }

  // ----- The merge

  predicate TestsPassed(t: TestResults) {
    && t.Results?
    && if t.exitCode.Some? then t.exitCode.value == 0 else t.failed.Some? && t.failed.value == 0
  }

  /** What GitHub says of a pull request; an exception is Unreachable.  The state of its checks is asked
      for when there is a head commit. */
  datatype Pull = Unreachable | Pull(mergeable: Option<bool>, draft: bool, state: Option<string>, mergeWorks: bool)

  method CheckMergeConditions(pull: Pull) returns (ok: bool)
    ensures ok <==> pull.Pull? && pull.mergeable == Some(true) && !pull.draft && pull.state != Some("failure")
  {
    if pull.Unreachable? {
      return false;
    }
    if pull.mergeable.None? || !pull.mergeable.value {
      return false;
    }
    if pull.draft {
      return false;
    }
    if pull.state.Some? {
      if pull.state.value != "success" {
        if pull.state.value == "failure" {
          return false;
        }
      }
    }
    return true;
  }

  datatype MergeStatus = MergeStatus(merged: bool, reasons: seq<string>)

  predicate Approved(review: Option<ReviewResult>) {
    review.Some? && Strip(review.value.decision) == APPROVE
  }

  predicate HasPr(prNumber: Option<int>) {
    prNumber.Some? && prNumber.value > 0
  }

  /** The pull request number is the one that is known after publishing. */
  method Merge(review: Option<ReviewResult>, t: TestResults, prNumber: Option<int>, liveMerge: bool,
               client: bool, pull: Pull)
    returns (r: MergeStatus)
    ensures
      var approved := review.Some? && Strip(review.value.decision) == "approve";
      var passed := t.Results? && (t.exitCode == Some(0) || (t.exitCode.None? && t.failed == Some(0)));
      var hasPr := prNumber.Some? && prNumber.value > 0;
      && (r.merged <==>
            && liveMerge && client && approved && passed && hasPr
            && pull.Pull? && pull.mergeable == Some(true) && !pull.draft && pull.state != Some("failure")
            && pull.mergeWorks)
      && r.reasons
         == (if approved then [] else ["review_not_approved"])
            + (if passed then [] else ["tests_not_passed"])
            + (if hasPr then [] else ["pr_missing"])
  {
    var approved := Approved(review);
    var hasPr := HasPr(prNumber);
    var reasons := [];
    ReasonsDiffer();
    if !approved {
      reasons := reasons + ["review_not_approved"];
    }
    if !TestsPassed(t) {
      reasons := reasons + ["tests_not_passed"];
    }
    if !hasPr {
      reasons := reasons + ["pr_missing"];
    }
    var merged := false;
    if liveMerge && reasons == [] && client && hasPr {
      var mergeable := CheckMergeConditions(pull);
      if mergeable {
        merged := pull.mergeWorks;
      }
    }
    return MergeStatus(merged, reasons);
  }

  lemma ReasonsDiffer()
    ensures |"review_not_approved"| == 19 && |"tests_not_passed"| == 16 && |"pr_missing"| == 10
  {
  }
}
