/** What an approval and a merge guarantee, and what they do not. */
module ReviewGateLaws {
  import opened Basics
  import opened Texts
  import opened ReviewGate

  // ----- What a finding counts as

  /** The description shown: the finding's own, else its message, else a stock phrase. */
  function Described(raw: RawFinding): string {
    if raw.description == "" && raw.message == "" then "Review finding"
    else if raw.description == "" then raw.message
    else raw.description
  }

  /** Two findings are taken for the same one: same file, type and description, whatever their severity.  No
      file is the same as the file None, and no type the same as maintainability. */
  predicate Same(a: RawFinding, b: RawFinding) {
    && (if a.file.None? then "None" else a.file.value) == (if b.file.None? then "None" else b.file.value)
    && (if a.kind.None? then "maintainability" else a.kind.value)
       == (if b.kind.None? then "maintainability" else b.kind.value)
    && Described(a) == Described(b)
  }

  lemma SameExactly(a: RawFinding, b: RawFinding)
    ensures Key(Normal(a)) == Key(Normal(b)) <==> Same(a, b)
  {
  }

  /** The finding as it is kept. */
  predicate Stands(f: Finding, raw: RawFinding) {
    && f.file == raw.file && f.description == Described(raw)
    && f.kind == (if raw.kind.None? then "maintainability" else raw.kind.value)
    && f.severity == (if raw.severity.None? then "medium" else raw.severity.value)
  }

  lemma StandsExactly(f: Finding, raw: RawFinding)
    ensures f == Normal(raw) <==> Stands(f, raw)
  {
  }

  lemma BlocksExactly(raw: RawFinding)
    ensures Blocking(Normal(raw)) <==>
            raw.kind.Some? && (Lower(raw.kind.value) == "grounding_mismatch"
                               || Lower(raw.kind.value) == "verification_invalid")
  {
    OrdinaryWords();
  }

  lemma SevereExactly(raw: RawFinding)
    ensures Severe(Normal(raw)) <==>
            raw.severity.Some? && (Lower(raw.severity.value) == "critical" || Lower(raw.severity.value) == "high")
  {
    OrdinaryWords();
  }

  lemma OrdinaryWords()
    ensures Lower("maintainability") == "maintainability" && |"maintainability"| == 15
    ensures Lower("medium") == "medium" && |"medium"| == 6
    ensures |"grounding_mismatch"| == 18 && |"verification_invalid"| == 20 && |"critical"| == 8 && |"high"| == 4
  {
    hide Lower;
    MaintainabilityIsLower();
    MediumIsLower();
  }

  lemma MaintainabilityIsLower()
    ensures Lower("maintainability") == "maintainability"
  {
    hide Lower;
    LowerKeepsLower("maintainability");
  }

  lemma MediumIsLower()
    ensures Lower("medium") == "medium"
  {
    hide Lower;
    LowerKeepsLower("medium");
  }

  // ----- Findings that are kept

  /** The entry is a finding, and the first one of those that are taken for the same. */
  ghost predicate First(raws: seq<Option<RawFinding>>, i: nat) {
    && i < |raws| && raws[i].Some?
    && forall j :: 0 <= j < i && raws[j].Some? ==> !Same(raws[j].value, raws[i].value)
  }

  lemma {:induction false} KeysKept(raws: seq<Option<RawFinding>>, k: FindingKey)
    ensures k in Keys(Kept(raws)) <==> exists i :: 0 <= i < |raws| && raws[i].Some? && Key(Normal(raws[i].value)) == k
  {
    if raws != [] {
      var n := |raws| - 1;
      var last := raws[n];
      KeysKept(raws[..n], k);
      if last.Some? {
        KeysOfOneMore(Kept(raws[..n]), Normal(last.value));
      }
      assert forall i :: 0 <= i < n ==> raws[..n][i] == raws[i];
    }
  }

  lemma FirstInFront(raws: seq<Option<RawFinding>>, i: nat)
    requires i < |raws| - 1
    ensures First(raws[..|raws| - 1], i) <==> First(raws, i)
  {
    var front := raws[..|raws| - 1];
    assert forall j :: 0 <= j <= i ==> front[j] == raws[j];
  }

  lemma LastIsFirst(raws: seq<Option<RawFinding>>)
    requires raws != [] && raws[|raws| - 1].Some?
    ensures First(raws, |raws| - 1) <==> Key(Normal(raws[|raws| - 1].value)) !in Keys(Kept(raws[..|raws| - 1]))
  {
    hide Normal, Same;
    var front, last := raws[..|raws| - 1], raws[|raws| - 1].value;
    KeysKept(front, Key(Normal(last)));
    assert forall j :: 0 <= j < |front| ==> front[j] == raws[j];
    forall j | 0 <= j < |front| && front[j].Some?
      ensures Same(raws[j].value, last) <==> Key(Normal(raws[j].value)) == Key(Normal(last))
    {
      SameExactly(raws[j].value, last);
    }
  }

  /** The finding stands for an entry that is the first of its kind. */
  ghost predicate Reports(raws: seq<Option<RawFinding>>, f: Finding) {
    exists i: nat :: First(raws, i) && Stands(f, raws[i].value)
  }

  lemma ReportsOneMore(raws: seq<Option<RawFinding>>, f: Finding)
    requires raws != []
    ensures
      var n := |raws| - 1;
      Reports(raws, f) <==> Reports(raws[..n], f) || (First(raws, n) && Stands(f, raws[n].value))
  {
    hide Stands, Same;
    var n := |raws| - 1;
    if i: nat :| First(raws, i) && Stands(f, raws[i].value) && i < n {
      FirstInFront(raws, i);
      assert First(raws[..n], i) && Stands(f, raws[..n][i].value);
    }
    if i: nat :| First(raws[..n], i) && Stands(f, raws[..n][i].value) {
      FirstInFront(raws, i);
      assert First(raws, i) && Stands(f, raws[i].value);
    }
  }

  /** Exactly the findings that are the first with their key are kept. */
  lemma {:induction false} KeptExactly(raws: seq<Option<RawFinding>>, f: Finding)
    ensures f in Kept(raws) <==> Reports(raws, f)
  {
    if raws != [] {
      KeptExactly(raws[..|raws| - 1], f);
      ReportsOneMore(raws, f);
      if raws[|raws| - 1].Some? {
        LastIsFirst(raws);
        StandsExactly(f, raws[|raws| - 1].value);
      }
    }
  }

  lemma {:induction false} KeysDoNotRepeat(raws: seq<Option<RawFinding>>)
    ensures forall i, j :: 0 <= i < j < |Kept(raws)| ==>
              var a, b := Kept(raws)[i], Kept(raws)[j];
              a.kind != b.kind || a.description != b.description
              || (if a.file.None? then "None" else a.file.value) != (if b.file.None? then "None" else b.file.value)
  {
    if raws != [] {
      var front := Kept(raws[..|raws| - 1]);
      KeysDoNotRepeat(raws[..|raws| - 1]);
      assert forall i :: 0 <= i < |front| ==> Key(front[i]) in Keys(front);
    }
  }

  lemma {:induction false} FirstOfItsKey(raws: seq<Option<RawFinding>>, i: nat) returns (k: nat)
    requires i < |raws| && raws[i].Some?
    ensures k <= i && First(raws, k) && Same(raws[k].value, raws[i].value)
    decreases i
  {
    if First(raws, i) {
      k := i;
    } else {
      var j :| 0 <= j < i && raws[j].Some? && Same(raws[j].value, raws[i].value);
      k := FirstOfItsKey(raws, j);
    }
  }

  /** A finding has one of the two types that block a merge. */
  ghost predicate SomeBlocking(raws: seq<Option<RawFinding>>) {
    exists i :: 0 <= i < |raws| && raws[i].Some? && raws[i].value.kind.Some?
                && (Lower(raws[i].value.kind.value) == "grounding_mismatch"
                    || Lower(raws[i].value.kind.value) == "verification_invalid")
  }

  /** Some critical or high finding is the first of those that are taken for the same. */
  ghost predicate SomeSevereFirst(raws: seq<Option<RawFinding>>) {
    exists i: nat :: First(raws, i) && raws[i].value.severity.Some?
                     && (Lower(raws[i].value.severity.value) == "critical"
                         || Lower(raws[i].value.severity.value) == "high")
  }

  lemma SameBlocks(a: RawFinding, b: RawFinding)
    requires Same(a, b)
    ensures Blocking(Normal(a)) <==> Blocking(Normal(b))
  {
    assert Normal(a).kind == Normal(b).kind;
  }

  /** A grounding or verification finding is never hidden: whatever stands for it has the same type. */
  lemma BlockingIsNeverHidden(raws: seq<Option<RawFinding>>)
    ensures (exists f :: f in Kept(raws) && Blocking(f)) <==> SomeBlocking(raws)
  {
    hide Blocking, Kept, Same, Stands, Normal, Lower;
    if i :| 0 <= i < |raws| && raws[i].Some? && raws[i].value.kind.Some?
            && (Lower(raws[i].value.kind.value) == "grounding_mismatch"
                || Lower(raws[i].value.kind.value) == "verification_invalid") {
      BlocksExactly(raws[i].value);
      var k := FirstOfItsKey(raws, i);
      StandsExactly(Normal(raws[k].value), raws[k].value);
      KeptExactly(raws, Normal(raws[k].value));
      SameBlocks(raws[k].value, raws[i].value);
    }
    if f :| f in Kept(raws) && Blocking(f) {
      KeptExactly(raws, f);
      var i: nat :| First(raws, i) && Stands(f, raws[i].value);
      StandsExactly(f, raws[i].value);
      BlocksExactly(raws[i].value);
    }
  }

  lemma SevereIsKeptExactly(raws: seq<Option<RawFinding>>)
    ensures (exists f :: f in Kept(raws) && Severe(f)) <==> SomeSevereFirst(raws)
  {
    hide Severe, Kept;
    if i: nat :| First(raws, i) && raws[i].value.severity.Some?
                 && (Lower(raws[i].value.severity.value) == "critical"
                     || Lower(raws[i].value.severity.value) == "high") {
      KeptExactly(raws, Normal(raws[i].value));
      StandsExactly(Normal(raws[i].value), raws[i].value);
      SevereExactly(raws[i].value);
    }
    if f :| f in Kept(raws) && Severe(f) {
      KeptExactly(raws, f);
      var i: nat :| First(raws, i) && Stands(f, raws[i].value);
      StandsExactly(f, raws[i].value);
      SevereExactly(raws[i].value);
    }
  }

  // ----- The two checks

  /** Nothing usable is mentioned, or every file of the patch is. */
  ghost predicate Grounded(files: seq<Option<string>>, mentioned: seq<string>) {
    || (forall m :: m in mentioned ==> NormalPath(m) == "")
    || (forall i :: 0 <= i < |files| && files[i].Some? && NormalPath(files[i].value) != "" ==>
          exists m :: m in mentioned && NormalPath(m) == NormalPath(files[i].value))
  }

  /** The tests were run and ended with one of pytest's two ordinary exit codes, as far as is known. */
  predicate Reliable(t: TestResults) {
    t.Results? ==>
      && Lower(Strip(t.classification)) != "path_error" && Lower(Strip(t.classification)) != "collection_error"
      && (t.exitCode.Some? ==> t.exitCode.value == 0 || t.exitCode.value == 1)
  }

  lemma GroundedExactly(files: seq<Option<string>>, mentioned: seq<string>)
    ensures Ungrounded(files, Allowed(mentioned)) == [] <==> Grounded(files, mentioned)
  {
    hide NormalPath, Ungrounded, Allowed;
    var r := Ungrounded(files, Allowed(mentioned));
    if r == [] {
      forall i | 0 <= i < |files| && files[i].Some? && NotMentioned(files[i].value, mentioned)
        ensures forall m :: m in mentioned ==> NormalPath(m) == ""
      {
        UngroundedExactly(files, mentioned, Some(GroundingFinding(NormalPath(files[i].value))));
      }
    } else {
      UngroundedExactly(files, mentioned, r[0]);
      assert r[0] in r;
    }
  }

  lemma NothingToReport(own: seq<Option<RawFinding>>, files: seq<Option<string>>,
                        mentioned: seq<string>, t: TestResults)
    requires Grounded(files, mentioned) && Reliable(t)
    ensures Reported(own, files, mentioned, t) == own
  {
    GroundedExactly(files, mentioned);
  }

  lemma SpecialKinds()
    ensures Lower(GROUNDING) == GROUNDING && Lower(VERIFICATION) == VERIFICATION
  {
    NoCapitals();
    LowerKeepsLower(GROUNDING);
    LowerKeepsLower(VERIFICATION);
  }

  predicate InLowerCase(s: string) {
    forall i :: 0 <= i < |s| ==> !('A' <= s[i] <= 'Z')
  }

  lemma NoCapitals()
    ensures InLowerCase(GROUNDING) && InLowerCase(VERIFICATION)
  {
  }

  lemma Decisions()
    ensures Strip(APPROVE) == APPROVE && Strip(REQUEST_CHANGES) != APPROVE && APPROVE != REQUEST_CHANGES
  {
    NotStripped(APPROVE);
    NotStripped(REQUEST_CHANGES);
    assert APPROVE[0] == 'a' && REQUEST_CHANGES[0] == 'r';
  }

  lemma NotStripped(s: string)
    requires s != "" && !IsSpace(s[0]) && !IsSpace(s[|s| - 1])
    ensures Strip(s) == s
  {
  }

  lemma {:induction false} LowerKeepsLower(s: string)
    requires InLowerCase(s)
    ensures Lower(s) == s
  {
    if s != "" {
      LowerKeepsLower(s[1..]);
    }
  }

  /** The checks block exactly when the patch leaves the allowed files or the verification is unreliable. */
  lemma ReportBlocksExactly(own: seq<Option<RawFinding>>, files: seq<Option<string>>,
                            mentioned: seq<string>, t: TestResults)
    ensures SomeBlocking(Reported(own, files, mentioned, t)) <==>
            SomeBlocking(own) || !Grounded(files, mentioned) || !Reliable(t)
  {
    hide Ungrounded, Allowed, EvaluateVerification, Grounded, Reliable, SomeBlocking;
    var g, v := Ungrounded(files, Allowed(mentioned)), EvaluateVerification(t);
    BlockingAppend(own, g);
    BlockingAppend(own + g, v);
    GroundingBlocksExactly(files, mentioned);
    VerificationBlocksExactly(t);
  }

  lemma KindOfStray(files: seq<Option<string>>, mentioned: seq<string>, f: Option<RawFinding>)
    requires f in Ungrounded(files, Allowed(mentioned))
    ensures f.Some? && f.value.kind == Some(GROUNDING)
  {
    hide Ungrounded, Allowed, NormalPath, NotMentioned;
    UngroundedExactly(files, mentioned, f);
  }

  lemma GroundingBlocksExactly(files: seq<Option<string>>, mentioned: seq<string>)
    ensures SomeBlocking(Ungrounded(files, Allowed(mentioned))) <==> !Grounded(files, mentioned)
  {
    hide Ungrounded, Allowed, Grounded, Lower, SomeBlocking;
    var r := Ungrounded(files, Allowed(mentioned));
    GroundedExactly(files, mentioned);
    forall f | f in r ensures f.Some? && f.value.kind == Some(GROUNDING) {
      KindOfStray(files, mentioned, f);
    }
    SpecialKinds();
    AllBlocking(r, GROUNDING);
  }

  lemma VerificationBlocksExactly(t: TestResults)
    ensures SomeBlocking(EvaluateVerification(t)) <==> !Reliable(t)
  {
    hide Lower, SomeBlocking, EvaluateVerification;
    SpecialKinds();
    AllBlocking(EvaluateVerification(t), VERIFICATION);
  }

  lemma BlockingAppend(a: seq<Option<RawFinding>>, b: seq<Option<RawFinding>>)
    ensures SomeBlocking(a + b) <==> SomeBlocking(a) || SomeBlocking(b)
  {
    assert forall i :: 0 <= i < |a| ==> (a + b)[i] == a[i];
    assert forall i :: 0 <= i < |b| ==> (a + b)[|a| + i] == b[i];
    assert forall i :: |a| <= i < |a + b| ==> (a + b)[i] == b[i - |a|];
  }

  lemma AllBlocking(fs: seq<Option<RawFinding>>, kind: string)
    requires forall f :: f in fs ==> f.Some? && f.value.kind == Some(kind)
    requires Lower(kind) == GROUNDING || Lower(kind) == VERIFICATION
    ensures SomeBlocking(fs) <==> fs != []
  {
    if fs != [] {
      assert fs[0] in fs;
    }
  }

  lemma DecidedExactly(initial: string, kept: seq<Finding>)
    ensures Decided(initial, kept)
            == if (exists f :: f in kept && Severe(f)) || (exists f :: f in kept && Blocking(f))
               then REQUEST_CHANGES else initial
  {
    if i :| 0 <= i < |kept| && (Severe(kept[i]) || Blocking(kept[i])) {
      assert kept[i] in kept;
    }
    if f :| f in kept && (Severe(f) || Blocking(f)) {
      var i :| 0 <= i < |kept| && kept[i] == f;
    }
  }

  /** The review stands by its initial decision exactly when every path is mentioned, the verification is
      reliable, and none of its own findings blocks or is severe and first of its kind. */
  lemma DecisionStandsExactly(initial: string, own: seq<Option<RawFinding>>, files: seq<Option<string>>,
                              mentioned: seq<string>, t: TestResults)
    ensures
      Decided(initial, Kept(Reported(own, files, mentioned, t)))
      == if Grounded(files, mentioned) && Reliable(t) && !SomeBlocking(own) && !SomeSevereFirst(own)
         then initial else "request_changes"
  {
    hide Kept, Reported, Decided, Grounded, Reliable, SomeBlocking, SomeSevereFirst;
    var reported := Reported(own, files, mentioned, t);
    DecidedExactly(initial, Kept(reported));
    BlockingIsNeverHidden(reported);
    SevereIsKeptExactly(reported);
    ReportBlocksExactly(own, files, mentioned, t);
    if Grounded(files, mentioned) && Reliable(t) {
      NothingToReport(own, files, mentioned, t);
    }
  }

  /** When the review lets a merge pass. */
  lemma ApprovedExactly(initial: string, own: seq<Option<RawFinding>>, files: seq<Option<string>>,
                        mentioned: seq<string>, t: TestResults)
    ensures
      var decision := Decided(initial, Kept(Reported(own, files, mentioned, t)));
      Strip(decision) == "approve" <==>
      && Strip(initial) == "approve"
      && Grounded(files, mentioned) && Reliable(t) && !SomeBlocking(own) && !SomeSevereFirst(own)
  {
    hide Kept, Reported, Decided, Grounded, Reliable, SomeBlocking, SomeSevereFirst;
    Decisions();
    DecisionStandsExactly(initial, own, files, mentioned, t);
  }

  /** The two agents together: a merge happens exactly when all of this holds. */
  method ReviewAndMerge(initial: string, own: seq<Option<RawFinding>>, files: seq<Option<string>>,
                        mentioned: seq<string>,
                        t: TestResults, prNumber: Option<int>, liveMerge: bool, client: bool, pull: Pull)
    returns (review: ReviewResult, r: MergeStatus)
    ensures
      var passed := t.Results? && (t.exitCode == Some(0) || (t.exitCode.None? && t.failed == Some(0)));
      && (r.merged <==>
            && liveMerge && client && prNumber.Some? && prNumber.value > 0
            && Strip(initial) == "approve" && !SomeBlocking(own) && !SomeSevereFirst(own)
            && Grounded(files, mentioned) && Reliable(t) && passed
            && pull.Pull? && pull.mergeable == Some(true) && !pull.draft && pull.state != Some("failure")
            && pull.mergeWorks)
      && ("tests_not_passed" in r.reasons <==> !passed)
    ensures forall f :: f in review.findings ==> Reports(Reported(own, files, mentioned, t), f)
    ensures r.merged ==> forall f :: f in review.findings ==>
              && Lower(f.severity) != "critical" && Lower(f.severity) != "high"
              && Lower(f.kind) != "grounding_mismatch" && Lower(f.kind) != "verification_invalid"
  {
    hide Kept, Reported, Grounded, Reliable, SomeBlocking, SomeSevereFirst, Strip;
    review := Review(initial, own, files, mentioned, t);
    ApprovedExactly(initial, own, files, mentioned, t);
    DecidedExactly(initial, review.findings);
    Decisions();
    ReasonsDiffer();
    forall f | f in review.findings ensures Reports(Reported(own, files, mentioned, t), f) {
      KeptExactly(Reported(own, files, mentioned, t), f);
    }
    r := Merge(Some(review), t, prNumber, liveMerge, client, pull);
  }

  /** A high finding is hidden by a low one before it with the same file, type and description, and then
      does not keep the review from approving; in the other order it does. */
  lemma LowTwinHidesHigh(low: RawFinding, high: RawFinding)
    requires low.severity == Some("low") && high.severity == Some("high") && Same(low, high)
    requires !SomeBlocking([Some(low), Some(high)])
    ensures Decided("approve", Kept([Some(low), Some(high)])) == "approve"
    ensures Decided("approve", Kept([Some(high), Some(low)])) == "request_changes"
  {
    hide Decided, Kept, SomeSevereFirst, SomeBlocking, Same;
    NotSevereInFront(low, high);
    SevereInFront(low, high);
    StillNoneBlocks(low, high);
    Unchecked("approve", [Some(low), Some(high)]);
    Unchecked("approve", [Some(high), Some(low)]);
  }

  /** Without files, diagnostics and test results the checks add nothing. */
  lemma Unchecked(initial: string, own: seq<Option<RawFinding>>)
    ensures Decided(initial, Kept(own))
            == if !SomeBlocking(own) && !SomeSevereFirst(own) then initial else "request_changes"
  {
    hide Decided, Kept, SomeSevereFirst, SomeBlocking;
    DecisionStandsExactly(initial, own, [], [], NoResults);
    NothingToReport(own, [], [], NoResults);
  }

  lemma StillNoneBlocks(low: RawFinding, high: RawFinding)
    requires !SomeBlocking([Some(low), Some(high)])
    ensures !SomeBlocking([Some(high), Some(low)])
  {
    hide Lower;
    assert [Some(low), Some(high)][0] == Some(low) && [Some(low), Some(high)][1] == Some(high);
  }

  lemma NotSevereInFront(low: RawFinding, high: RawFinding)
    requires low.severity == Some("low") && Same(low, high)
    ensures !SomeSevereFirst([Some(low), Some(high)])
  {
    hide Same, Lower;
    SeverityNames();
    var fs := [Some(low), Some(high)];
    assert fs[0] == Some(low) && fs[1] == Some(high);
    assert !First(fs, 1);
  }

  lemma SevereInFront(low: RawFinding, high: RawFinding)
    requires high.severity == Some("high")
    ensures SomeSevereFirst([Some(high), Some(low)])
  {
    hide Same, Lower;
    SeverityNames();
    var fs := [Some(high), Some(low)];
    assert fs[0] == Some(high);
    assert First(fs, 0);
  }

  lemma SeverityNames()
    ensures Lower("low") == "low" && Lower("high") == "high" && |"low"| == 3 && |"high"| == 4 && |"critical"| == 8
  {
    hide Lower;
    LowerKeepsLower("low");
    LowerKeepsLower("high");
  }
}
