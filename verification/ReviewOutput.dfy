/** `parse_review_output` of `agents/llm_wrapper.py`: finding a JSON object in an answer of a model. */
module ReviewOutput {
  import opened Basics
  import opened Json
  import opened JsonDictionary
  import opened Texts

  // ----- Cleaning

  const FENCE := "```"

  predicate IsJsonWord(s: string) {
    |s| >= 4 && s[0] in "jJ" && s[1] in "sS" && s[2] in "oO" && s[3] in "nN"
  }

  function WithoutOpeningFence(s: string): string {
    if !(FENCE <= s) then s
    else if IsJsonWord(s[3..]) then StripLeft(s[7..])
    else StripLeft(s[3..])
  }

  function WithoutClosingFence(s: string): string {
    if |s| >= 3 && s[|s| - 3..] == FENCE then StripRight(s[..|s| - 3]) else s
  }

  function Cleaned(output: string): string {
    WithoutClosingFence(WithoutOpeningFence(Strip(output)))
  }

  // ----- Scanning

  function AsObject(text: string): Option<Json> {
    var v := Loads(text);
    if v.Some? && v.value.Obj? then v else None
  }

  function Weight(c: char): int {
    if c == '{' then 1 else if c == '}' then -1 else 0
  }

  /** Opening minus closing braces. */
  function Balance(s: string): int {
    if s == "" then 0 else Balance(s[..|s| - 1]) + Weight(s[|s| - 1])
  }

  /** The scanner tries the text from i up to and including j. */
  predicate Candidate(text: string, i: nat, j: nat) {
    i <= j < |text| && text[i] == '{' && text[j] == '}' && Balance(text[i..j + 1]) == 0
  }

  predicate Hit(text: string, i: nat, j: nat) {
    Candidate(text, i, j) && AsObject(text[i..j + 1]).Some?
  }

  /** What is found among the candidates that begin at i: the shortest one that is an object. */
  ghost predicate FoundFrom(text: string, i: nat, r: Option<Json>) {
    if r.None? then forall j :: !Hit(text, i, j)
    else exists j: nat :: Hit(text, i, j) && r == AsObject(text[i..j + 1])
                            && forall k: nat :: k < j ==> !Hit(text, i, k)
  }

  /** The first object among the candidates in the order of their beginnings, then of their ends. */
  ghost predicate Found(text: string, r: Option<Json>) {
    if r.None? then forall i, j :: !Hit(text, i, j)
    else exists i :: FoundFrom(text, i, r) && forall h, j :: h < i ==> !Hit(text, h, j)
  }

  lemma NothingYet()
    ensures Balance("") == 0
  {
  }

  lemma OneMoreWeight(text: string, start: nat, idx: nat)
    requires start <= idx < |text|
    ensures Balance(text[start..idx + 1])
            == Balance(text[start..idx]) + (if text[idx] == '{' then 1 else if text[idx] == '}' then -1 else 0)
  {
    assert text[start..idx + 1][..idx - start] == text[start..idx];
  }

  method ScanFrom(text: string, start: nat) returns (r: Option<Json>)
    requires start < |text| && text[start] == '{'
    ensures FoundFrom(text, start, r)
  {
    hide Balance, AsObject, Weight;
    var depth := 0;
    NothingYet();
    assert text[start..start] == "";
    for idx := start to |text|
      invariant depth == Balance(text[start..idx])
      invariant forall k: nat :: k < idx ==> !Hit(text, start, k)
    {
      OneMoreWeight(text, start, idx);
      if text[idx] == '{' {
        depth := depth + 1;
      } else if text[idx] == '}' {
        depth := depth - 1;
        if depth == 0 {
          r := AsObject(text[start..idx + 1]);
          if r.Some? {
            assert Hit(text, start, idx);
            return;
          }
        }
      }
    }
    r := None;
  }

  method Scan(text: string) returns (r: Option<Json>)
    ensures Found(text, r)
  {
    for start := 0 to |text|
      invariant forall h: nat, j: nat :: h < start ==> !Hit(text, h, j)
    {
      if text[start] == '{' {
        r := ScanFrom(text, start);
        if r.Some? {
          return;
        }
      }
    }
    r := None;
  }

  /** The whole text if it is an object, else what the scanner finds. */
  ghost predicate Reading(text: string, r: Option<Json>) {
    if AsObject(text).Some? then r == AsObject(text) else Found(text, r)
  }

  method ReadObject(text: string) returns (r: Option<Json>)
    ensures Reading(text, r)
  {
    r := AsObject(text);
    if r.None? {
      r := Scan(text);
    }
  }

  // ----- Defaults

  type Fields = map<string, Json>

  function FieldsOf(ms: seq<Member>): Fields {
    if ms == [] then map[] else FieldsOf(ms[..|ms| - 1])[ms[|ms| - 1].key := ms[|ms| - 1].value]
  }

  const DECISION_ALIASES := ["decision", "overallDecision", "final_decision", "finalDecision", "review_decision"]

  function FirstOf(fields: Fields, keys: seq<string>): Option<Json> {
    if keys == [] then None
    else if keys[0] in fields then Some(fields[keys[0]])
    else FirstOf(fields, keys[1..])
  }

  function Decision(fields: Fields): Json {
    var alias := FirstOf(fields, DECISION_ALIASES);
    if alias.Some? then alias.value else Str("request_changes")
  }

  const DEFAULT_CONFIDENCE := Real(FloatParts(false, "0", ".7", ""))

  function Defaults(fields: Fields): Fields {
    map[
      "overall_decision" := Decision(fields),
      "summary" := Str(""),
      "findings" := Arr([]),
      "strengths" := Arr([]),
      "recommendations" := Arr([]),
      "confidence" := DEFAULT_CONFIDENCE
    ]
  }

  /** The fields of an answer with its gaps filled.  A field that is there stays; the decision comes from the
      first of five other names, in this order; the rest have fixed values. */
  ghost predicate Completed(own: Fields, fields: Fields) {
    && fields.Keys
       == own.Keys + {"overall_decision", "summary", "findings", "strengths", "recommendations", "confidence"}
    && (forall k :: k in own ==> fields[k] == own[k])
    && ("summary" !in own ==> fields["summary"] == Str(""))
    && ("findings" !in own ==> fields["findings"] == Arr([]))
    && ("strengths" !in own ==> fields["strengths"] == Arr([]))
    && ("recommendations" !in own ==> fields["recommendations"] == Arr([]))
    && ("confidence" !in own ==> fields["confidence"] == Real(FloatParts(false, "0", ".7", "")))
    && ("overall_decision" !in own ==>
          fields["overall_decision"]
          == if "decision" in own then own["decision"]
             else if "overallDecision" in own then own["overallDecision"]
             else if "final_decision" in own then own["final_decision"]
             else if "finalDecision" in own then own["finalDecision"]
             else if "review_decision" in own then own["review_decision"]
             else Str("request_changes"))
  }

  lemma DecisionExactly(own: Fields)
    ensures Decision(own)
            == if "decision" in own then own["decision"]
               else if "overallDecision" in own then own["overallDecision"]
               else if "final_decision" in own then own["final_decision"]
               else if "finalDecision" in own then own["finalDecision"]
               else if "review_decision" in own then own["review_decision"]
               else Str("request_changes")
  {
    var a := DECISION_ALIASES;
    assert a[1..][0] == a[1] && a[1..][1..] == a[2..] && a[2..][1..] == a[3..] && a[3..][1..] == a[4..];
    assert a[4..][1..] == [];
    assert FirstOf(own, a[4..]) == if a[4] in own then Some(own[a[4]]) else None;
    assert FirstOf(own, a[3..]) == if a[3] in own then Some(own[a[3]]) else FirstOf(own, a[4..]);
    assert FirstOf(own, a[2..]) == if a[2] in own then Some(own[a[2]]) else FirstOf(own, a[3..]);
    assert FirstOf(own, a[1..]) == if a[1] in own then Some(own[a[1]]) else FirstOf(own, a[2..]);
  }

  lemma DefaultsComplete(own: Fields)
    ensures Completed(own, Defaults(own) + own)
  {
    hide Decision;
    DecisionExactly(own);
  }

  method FirstAlias(fields: Fields) returns (r: Option<Json>)
    requires "decision" !in fields
    ensures r == FirstOf(fields, DECISION_ALIASES)
  {
    var aliases := ["overallDecision", "final_decision", "finalDecision", "review_decision"];
    assert DECISION_ALIASES[1..] == aliases;
    r := None;
    for i := 0 to |aliases|
      invariant FirstOf(fields, aliases) == FirstOf(fields, aliases[i..])
    {
      if aliases[i] in fields {
        return Some(fields[aliases[i]]);
      }
      assert aliases[i..][1..] == aliases[i + 1..];
    }
  }

  method SetDefault(fields: Fields, key: string, value: Json) returns (result: Fields)
    ensures result == map[key := value] + fields
  {
    result := fields;
    if key !in result {
      result := result[key := value];
    }
  }

  method SetDecision(fields: Fields) returns (result: Fields)
    ensures result == map["overall_decision" := Decision(fields)] + fields
  {
    result := fields;
    if "overall_decision" !in result {
      if "decision" in result {
        result := result["overall_decision" := result["decision"]];
      } else {
        var alias := FirstAlias(result);
        if alias.Some? {
          result := result["overall_decision" := alias.value];
        }
      }
    }
    if "overall_decision" !in result {
      result := result["overall_decision" := Str("request_changes")];
    }
  }

  method Normalize(fields: Fields) returns (result: Fields)
    ensures result == Defaults(fields) + fields
    ensures Completed(fields, result)
  {
    hide Completed, Decision;
    DefaultsComplete(fields);
    result := SetDecision(fields);
    result := SetDefault(result, "summary", Str(""));
    result := SetDefault(result, "findings", Arr([]));
    result := SetDefault(result, "strengths", Arr([]));
    result := SetDefault(result, "recommendations", Arr([]));
    result := SetDefault(result, "confidence", DEFAULT_CONFIDENCE);
    DefaultsInTurn(fields, Decision(fields), DEFAULT_CONFIDENCE);
  }

  lemma DefaultsInTurn(fields: Fields, decision: Json, confidence: Json)
    ensures
      map["confidence" := confidence] + (map["recommendations" := Arr([])] + (map["strengths" := Arr([])]
        + (map["findings" := Arr([])] + (map["summary" := Str("")] + (map["overall_decision" := decision] + fields)))))
      == map["overall_decision" := decision, "summary" := Str(""), "findings" := Arr([]), "strengths" := Arr([]),
             "recommendations" := Arr([]), "confidence" := confidence] + fields
  {
    InTurn(fields, ["overall_decision", "summary", "findings", "strengths", "recommendations", "confidence"],
      [decision, Str(""), Arr([]), Arr([]), Arr([]), confidence]);
  }

  lemma InTurn(fields: Fields, k: seq<string>, v: seq<Json>)
    requires |k| == |v| == 6 && forall i, j :: 0 <= i < j < 6 ==> |k[i]| != |k[j]|
    ensures
      map[k[5] := v[5]] + (map[k[4] := v[4]] + (map[k[3] := v[3]] + (map[k[2] := v[2]] + (map[k[1] := v[1]]
        + (map[k[0] := v[0]] + fields)))))
      == map[k[0] := v[0], k[1] := v[1], k[2] := v[2], k[3] := v[3], k[4] := v[4], k[5] := v[5]] + fields
  {
  }

  // ----- Findings

  datatype Outcome =
    | Review(fields: Fields)
    | EmptyOutput
    | InvalidJson
    | FindingNotObject(index: nat)
    | FindingLacks(index: nat, key: string)
    | FindingsNotIterable

  predicate HasKey(v: Json, key: string) {
    v.Obj? && exists i :: 0 <= i < |v.members| && v.members[i].key == key
  }

  predicate IsFinding(v: Json) {
    v.Obj? && HasKey(v, "type") && HasKey(v, "severity") && HasKey(v, "description")
  }

  function Fault(v: Json, index: nat): (r: Option<Outcome>)
    ensures r.None? <==> IsFinding(v)
    ensures r.Some? ==> !r.value.EmptyOutput? && !r.value.Review?
  {
    if !v.Obj? then Some(FindingNotObject(index))
    else if !HasKey(v, "type") then Some(FindingLacks(index, "type"))
    else if !HasKey(v, "severity") then Some(FindingLacks(index, "severity"))
    else if !HasKey(v, "description") then Some(FindingLacks(index, "description"))
    else None
  }

  /** The fault of the first finding that has one. */
  function FirstFault(items: seq<Json>, index: nat): (r: Option<Outcome>)
    ensures r.None? <==> forall i :: 0 <= i < |items| ==> IsFinding(items[i])
    ensures r.Some? ==> !r.value.EmptyOutput? && !r.value.Review?
  {
    if items == [] then None
    else if Fault(items[0], index).Some? then Fault(items[0], index)
    else
      assert forall i :: 0 < i < |items| ==> items[i] == items[1..][i - 1];
      FirstFault(items[1..], index + 1)
  }

  /** A text is iterated by its characters and an object by its keys; neither holds an object. */
  function FaultIn(findings: Json): Option<Outcome> {
    match findings
    case Arr(items) => FirstFault(items, 0)
    case Str(s) => if s == "" then None else Some(FindingNotObject(0))
    case Obj(ms) => if ms == [] then None else Some(FindingNotObject(0))
    case _ => Some(FindingsNotIterable)
  }

  /** The finding is an object with a type, a severity and a description. */
  ghost predicate Complete(v: Json) {
    && v.Obj?
    && (exists m :: m in v.members && m.key == "type")
    && (exists m :: m in v.members && m.key == "severity")
    && (exists m :: m in v.members && m.key == "description")
  }

  /** What is wrong with the finding at the given place: the first of four things that is. */
  ghost predicate Describes(fault: Outcome, v: Json, index: nat) {
    var has := (k: string) => v.Obj? && exists m :: m in v.members && m.key == k;
    fault == if !v.Obj? then FindingNotObject(index)
             else if !has("type") then FindingLacks(index, "type")
             else if !has("severity") then FindingLacks(index, "severity")
             else FindingLacks(index, "description")
  }

  lemma FaultExactly(v: Json, index: nat)
    ensures Fault(v, index).None? <==> Complete(v)
    ensures Fault(v, index).Some? ==> Describes(Fault(v, index).value, v, index)
  {
    forall k: string ensures HasKey(v, k) <==> v.Obj? && exists m :: m in v.members && m.key == k {
    }
  }

  /** The first finding at fault and its fault; findings that are not a list are none only when there is nothing
      in them. */
  method CheckFindings(findings: Json) returns (fault: Option<Outcome>)
    ensures fault == FaultIn(findings)
    ensures findings.Arr? ==>
              var items := findings.items;
              if fault.None? then forall i :: 0 <= i < |items| ==> Complete(items[i])
              else exists i: nat :: i < |items| && !Complete(items[i]) && Describes(fault.value, items[i], i)
                                    && forall k :: 0 <= k < i ==> Complete(items[k])
    ensures findings.Str? ==> fault == if findings.s == "" then None else Some(FindingNotObject(0))
    ensures findings.Obj? ==> fault == if findings.members == [] then None else Some(FindingNotObject(0))
    ensures !findings.Arr? && !findings.Str? && !findings.Obj? ==> fault == Some(FindingsNotIterable)
  {
    hide Complete, Describes, Fault;
    match findings {
      case Arr(items) =>
        for i := 0 to |items|
          invariant FirstFault(items, 0) == FirstFault(items[i..], i)
          invariant forall k :: 0 <= k < i ==> Complete(items[k])
        {
          FaultExactly(items[i], i);
          fault := Fault(items[i], i);
          if fault.Some? {
            return;
          }
          assert items[i..][1..] == items[i + 1..];
        }
        fault := None;
      case Str(s) => fault := if s == "" then None else Some(FindingNotObject(0));
      case Obj(ms) => fault := if ms == [] then None else Some(FindingNotObject(0));
      case _ => fault := Some(FindingsNotIterable);
    }
  }

  function JudgedFields(fields: Fields): Outcome
    requires "findings" in fields
  {
    var fault := FaultIn(fields["findings"]);
    if fault.Some? then fault.value else Review(fields)
  }

  /** What becomes of an object that has been read. */
  function Judged(v: Option<Json>): Outcome
    requires v.Some? ==> v.value.Obj?
  {
    if v.None? then InvalidJson
    else
      var own := FieldsOf(v.value.members);
      JudgedFields(Defaults(own) + own)
  }

  const REQUIRED_FIELDS := ["overall_decision", "summary", "findings", "strengths", "recommendations", "confidence"]

  lemma DefaultsAreComplete(own: Fields, i: nat)
    requires i < |REQUIRED_FIELDS|
    ensures REQUIRED_FIELDS[i] in Defaults(own) + own
  {
  }

  method CheckRequired(fields: Fields) returns (missing: Option<string>)
    ensures missing.None? <==>
            {"overall_decision", "summary", "findings", "strengths", "recommendations", "confidence"} <= fields.Keys
    ensures missing.Some? ==> missing.value !in fields
  {
    for i := 0 to |REQUIRED_FIELDS|
      invariant forall k :: 0 <= k < i ==> REQUIRED_FIELDS[k] in fields
    {
      if REQUIRED_FIELDS[i] !in fields {
        return Some(REQUIRED_FIELDS[i]);
      }
    }
    AllSix(fields);
    return None;
  }

  ghost predicate HasRequired(fields: Fields) {
    forall i :: 0 <= i < |REQUIRED_FIELDS| ==> REQUIRED_FIELDS[i] in fields
  }

  lemma AllSix(fields: Fields)
    requires HasRequired(fields)
    ensures {"overall_decision", "summary", "findings", "strengths", "recommendations", "confidence"} <= fields.Keys
  {
    var f := REQUIRED_FIELDS;
    assert f[0] in fields && f[1] in fields && f[2] in fields && f[3] in fields && f[4] in fields && f[5] in fields;
  }

  lemma DefaultsHaveRequired(own: Fields)
    ensures HasRequired(Defaults(own) + own)
  {
    forall i | 0 <= i < |REQUIRED_FIELDS| ensures REQUIRED_FIELDS[i] in Defaults(own) + own {
      DefaultsAreComplete(own, i);
    }
  }

  /** The check for missing fields that follows the defaults never fails. */
  method JudgeFields(own: Fields) returns (r: Outcome)
    ensures r == JudgedFields(Defaults(own) + own)
    ensures r.Review? ==> HasRequired(r.fields) && Completed(own, r.fields)
    ensures !r.EmptyOutput?
  {
    hide Completed, Complete, Describes;
    var fields := Normalize(own);
    DefaultsHaveRequired(own);
    var missing := CheckRequired(fields);
    assert missing.None?;
    var fault := CheckFindings(fields["findings"]);
    r := if fault.Some? then fault.value else Review(fields);
  }

  /** The outcome for a cleaned text of which the given object, or none, is read. */
  ghost predicate OutcomeOf(text: string, v: Option<Json>, r: Outcome) {
    Reading(text, v) && (v.Some? ==> v.value.Obj?) && r == Judged(v)
  }

  /** The fields of an object by their names. */
  ghost predicate IsOwn(ms: seq<Member>, own: Fields) {
    && (forall i :: 0 <= i < |ms| ==> ms[i].key in own && own[ms[i].key] == ms[i].value)
    && (forall k :: k in own ==> exists i :: 0 <= i < |ms| && ms[i].key == k)
  }

  lemma OneMoreOwn(front: seq<Member>, last: Member, own: Fields)
    requires UniqueKeys(front + [last]) && IsOwn(front, own)
    ensures IsOwn(front + [last], own[last.key := last.value])
  {
    var ms := front + [last];
    var n := |front|;
    assert ms[n] == last;
    forall i | 0 <= i < n ensures ms[i] == front[i] && ms[i].key != last.key {
      assert ms[i].key != ms[n].key;
    }
    forall k | k in own ensures exists i :: 0 <= i < |ms| && ms[i].key == k {
      var i :| 0 <= i < n && front[i].key == k;
      assert ms[i].key == k;
    }
  }

  lemma {:induction false} FieldsAreOwn(ms: seq<Member>)
    requires UniqueKeys(ms)
    ensures IsOwn(ms, FieldsOf(ms))
  {
    if ms != [] {
      hide IsOwn;
      var n := |ms| - 1;
      assert ms == ms[..n] + [ms[n]];
      FieldsAreOwn(ms[..n]);
      OneMoreOwn(ms[..n], ms[n], FieldsOf(ms[..n]));
    }
  }

  /** The review is the object that is read, with its gaps filled. */
  ghost predicate ReviewOf(text: string, fields: Fields) {
    exists v, own :: Reading(text, Some(v)) && v.Obj? && IsOwn(v.members, own) && Completed(own, fields)
  }

  method ParseCleaned(text: string) returns (r: Outcome, ghost v: Option<Json>)
    ensures OutcomeOf(text, v, r)
    ensures r.Review? ==> HasRequired(r.fields) && ReviewOf(text, r.fields)
    ensures !r.EmptyOutput?
  {
    hide Completed, IsOwn;
    var found := ReadObject(text);
    v := found;
    if found.None? {
      return InvalidJson, v;
    }
    ReadingIsObject(text, found);
    FieldsAreOwn(found.value.members);
    r := JudgeFields(FieldsOf(found.value.members));
  }

  method ParseReviewOutput(output: string) returns (r: Outcome)
    ensures r == EmptyOutput <==> Strip(output) == ""
    ensures r != EmptyOutput ==> exists v :: OutcomeOf(Cleaned(output), v, r)
    ensures r.Review? ==> HasRequired(r.fields) && ReviewOf(Cleaned(output), r.fields)
  {
    if Strip(output) == "" {
      return EmptyOutput;
    }
    ghost var v;
    r, v := ParseCleaned(Cleaned(output));
  }

  // ----- The scanner's result is determined

  lemma ShortestIsUnique(text: string, i: nat, j: nat, l: nat)
    requires Hit(text, i, j) && forall k: nat :: k < j ==> !Hit(text, i, k)
    requires Hit(text, i, l) && forall k: nat :: k < l ==> !Hit(text, i, k)
    ensures j == l
  {
  }

  lemma FoundFromIsUnique(text: string, i: nat, a: Option<Json>, b: Option<Json>)
    requires FoundFrom(text, i, a) && FoundFrom(text, i, b)
    ensures a == b
  {
    hide AsObject, Balance;
    if a.Some? && b.Some? {
      var j: nat :| Hit(text, i, j) && a == AsObject(text[i..j + 1]) && forall k: nat :: k < j ==> !Hit(text, i, k);
      var l: nat :| Hit(text, i, l) && b == AsObject(text[i..l + 1]) && forall k: nat :: k < l ==> !Hit(text, i, k);
      ShortestIsUnique(text, i, j, l);
    }
  }

  lemma ReadingIsUnique(text: string, a: Option<Json>, b: Option<Json>)
    ensures Reading(text, a) && Reading(text, b) ==> a == b
  {
    if Found(text, a) && Found(text, b) && a.Some? && b.Some? {
      var i :| FoundFrom(text, i, a) && forall h, j :: h < i ==> !Hit(text, h, j);
      var h :| FoundFrom(text, h, b) && forall k, j :: k < h ==> !Hit(text, k, j);
      var j :| Hit(text, i, j);
      var l :| Hit(text, h, l);
      assert i == h;
      FoundFromIsUnique(text, i, a, b);
    }
  }

  lemma ReadingIsObject(text: string, v: Option<Json>)
    requires Reading(text, v) && v.Some?
    ensures v.value.Obj? && UniqueKeys(v.value.members)
  {
    hide Loads;
    if AsObject(text).None? {
      var i: nat :| FoundFrom(text, i, v) && forall h: nat, j: nat :: h < i ==> !Hit(text, h, j);
      var j: nat :| Hit(text, i, j) && v == AsObject(text[i..j + 1]) && forall k: nat :: k < j ==> !Hit(text, i, k);
      LoadedIsWellFormed(text[i..j + 1]);
    } else {
      LoadedIsWellFormed(text);
    }
  }
}
