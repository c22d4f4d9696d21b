/** When a plan printed into an issue comment is read back unchanged. */
module PlanLaws {
  import opened Basics
  import opened Decimal
  import opened Json
  import opened JsonLaws
  import opened JsonLines
  import opened Texts
  import opened PlanComment

  // ----- Markers inside printed JSON

  /** The characters of the markers; JSON prints each of them as it is. */
  predicate IsMarkerChar(c: char) {
    'a' <= c <= 'z' || c == '<' || c == '>' || c == '!' || c == '-' || c == ':' || c == ' '
  }

  /** A word that can be told apart from the JSON around it. */
  predicate IsMarker(m: string) {
    m != "" && m[0] == '<' && forall c :: c in m ==> IsMarkerChar(c)
  }

  ghost predicate Mentions(v: Json, m: string) {
    match v
    case Str(s) => Contains(s, m)
    case Arr(items) => exists i :: 0 <= i < |items| && Mentions(items[i], m)
    case Obj(ms) => exists i :: 0 <= i < |ms| && (Contains(ms[i].key, m) || Mentions(ms[i].value, m))
    case _ => false
  }

  lemma EscapeTail(c: char)
    requires EscapeChar(c) != [c]
    ensures EscapeChar(c)[0] == '\\' && '<' !in EscapeChar(c)
  {
    if ShortEscape(c).None? {
      var hi, lo := c as int / 16, c as int % 16;
      assert HEX[hi] != '<' && HEX[lo] != '<' by {
        HexDigitIsNoMarker(hi);
        HexDigitIsNoMarker(lo);
      }
    }
  }

  lemma HexDigitIsNoMarker(d: nat)
    requires d < 16
    ensures HEX[d] != '<'
  {
  }

  /** At any position, the word is in the escaped text exactly when it is in the text. */
  lemma {:induction false} EscapeKeepsPrefix(s: string, m: string)
    requires forall c :: c in m ==> IsMarkerChar(c)
    ensures m <= Escape(s) <==> m <= s
    decreases |m|
  {
    if m != "" && s != "" {
      assert m[0] in m && EscapeChar(m[0]) == [m[0]];
      var e := EscapeChar(s[0]);
      if e == [s[0]] {
        assert Escape(s) == [s[0]] + Escape(s[1..]);
        EscapeKeepsPrefix(s[1..], m[1..]);
        PrefixByHead(m, s);
        PrefixByHead(m, Escape(s));
        assert Escape(s)[1..] == Escape(s[1..]);
      } else {
        EscapeTail(s[0]);
        assert Escape(s)[0] == '\\';
        assert m[0] != '\\' && m[0] != s[0];
      }
    }
  }

  lemma PrefixByHead(m: string, s: string)
    requires m != "" && s != ""
    ensures m <= s <==> m[0] == s[0] && m[1..] <= s[1..]
  {
    if m[0] == s[0] && m[1..] <= s[1..] {
      assert m == [m[0]] + m[1..] && s == [s[0]] + s[1..];
    }
  }

  lemma ContainsByHead(s: string, m: string)
    requires s != "" && m != ""
    ensures Contains(s, m) <==> m <= s || Contains(s[1..], m)
  {
    assert s[0..] == s;
    if k :| 0 <= k <= |s| && m <= s[k..] {
      if k > 0 {
        assert s[1..][k - 1..] == s[k..];
      }
    }
    if k :| 0 <= k <= |s[1..]| && m <= s[1..][k..] {
      assert s[1..][k..] == s[k + 1..];
    }
  }

  lemma {:induction false} EscapeKeepsMarkers(s: string, m: string)
    requires IsMarker(m)
    ensures Contains(Escape(s), m) <==> Contains(s, m)
  {
    if s == "" {
    } else if EscapeChar(s[0]) == [s[0]] {
      EscapeKeepsMarkers(s[1..], m);
      EscapeKeepsPrefix(s, m);
      ContainsByHead(s, m);
      ContainsByHead(Escape(s), m);
      assert Escape(s)[1..] == Escape(s[1..]);
    } else {
      EscapeTail(s[0]);
      EscapeKeepsMarkers(s[1..], m);
      ContainsAfter(EscapeChar(s[0]), Escape(s[1..]), m);
      assert s[0] != m[0];
      ContainsAfter([s[0]], s[1..], m);
      HeadAndTail(s);
    }
  }

  lemma StringKeepsMarkers(s: string, m: string)
    requires IsMarker(m)
    ensures Contains(PrintString(s), m) <==> Contains(s, m)
  {
    EscapeKeepsMarkers(s, m);
    ContainsAfter("\"", Escape(s) + "\"", m);
    ContainsAround(Escape(s), '"', "", m);
    ContainsNothingOf("", m);
    Associate("\"", Escape(s), "\"");
    assert Escape(s) + ['"'] + "" == Escape(s) + "\"";
  }

  lemma NumberHasNoMarker(n: int, m: string)
    requires IsMarker(m)
    ensures !Contains(PrintNum(n), m)
  {
    DigitsDenote(if n < 0 then -n else n);
    ContainsNothingOf(PrintNum(n), m);
  }

  lemma FloatHasNoMarker(f: Float, m: string)
    requires IsMarker(m)
    ensures !Contains(PrintFloat(f), m)
  {
    FloatCharacters(f);
    ContainsNothingOf(PrintFloat(f), m);
  }

  lemma Bracketed(open: string, inner: string, close: char, m: string)
    requires IsMarker(m) && '<' !in open && !IsMarkerChar(close)
    ensures Contains(open + inner + [close], m) <==> Contains(inner, m)
  {
    ContainsAfter(open, inner + [close], m);
    ContainsAround(inner, close, "", m);
    ContainsNothingOf("", m);
    Associate(open, inner, [close]);
    assert inner + [close] + "" == inner + [close];
  }

  /** A marker is in the printed text exactly when it is in one of the strings or keys. */
  lemma {:induction false} PrintKeepsMarkers(v: Json, m: string)
    requires IsMarker(m)
    ensures Contains(Print(v), m) <==> Mentions(v, m)
    decreases v, 1
  {
    match v
    case Null => ContainsNothingOf(Print(v), m);
    case Bool(_) => ContainsNothingOf(Print(v), m);
    case Num(n) => NumberHasNoMarker(n, m);
    case Real(f) => FloatHasNoMarker(f, m);
    case NaN => ContainsNothingOf(Print(v), m);
    case Infinity(_) => ContainsNothingOf(Print(v), m);
    case Str(s) => StringKeepsMarkers(s, m);
    case Arr(items) =>
      ItemsKeepMarkers(items, m);
      Bracketed("[", PrintItems(items), ']', m);
    case Obj(ms) =>
      MembersKeepMarkers(ms, m);
      Bracketed("{", PrintMembers(ms), '}', m);
  }

  lemma {:induction false} ItemsKeepMarkers(items: seq<Json>, m: string)
    requires IsMarker(m)
    ensures Contains(PrintItems(items), m) <==> exists i :: 0 <= i < |items| && Mentions(items[i], m)
    decreases items, 0
  {
    if items == [] {
      ContainsNothingOf("", m);
    } else {
      PrintKeepsMarkers(items[0], m);
      if |items| > 1 {
        var rest := items[1..];
        ItemsKeepMarkers(rest, m);
        ContainsAround(Print(items[0]), ',', PrintItems(rest), m);
        assert forall i :: 0 <= i < |rest| ==> rest[i] == items[i + 1];
        assert forall i :: 0 < i < |items| ==> items[i] == rest[i - 1];
      }
    }
  }

  lemma {:induction false} MemberKeepsMarkers(member: Member, m: string)
    requires IsMarker(m)
    ensures Contains(PrintMember(member), m) <==> Contains(member.key, m) || Mentions(member.value, m)
    decreases member, 2
  {
    var value := Print(member.value);
    PrintKeepsMarkers(member.value, m);
    EscapeKeepsMarkers(member.key, m);
    ContainsAfter("\"", Escape(member.key), m);
    ContainsAfter(":", value, m);
    ContainsAround("\"" + Escape(member.key), '"', ":" + value, m);
    Associate("\"" + Escape(member.key) + "\"", ":", value);
  }

  lemma {:induction false} MembersKeepMarkers(ms: seq<Member>, m: string)
    requires IsMarker(m)
    ensures Contains(PrintMembers(ms), m) <==>
            exists i :: 0 <= i < |ms| && (Contains(ms[i].key, m) || Mentions(ms[i].value, m))
    decreases ms, 0
  {
    if ms == [] {
      ContainsNothingOf("", m);
    } else {
      MemberKeepsMarkers(ms[0], m);
      if |ms| > 1 {
        var rest := ms[1..];
        MembersKeepMarkers(rest, m);
        ContainsAround(PrintMember(ms[0]), ',', PrintMembers(rest), m);
        assert forall i :: 0 <= i < |rest| ==> rest[i] == ms[i + 1];
        assert forall i :: 0 < i < |ms| ==> ms[i] == rest[i - 1];
      }
    }
  }

  // ----- Markers in the visible part

  ghost predicate SomeLine(lines: seq<string>, m: string) {
    exists i :: 0 <= i < |lines| && Contains(lines[i], m)
  }

  /** One of the texts shown in the comment contains the word: one of the first 20 criteria, the first 4000
      characters of the scenarios, or one of the first 25 test cases. */
  ghost predicate Shows(criteria: seq<string>, gherkin: Option<string>, cases: seq<Option<TestCase>>, m: string) {
    || (exists i :: 0 <= i < |criteria| && i < 20 && Contains(criteria[i], m))
    || (gherkin.Some?
        && var all := Strip(gherkin.value);
           Contains(if |all| > 4000 then all[..4000] else all, m))
    || (exists i :: 0 <= i < |cases| && i < 25 && cases[i].Some?
                    && (Contains(cases[i].value.filePath, m) || Contains(cases[i].value.description, m)))
  }

  ghost predicate SomeCase(cases: seq<Option<TestCase>>, m: string) {
    exists i :: 0 <= i < |cases| && cases[i].Some?
             && (Contains(cases[i].value.filePath, m) || Contains(cases[i].value.description, m))
  }

  lemma ShowsExactly(criteria: seq<string>, gherkin: Option<string>, cases: seq<Option<TestCase>>, m: string)
    requires m != ""
    ensures Shows(criteria, gherkin, cases, m)
            <==> SomeLine(Take(criteria, MAX_CRITERIA), m) || Contains(ShownGherkin(gherkin), m)
                 || SomeCase(Take(cases, MAX_TEST_CASES), m)
  {
    hide Strip;
    ContainsNothingOfEmpty(m);
    var shown, tests := Take(criteria, MAX_CRITERIA), Take(cases, MAX_TEST_CASES);
    assert forall i :: 0 <= i < |shown| ==> shown[i] == criteria[i];
    assert forall i :: 0 <= i < |criteria| && i < 20 ==> criteria[i] == shown[i];
    assert forall i :: 0 <= i < |tests| ==> tests[i] == cases[i];
    assert forall i :: 0 <= i < |cases| && i < 25 ==> cases[i] == tests[i];
  }

  lemma ContainsNothingOfEmpty(m: string)
    requires m != ""
    ensures !Contains("", m)
  {
  }

  lemma SomeLineAppend(a: seq<string>, b: seq<string>, m: string)
    ensures SomeLine(a + b, m) <==> SomeLine(a, m) || SomeLine(b, m)
  {
    assert forall i :: 0 <= i < |a| ==> (a + b)[i] == a[i];
    assert forall i :: 0 <= i < |b| ==> (a + b)[|a| + i] == b[i];
    if i :| 0 <= i < |a + b| && Contains((a + b)[i], m) {
      assert i >= |a| ==> (a + b)[i] == b[i - |a|];
    }
  }

  lemma CriterionLineContains(text: string, m: string)
    requires IsMarker(m)
    ensures Contains(CriterionLine(text), m) <==> Contains(text, m)
  {
    ContainsAfter("- ", text, m);
  }

  lemma TestCaseLineContains(t: TestCase, m: string)
    requires IsMarker(m)
    ensures Contains(TestCaseLine(t), m) <==> Contains(t.filePath, m) || Contains(t.description, m)
  {
    ContainsAfter("- `", t.filePath, m);
    ContainsAfter(": ", t.description, m);
    ContainsAround("- `" + t.filePath, '`', ": " + t.description, m);
    assert TestCaseLine(t) == "- `" + t.filePath + ['`'] + (": " + t.description);
  }

  lemma {:induction false} CriteriaLinesContain(criteria: seq<string>, m: string)
    requires IsMarker(m)
    ensures SomeLine(CriteriaLines(criteria), m) <==> SomeLine(criteria, m)
  {
    if criteria != [] {
      var n := |criteria| - 1;
      var front, last := criteria[..n], criteria[n];
      CriteriaLinesContain(front, m);
      CriterionLineContains(last, m);
      SomeLineAppend(CriteriaLines(front), [CriterionLine(last)], m);
      SomeLineAppend(front, [last], m);
      assert criteria == front + [last];
      assert [last][0] == last && [CriterionLine(last)][0] == CriterionLine(last);
    }
  }

  lemma {:induction false} TestLinesContain(cases: seq<Option<TestCase>>, m: string)
    requires IsMarker(m)
    ensures SomeLine(TestLines(cases), m) <==> SomeCase(cases, m)
  {
    if cases != [] {
      var n := |cases| - 1;
      var front, last := cases[..n], cases[n];
      TestLinesContain(front, m);
      assert forall i :: 0 <= i < n ==> front[i] == cases[i];
      if last.Some? {
        TestCaseLineContains(last.value, m);
        SomeLineAppend(TestLines(front), [TestCaseLine(last.value)], m);
        assert [TestCaseLine(last.value)][0] == TestCaseLine(last.value);
      } else {
        SomeLineAppend(TestLines(front), [], m);
      }
    }
  }

  lemma NoLine(lines: seq<string>, m: string)
    requires IsMarker(m) && forall i :: 0 <= i < |lines| ==> '<' !in lines[i]
    ensures !SomeLine(lines, m)
  {
    forall i | 0 <= i < |lines| ensures !Contains(lines[i], m) {
      ContainsNothingOf(lines[i], m);
    }
  }

  /** The first marker of the comment is not mistaken for the start of the plan. */
  lemma StartIsNotThePlanningMarker()
    ensures !Contains(PLANNING_COMMENT_MARKER, PLAN_JSON_START)
  {
    var s, m := PLANNING_COMMENT_MARKER, PLAN_JSON_START;
    assert s[20] == 'n' && m[20] == '-';
    assert s[0..] == s && !(m <= s);
    forall k | 1 <= k < |s| ensures !(m <= s[k..]) {
      NoStart(s, m, k);
    }
  }

  lemma StartIsAMarker()
    ensures IsMarker(PLAN_JSON_START)
  {
    assert forall i :: 0 <= i < |PLAN_JSON_START| ==> IsMarkerChar(PLAN_JSON_START[i]);
  }

  lemma EndIsAMarker()
    ensures IsMarker(PLAN_JSON_END)
  {
    assert forall i :: 0 <= i < |PLAN_JSON_END| ==> IsMarkerChar(PLAN_JSON_END[i]);
  }

  lemma FooterHasNoMarker()
    ensures '<' !in GENERATED_BY
  {
    var a, b := "_Generated by HordeForge ", "issue scanner pipeline._";
    assert forall i :: 0 <= i < |a| ==> a[i] != '<';
    assert forall i :: 0 <= i < |b| ==> b[i] != '<';
  }

  lemma HeadHasNoStart()
    ensures !SomeLine(HeadLines(), PLAN_JSON_START)
  {
    StartIsAMarker();
    StartIsNotThePlanningMarker();
    var rest := ["## HordeForge Planning Update", "", "### DoD (Acceptance Criteria)", ""];
    NoLine(rest, PLAN_JSON_START);
    SomeLineAppend([PLANNING_COMMENT_MARKER], rest, PLAN_JSON_START);
    assert HeadLines() == [PLANNING_COMMENT_MARKER] + rest;
  }

  lemma DodShows(criteria: seq<string>, m: string)
    requires IsMarker(m)
    ensures SomeLine(DodLines(criteria), m) <==> SomeLine(Take(criteria, MAX_CRITERIA), m)
  {
    NoLine([""], m);
    if criteria == [] {
      NoLine(["- No acceptance criteria extracted."], m);
      SomeLineAppend(["- No acceptance criteria extracted."], [""], m);
    } else {
      CriteriaLinesContain(Take(criteria, MAX_CRITERIA), m);
      SomeLineAppend(CriteriaLines(Take(criteria, MAX_CRITERIA)), [""], m);
    }
  }

  lemma BddShows(gherkin: Option<string>, m: string)
    requires IsMarker(m)
    ensures SomeLine(BddLines(gherkin), m) <==> Contains(ShownGherkin(gherkin), m)
  {
    var head, shown := ["### BDD Scenarios", ""], ShownGherkin(gherkin);
    NoLine(head, m);
    if shown == "" {
      NoLine(["- No BDD scenarios generated.", ""], m);
      SomeLineAppend(head, ["- No BDD scenarios generated.", ""], m);
      ContainsNothingOf("", m);
    } else {
      NoLine(["```gherkin"], m);
      NoLine(["```", ""], m);
      SomeLineAppend([shown], ["```", ""], m);
      SomeLineAppend(["```gherkin"], [shown] + ["```", ""], m);
      SomeLineAppend(head, ["```gherkin"] + ([shown] + ["```", ""]), m);
      assert [shown][0] == shown;
      assert BddLines(gherkin) == head + (["```gherkin"] + ([shown] + ["```", ""]));
    }
  }

  lemma TddShows(cases: seq<Option<TestCase>>, m: string)
    requires IsMarker(m)
    ensures SomeLine(TddLines(cases), m) <==> SomeCase(Take(cases, MAX_TEST_CASES), m)
  {
    var head, tail := ["### TDD Test Plan", ""], ["", GENERATED_BY];
    var middle := if cases == [] then ["- No TDD test plan generated."] else TestLines(Take(cases, MAX_TEST_CASES));
    TddFrameShowsNothing(m);
    TestLinesContain(Take(cases, MAX_TEST_CASES), m);
    SomeLineAppend(head, middle, m);
    SomeLineAppend(head + middle, tail, m);
  }

  lemma TddFrameShowsNothing(m: string)
    requires IsMarker(m)
    ensures !SomeLine(["### TDD Test Plan", ""], m)
    ensures !SomeLine(["", GENERATED_BY], m)
    ensures !SomeLine(["- No TDD test plan generated."], m)
  {
    FooterHasNoMarker();
    NoLine(["### TDD Test Plan", ""], m);
    NoLine(["", GENERATED_BY], m);
    NoLine(["- No TDD test plan generated."], m);
  }

  /** The visible part contains the start marker exactly when a text shown in it does. */
  lemma VisiblePartShowsExactly(criteria: seq<string>, gherkin: Option<string>, cases: seq<Option<TestCase>>)
    ensures Contains(Join(VisibleLines(criteria, gherkin, cases)), PLAN_JSON_START)
            <==> Shows(criteria, gherkin, cases, PLAN_JSON_START)
  {
    var m := PLAN_JSON_START;
    StartIsAMarker();
    JoinContains(VisibleLines(criteria, gherkin, cases), m);
    HeadHasNoStart();
    ShowsExactly(criteria, gherkin, cases, m);
    hide Shows;
    DodShows(criteria, m);
    BddShows(gherkin, m);
    TddShows(cases, m);
    SomeLineAppend(HeadLines(), DodLines(criteria), m);
    SomeLineAppend(HeadLines() + DodLines(criteria), BddLines(gherkin), m);
    SomeLineAppend(HeadLines() + DodLines(criteria) + BddLines(gherkin), TddLines(cases), m);
  }

  // ----- The round trip

  function Comment(criteria: seq<string>, gherkin: Option<string>, cases: seq<Option<TestCase>>, plan: Json): string {
    Join(VisibleLines(criteria, gherkin, cases) + PlanLines(plan))
  }

  lemma {:induction false} StripRightOf(s: string, t: string)
    requires s != "" && !IsSpace(s[|s| - 1]) && forall i :: 0 <= i < |t| ==> IsSpace(t[i])
    ensures StripRight(s + t) == s
  {
    if t == "" {
      assert s + t == s;
    } else {
      assert (s + t)[..|s + t| - 1] == s + t[..|t| - 1];
      StripRightOf(s, t[..|t| - 1]);
    }
  }

  lemma StripLine(s: string)
    requires s != "" && !IsSpace(s[0])
    ensures Strip("\n" + s) == StripRight(s)
  {
    assert '\n' == 10 as char;
    assert ("\n" + s)[1..] == s;
    assert StripLeft(s) == s;
  }

  lemma CommentText(criteria: seq<string>, gherkin: Option<string>, cases: seq<Option<TestCase>>, plan: Json)
    ensures
      Comment(criteria, gherkin, cases, plan)
      == Join(VisibleLines(criteria, gherkin, cases)) + "\n" + "\n" + PLAN_JSON_START
         + ("\n" + Print(plan) + "\n" + PLAN_JSON_END)
  {
    LinesAppended(VisibleLines(criteria, gherkin, cases), PLAN_JSON_START, Print(plan), PLAN_JSON_END);
  }

  lemma LinesAppended(shown: seq<string>, a: string, b: string, c: string)
    requires shown != []
    ensures Join(shown + ["", a, b, c]) == Join(shown) + "\n" + "\n" + a + ("\n" + b + "\n" + c)
  {
    JoinAppend(shown, ["", a, b, c]);
    FourLines(a, b, c);
    var tail := "\n" + b + "\n" + c;
    assert Join(shown) + "\n" + ("\n" + a + tail) == Join(shown) + "\n" + "\n" + a + tail;
  }

  lemma FourLines(a: string, b: string, c: string)
    ensures Join(["", a, b, c]) == "\n" + a + ("\n" + b + "\n" + c)
  {
    assert ["", a, b, c][1..] == [a, b, c] && [a, b, c][1..] == [b, c] && [b, c][1..] == [c];
    assert Join([b, c]) == b + "\n" + c;
    assert Join([a, b, c]) == a + "\n" + (b + "\n" + c);
    assert Join(["", a, b, c]) == "" + "\n" + (a + "\n" + (b + "\n" + c));
  }

  /** What the extractor finds in a comment whose visible part is clean. */
  lemma ExtractedText(head: string, tail: string)
    requires !Contains(head, PLAN_JSON_START)
    ensures
      var body := head + "\n" + PLAN_JSON_START + tail;
      IndexOf(body, PLAN_JSON_START) == Some(|head| + 1) && body[|head| + 1 + |PLAN_JSON_START|..] == tail
  {
    StartIsAMarker();
    FirstAfterSeparator(head, '\n', PLAN_JSON_START, tail);
  }

  lemma {:induction false} StripKeepsBody(s: string, k: nat)
    requires k < |s| && !IsSpace(s[k])
    ensures Strip(s) != ""
    decreases |s|
  {
    if IsSpace(s[0]) {
      StripKeepsBody(s[1..], k - 1);
    } else {
      StripRightKeeps(s, k);
    }
  }

  lemma {:induction false} StripRightKeeps(s: string, k: nat)
    requires k < |s| && !IsSpace(s[k])
    ensures StripRight(s) != ""
  {
    if IsSpace(s[|s| - 1]) {
      StripRightKeeps(s[..|s| - 1], k);
    }
  }

  // ----- A start marker in the visible part

  lemma FooterIsItsOwnLine()
    ensures |PLAN_JSON_END| <= |GENERATED_BY| && GENERATED_BY[0] == '_'
  {
  }

  lemma EndsWithFooter(criteria: seq<string>, gherkin: Option<string>, cases: seq<Option<TestCase>>)
    returns (front: string)
    ensures Join(VisibleLines(criteria, gherkin, cases)) == front + "\n" + GENERATED_BY
  {
    hide TestLines, CriteriaLines;
    var tests := if cases == [] then ["- No TDD test plan generated."] else TestLines(Take(cases, MAX_TEST_CASES));
    var lines := HeadLines() + DodLines(criteria) + BddLines(gherkin) + ["### TDD Test Plan", ""] + tests + [""];
    assert VisibleLines(criteria, gherkin, cases) == lines + [GENERATED_BY];
    JoinAppend(lines, [GENERATED_BY]);
    front := Join(lines);
  }

  /** An end marker behind a line that starts with an underscore closes a text that is not JSON. */
  lemma NothingAcross(front: string, footer: string, rest: string, m: string)
    requires |m| <= |footer| && footer != "" && footer[0] == '_' && !Contains(front + "\n" + footer, m)
    ensures
      var text := front + "\n" + footer + rest;
      var end := IndexOf(text, m);
      end.Some? ==> Loads(Strip(text[..end.value])).None?
  {
    hide Loads;
    var shown := front + "\n" + footer;
    var text := shown + rest;
    var end := IndexOf(text, m);
    if end.Some? {
      var e, p := end.value, |front| + 1;
      if e + |m| <= |shown| {
        SameStart(shown, text, m, e);
      }
      assert text[p] == '_' && text[p - 1] == '\n';
      NotLoadedStripped(text[..e], e - p);
    }
  }

  /** What follows the start marker has an end marker of its own or yields nothing. */
  lemma AfterStart(front: string, footer: string, rest: string)
    requires |PLAN_JSON_END| <= |footer| && footer != "" && footer[0] == '_'
    ensures PlanUpToEnd(front + "\n" + footer + rest) == PlanUpToEnd(front + "\n" + footer)
  {
    hide Loads, Strip;
    var shown := front + "\n" + footer;
    if IndexOf(shown, PLAN_JSON_END).Some? {
      FirstInFront(shown, PLAN_JSON_END, rest);
      var e := IndexOf(shown, PLAN_JSON_END).value;
      assert (shown + rest)[..e] == shown[..e];
    } else {
      ContainsExactly(shown, PLAN_JSON_END);
      NothingAcross(front, footer, rest, PLAN_JSON_END);
    }
  }

  lemma StartOf(front: string) returns (k: nat)
    requires Contains(front, PLAN_JSON_START)
    ensures IndexOf(front, PLAN_JSON_START) == Some(k)
    ensures k + |PLAN_JSON_START| <= |front| && !IsSpace(front[k])
  {
    StartIsAMarker();
    ContainsExactly(front, PLAN_JSON_START);
    k := IndexOf(front, PLAN_JSON_START).value;
    assert front[k..][0] == PLAN_JSON_START[0];
  }

  lemma FromStart(front: string, k: nat, rest: string)
    requires k + |PLAN_JSON_START| <= |front| && !IsSpace(front[k]) && IndexOf(front, PLAN_JSON_START) == Some(k)
    ensures ExtractPlanJson(front + rest) == PlanUpToEnd(front[k + |PLAN_JSON_START|..] + rest)
  {
    hide PlanUpToEnd, Strip, IndexOf;
    FirstInFront(front, PLAN_JSON_START, rest);
    assert (front + rest)[k] == front[k];
    StripKeepsBody(front + rest, k);
    assert (front + rest)[k + |PLAN_JSON_START|..] == front[k + |PLAN_JSON_START|..] + rest;
  }

  /** The first start marker shown decides: the plan and the markers around it are not looked at. */
  lemma ShownMarkerDecides(front: string, footer: string, rest: string)
    requires Contains(front, PLAN_JSON_START)
    requires |PLAN_JSON_END| <= |footer| && footer != "" && footer[0] == '_'
    ensures ExtractPlanJson(front + "\n" + footer + rest) == ExtractPlanJson(front + "\n" + footer)
  {
    hide ExtractPlanJson, PlanUpToEnd, Contains;
    var k := StartOf(front);
    var after := front[k + |PLAN_JSON_START|..];
    FromStart(front, k, "\n" + footer);
    FromStart(front, k, "\n" + footer + rest);
    AfterStart(after, footer, rest);
    OneLineMore(front, footer, rest);
    OneLineMore(after, footer, rest);
  }

  lemma OneLineMore(front: string, footer: string, rest: string)
    ensures front + ("\n" + footer) == front + "\n" + footer
    ensures front + ("\n" + footer + rest) == front + "\n" + footer + rest
  {
  }

  lemma ShownPlanIsRead(criteria: seq<string>, gherkin: Option<string>, cases: seq<Option<TestCase>>, plan: Json)
    requires Shows(criteria, gherkin, cases, PLAN_JSON_START)
    ensures ExtractPlanJson(Comment(criteria, gherkin, cases, plan))
            == ExtractPlanJson(Join(VisibleLines(criteria, gherkin, cases)))
  {
    hide Loads, Print, ExtractPlanJson, VisibleLines, Comment, Shows, Contains, Join, IsMarker;
    VisiblePartShowsExactly(criteria, gherkin, cases);
    CommentText(criteria, gherkin, cases, plan);
    var front := EndsWithFooter(criteria, gherkin, cases);
    var shown, tail := front + "\n" + GENERATED_BY, "\n" + Print(plan) + "\n" + PLAN_JSON_END;
    Appended(shown, PLAN_JSON_START, tail);
    InFrontOfFooter(front);
    FooterIsItsOwnLine();
    ShownMarkerDecides(front, GENERATED_BY, "\n" + "\n" + PLAN_JSON_START + tail);
  }

  lemma Appended(shown: string, m: string, tail: string)
    ensures shown + "\n" + "\n" + m + tail == shown + ("\n" + "\n" + m + tail)
  {
  }

  lemma InFrontOfFooter(front: string)
    requires Contains(front + "\n" + GENERATED_BY, PLAN_JSON_START)
    ensures Contains(front, PLAN_JSON_START)
  {
    hide Contains;
    StartIsAMarker();
    FooterHasNoMarker();
    ContainsAround(front, '\n', GENERATED_BY, PLAN_JSON_START);
    ContainsNothingOf(GENERATED_BY, PLAN_JSON_START);
  }

  /** What is read back from the comment.  When a text shown contains the start marker, it is what the
      visible part alone yields, whatever the plan is.  Otherwise it is the plan when none of its strings and
      keys contains the end marker, and nothing when one does. */
  lemma PlanSurvivesExactly(criteria: seq<string>, gherkin: Option<string>, cases: seq<Option<TestCase>>, plan: Json)
    requires WellFormed(plan) && plan.Obj? && plan.members != []
    ensures
      ExtractPlanJson(Comment(criteria, gherkin, cases, plan))
      == if Shows(criteria, gherkin, cases, PLAN_JSON_START) then
           ExtractPlanJson(Join(VisibleLines(criteria, gherkin, cases)))
         else if Mentions(plan, PLAN_JSON_END) then None
         else Some(plan)
  {
    hide Loads, Print;
    if Shows(criteria, gherkin, cases, PLAN_JSON_START) {
      ShownPlanIsRead(criteria, gherkin, cases, plan);
    } else {
      var shown := Join(VisibleLines(criteria, gherkin, cases));
      var body := Comment(criteria, gherkin, cases, plan);
      VisiblePartShowsExactly(criteria, gherkin, cases);
      CommentText(criteria, gherkin, cases, plan);
      CleanFront(shown);
      PlanSurvivesAfter(shown + "\n", body, plan);
    }
  }

  lemma CleanFront(shown: string)
    requires !Contains(shown, PLAN_JSON_START)
    ensures !Contains(shown + "\n", PLAN_JSON_START)
  {
    StartIsAMarker();
    ContainsAround(shown, '\n', "", PLAN_JSON_START);
    ContainsNothingOf("", PLAN_JSON_START);
    assert shown + ['\n'] + "" == shown + "\n";
  }

  /** The same for any text in front of the start marker that does not contain it. */
  lemma PlanSurvivesAfter(front: string, body: string, plan: Json)
    requires WellFormed(plan) && plan.Obj? && !Contains(front, PLAN_JSON_START)
    requires body == front + "\n" + PLAN_JSON_START + ("\n" + Print(plan) + "\n" + PLAN_JSON_END)
    ensures ExtractPlanJson(body) == if Mentions(plan, PLAN_JSON_END) then None else Some(plan)
  {
    hide Loads, Print, PlanUpToEnd, Strip, Contains, Mentions;
    var tail := "\n" + Print(plan) + "\n" + PLAN_JSON_END;
    ExtractedText(front, tail);
    MarkerIsNoSpace(front, body, tail);
    StripKeepsBody(body, |front| + 1);
    PlanUpToItsEnd(plan, tail);
  }

  lemma MarkerIsNoSpace(front: string, body: string, tail: string)
    requires body == front + "\n" + PLAN_JSON_START + tail
    ensures |front| + 1 < |body| && !IsSpace(body[|front| + 1])
  {
    assert body[|front| + 1] == PLAN_JSON_START[0] == '<';
  }

  lemma PlanUpToItsEnd(plan: Json, tail: string)
    requires WellFormed(plan) && plan.Obj? && tail == "\n" + Print(plan) + "\n" + PLAN_JSON_END
    ensures PlanUpToEnd(tail) == if Mentions(plan, PLAN_JSON_END) then None else Some(plan)
  {
    hide Loads, Print, Strip, Contains, Mentions, IsMarker;
    EndIsAMarker();
    PrintKeepsMarkers(plan, PLAN_JSON_END);
    if Mentions(plan, PLAN_JSON_END) {
      CutPlanIsLost(plan, PLAN_JSON_END, tail);
    } else {
      WholePlanIsRead(plan, PLAN_JSON_END, tail);
      PrintStartsWell(plan);
    }
  }

  lemma WholePlanIsRead(plan: Json, m: string, tail: string)
    requires WellFormed(plan) && plan.Obj? && IsMarker(m) && !Contains(Print(plan), m)
    requires tail == "\n" + Print(plan) + "\n" + m
    ensures IndexOf(tail, m) == Some(|Print(plan)| + 2)
    ensures Strip(tail[..|Print(plan)| + 2]) == Print(plan) && Loads(Print(plan)) == Some(plan)
  {
    hide Loads, Print;
    var text := Print(plan);
    ContainsAfter("\n", text, m);
    FirstAfterSeparator("\n" + text, '\n', m, "");
    assert tail == "\n" + text + ['\n'] + m + "";
    assert tail[..|text| + 2] == "\n" + (text + "\n");
    ObjectIsNotStripped(plan);
    LoadsInvertsPrint(plan);
  }

  lemma ObjectIsNotStripped(plan: Json)
    requires plan.Obj?
    ensures Strip("\n" + (Print(plan) + "\n")) == Print(plan)
  {
    var text := Print(plan);
    assert text[0] == '{' && text[|text| - 1] == '}';
    assert '\n' == 10 as char;
    StripLine(text + "\n");
    StripRightOf(text, "\n");
  }

  lemma CutPlanIsLost(plan: Json, m: string, tail: string)
    requires WellFormed(plan) && plan.Obj? && IsMarker(m) && Contains(Print(plan), m)
    requires tail == "\n" + Print(plan) + "\n" + m
    ensures
      var end := IndexOf(tail, m);
      && end.Some?
      && var parsed := Loads(Strip(tail[..end.value]));
      parsed.None? || !parsed.value.Obj?
  {
    var text := Print(plan);
    assert text[0] == '{';
    ContainsExactly(text, m);
    CutText(text, m);
    BeginningIsLost(plan, IndexOf(text, m).value);
  }

  lemma CutText(text: string, m: string)
    requires m != "" && m[0] != '\n' && IndexOf(text, m).Some?
    ensures
      var k := IndexOf(text, m).value;
      var tail := "\n" + text + "\n" + m;
      IndexOf(tail, m) == Some(k + 1) && tail[..k + 1] == "\n" + text[..k]
  {
    var k := IndexOf(text, m).value;
    var front := "\n" + text;
    NotAtLineBreak(text, m);
    FirstInFront(front, m, "\n" + m);
    Associate(front, "\n", m);
    CutFront(text, k, "\n" + m);
  }

  lemma CutFront(text: string, k: nat, rest: string)
    requires k <= |text|
    ensures ("\n" + text + rest)[..k + 1] == "\n" + text[..k]
  {
  }

  lemma BeginningIsLost(plan: Json, k: nat)
    requires WellFormed(plan) && plan.Obj? && 0 < k < |Print(plan)|
    ensures
      var parsed := Loads(Strip("\n" + Print(plan)[..k]));
      parsed.None? || !parsed.value.Obj?
  {
    var text := Print(plan);
    assert text[0] == '{';
    StripLine(text[..k]);
    var cut := StripRight(text[..k]);
    assert cut == text[..|cut|];
    ObjectHasNoShorterReading(plan, |cut|);
  }

  lemma NotAtLineBreak(text: string, m: string)
    requires m != "" && m[0] != '\n' && IndexOf(text, m).Some?
    ensures IndexOf("\n" + text, m) == Some(IndexOf(text, m).value + 1)
  {
    assert ("\n" + text)[0] != m[0];
    assert ("\n" + text)[1..] == text;
  }

  // ----- Both readers

  lemma CommentIsPlanning(criteria: seq<string>, gherkin: Option<string>, cases: seq<Option<TestCase>>, plan: Json)
    ensures IsPlanning(Some(Comment(criteria, gherkin, cases, plan)))
  {
    var lines := VisibleLines(criteria, gherkin, cases) + PlanLines(plan);
    assert lines[0] == HeadLines()[0];
    assert PLANNING_COMMENT_MARKER <= Join(lines);
  }

  /** No comment of the list has the planning marker. */
  ghost predicate NoPlanning(comments: seq<Option<string>>) {
    forall i :: 0 <= i < |comments| && comments[i].Some? ==>
      !Contains(comments[i].value, "<!-- hordeforge:planning-update -->")
  }

  lemma {:induction false} LoaderSkips(before: seq<Option<string>>, rest: seq<Option<string>>)
    requires NoPlanning(before)
    ensures PlanFromIssue(before + rest) == PlanFromIssue(rest)
  {
    if before == [] {
      assert before + rest == rest;
    } else {
      assert (before + rest)[1..] == before[1..] + rest;
      if before[0].Some? {
        ContainsExactly(before[0].value, PLANNING_COMMENT_MARKER);
      }
      LoaderSkips(before[1..], rest);
    }
  }

  lemma {:induction false} ExtractorSkips(before: seq<Option<string>>, rest: seq<Option<string>>,
                                          issueBody: Option<string>)
    requires forall i :: 0 <= i < |before| ==> PlanIn(before[i]).None?
    ensures PlanPayload(before + rest, issueBody) == PlanPayload(rest, issueBody)
  {
    if before == [] {
      assert before + rest == rest;
    } else {
      assert (before + rest)[1..] == before[1..] + rest;
      ExtractorSkips(before[1..], rest, issueBody);
    }
  }

  /** The hand-over from planning to code generation.  Let the planning comment be the first one with the
      planning marker and the first one with a plan.  When none of the texts it shows holds the start marker,
      the dispatcher recovers the five entries of the plan and the code generator the whole plan if no string
      in it holds the end marker; otherwise the dispatcher reports an invalid plan and the code generator goes
      on to the later comments.  When a text shown holds the start marker, both take what the visible part
      alone yields. */
  lemma PlanIsHandedOver(before: seq<Option<string>>, after: seq<Option<string>>, issueBody: Option<string>,
                         criteria: seq<string>, gherkin: Option<string>, cases: seq<Option<TestCase>>, plan: Json)
    requires WellFormed(plan) && plan.Obj? && plan.members != []
    requires NoPlanning(before) && forall i :: 0 <= i < |before| ==> PlanIn(before[i]).None?
    ensures
      var comments := before + ([Some(Comment(criteria, gherkin, cases, plan))] + after);
      var read := if Shows(criteria, gherkin, cases, PLAN_JSON_START) then
                    ExtractPlanJson(Join(VisibleLines(criteria, gherkin, cases)))
                  else if Mentions(plan, PLAN_JSON_END) then None
                  else Some(plan);
      && (read.None? ==> PlanFromIssue(comments).PlanInvalid?)
      && (read.Some? ==>
            PlanFromIssue(comments).PlanOk? && HoldsAll(read.value.members, PlanFromIssue(comments).bundle))
      && PlanPayload(comments, issueBody) == (if read.Some? then read else PlanPayload(after, issueBody))
  {
    hide Loads, Print, ExtractPlanJson, VisibleLines, Shows, Comment, HoldsAll, BundleOf;
    var comment := Some(Comment(criteria, gherkin, cases, plan));
    var rest := [comment] + after;
    CommentIsPlanning(criteria, gherkin, cases, plan);
    PlanSurvivesExactly(criteria, gherkin, cases, plan);
    PlanReadIsWellFormed(comment.value);
    if ExtractPlanJson(comment.value).Some? {
      BundleHoldsAll(ExtractPlanJson(comment.value).value);
    }
    LoaderSkips(before, rest);
    ExtractorSkips(before, rest, issueBody);
    assert rest[0] == comment && rest[1..] == after;
  }
}
