/** Which objects are recovered from an answer with text around them. */
module ReviewOutputLaws {
  import opened Basics
  import opened Decimal
  import opened Json
  import opened JsonLaws
  import opened Texts
  import opened ReviewOutput

  // ----- Braces in printed JSON

  lemma {:induction false} BalanceAppend(a: string, b: string)
    ensures Balance(a + b) == Balance(a) + Balance(b)
  {
    if b == "" {
      assert a + b == a;
    } else {
      var n := |b| - 1;
      assert (a + b)[..|a + b| - 1] == a + b[..n];
      BalanceAppend(a, b[..n]);
    }
  }

  lemma {:induction false} NoBraces(s: string)
    requires '{' !in s && '}' !in s
    ensures Balance(s) == 0
  {
    if s != "" {
      var n := |s| - 1;
      assert forall c :: c in s[..n] ==> c in s;
      assert s[n] in s;
      NoBraces(s[..n]);
    }
  }

  lemma BalanceOfOne(c: char)
    ensures Balance([c]) == Weight(c)
  {
    assert [c][..0] == "";
  }

  lemma EscapeCharBalance(c: char)
    ensures Balance(EscapeChar(c)) == Weight(c)
  {
    if EscapeChar(c) == [c] {
      BalanceOfOne(c);
    } else if ShortEscape(c).Some? {
      NoBraces(EscapeChar(c));
    } else {
      var hi, lo := c as int / 16, c as int % 16;
      HexDigitIsNoBrace(hi);
      HexDigitIsNoBrace(lo);
      NoBraces(EscapeChar(c));
    }
  }

  lemma HexDigitIsNoBrace(d: nat)
    requires d < 16
    ensures HEX[d] != '{' && HEX[d] != '}'
  {
  }

  lemma {:induction false} EscapeBalance(s: string)
    ensures Balance(Escape(s)) == Balance(s)
  {
    if s != "" {
      EscapeBalance(s[1..]);
      EscapeCharBalance(s[0]);
      BalanceAppend(EscapeChar(s[0]), Escape(s[1..]));
      BalanceOfOne(s[0]);
      BalanceAppend([s[0]], s[1..]);
      HeadAndTail(s);
    }
  }

  lemma PrintStringBalance(s: string)
    ensures Balance(PrintString(s)) == Balance(s)
  {
    EscapeBalance(s);
    BalanceOfOne('"');
    BalanceAppend("\"", Escape(s));
    BalanceAppend("\"" + Escape(s), "\"");
  }

  /** Opening minus closing braces in the strings and keys of a value. */
  function BracesIn(v: Json): int {
    match v
    case Str(s) => Balance(s)
    case Arr(items) => BracesInItems(items)
    case Obj(ms) => BracesInMembers(ms)
    case _ => 0
  }

  function BracesInItems(items: seq<Json>): int {
    if items == [] then 0 else BracesIn(items[0]) + BracesInItems(items[1..])
  }

  function BracesInMembers(ms: seq<Member>): int {
    if ms == [] then 0 else Balance(ms[0].key) + BracesIn(ms[0].value) + BracesInMembers(ms[1..])
  }

  lemma Surrounded(open: char, inner: string, close: char)
    ensures Balance([open] + inner + [close]) == Weight(open) + Balance(inner) + Weight(close)
  {
    BalanceOfOne(open);
    BalanceOfOne(close);
    BalanceAppend([open], inner);
    BalanceAppend([open] + inner, [close]);
  }

  lemma Separated(a: string, c: char, b: string)
    requires Weight(c) == 0
    ensures Balance(a + [c] + b) == Balance(a) + Balance(b)
  {
    BalanceOfOne(c);
    BalanceAppend(a, [c]);
    BalanceAppend(a + [c], b);
  }

  lemma LiteralBalance(v: Json)
    requires IsWord(v)
    ensures Balance(Print(v)) == 0
  {
    NoBraces(Print(v));
  }

  lemma NumberBalance(n: int)
    ensures Balance(PrintNum(n)) == 0
  {
    DigitsDenote(if n < 0 then -n else n);
    NoBraces(PrintNum(n));
  }

  /** The braces that JSON itself writes are balanced. */
  lemma {:induction false} PrintBalance(v: Json)
    ensures Balance(Print(v)) == BracesIn(v)
    decreases v, 1
  {
    match v
    case Null => LiteralBalance(v);
    case Bool(_) => LiteralBalance(v);
    case Num(n) => NumberBalance(n);
    case Real(f) =>
      FloatCharacters(f);
      NoBraces(Print(v));
    case NaN => LiteralBalance(v);
    case Infinity(_) => LiteralBalance(v);
    case Str(s) => PrintStringBalance(s);
    case Arr(items) =>
      ItemsBalance(items);
      Surrounded('[', PrintItems(items), ']');
    case Obj(ms) =>
      MembersBalance(ms);
      Surrounded('{', PrintMembers(ms), '}');
  }

  lemma {:induction false} ItemsBalance(items: seq<Json>)
    ensures Balance(PrintItems(items)) == BracesInItems(items)
    decreases items, 0
  {
    if items != [] {
      PrintBalance(items[0]);
      ItemsBalance(items[1..]);
      if |items| > 1 {
        Separated(Print(items[0]), ',', PrintItems(items[1..]));
      }
    }
  }

  lemma {:induction false} MembersBalance(ms: seq<Member>)
    ensures Balance(PrintMembers(ms)) == BracesInMembers(ms)
    decreases ms, 0
  {
    if ms != [] {
      var m := ms[0];
      PrintStringBalance(m.key);
      PrintBalance(m.value);
      Separated(PrintString(m.key), ':', Print(m.value));
      MembersBalance(ms[1..]);
      if |ms| > 1 {
        Separated(PrintMember(m), ',', PrintMembers(ms[1..]));
      }
    }
  }

  // ----- Object texts

  /** A text that is one JSON object from its first to its last character, however it is laid out. */
  predicate IsObjectText(body: string) {
    && |body| >= 2 && body[0] == '{' && body[|body| - 1] == '}'
    && ParseValue(body).Some? && ParseValue(body).value.value.Obj? && ParseValue(body).value.rest == ""
  }

  function ObjectOf(body: string): Json
    requires IsObjectText(body)
  {
    ParseValue(body).value.value
  }

  lemma PrintedObjectIsObjectText(v: Json)
    requires WellFormed(v) && v.Obj?
    ensures IsObjectText(Print(v)) && ObjectOf(Print(v)) == v
  {
    ValueRoundTrip(v, "");
    assert Print(v) + "" == Print(v);
  }

  /** An object text followed by anything: as a whole it is that object, if what follows is blank, and
      no object otherwise. */
  lemma ObjectThenText(body: string, after: string)
    requires IsObjectText(body)
    ensures AsObject(body + after) == if SkipSpace(after) == "" then Some(ObjectOf(body)) else None
  {
    var text := body + after;
    ParseValueAppend(body, after);
    assert "" + after == after;
    assert text[0] == '{';
    SkipNothing(text);
  }

  /** No proper beginning of an object text reads as an object. */
  lemma BeginningIsNoObject(body: string, n: nat)
    requires IsObjectText(body) && n < |body|
    ensures AsObject(body[..n]).None?
  {
    hide ParseValue;
    var p, x := body[..n], body[n..];
    assert p + x == body;
    if AsObject(p).Some? {
      SkipSpaceFirst(p, body);
      ParseValueAppend(p, x);
    }
  }

  /** From the opening brace of an object text the scanner finds that object when the braces in the text
      balance, and nothing when they do not. */
  lemma FoundFromItsBrace(front: string, body: string, after: string)
    requires IsObjectText(body)
    ensures
      FoundFrom(front + body + after, |front|, if Balance(body) == 0 then Some(ObjectOf(body)) else None)
  {
    var text, i, e := front + body + after, |front|, |front| + |body| - 1;
    forall j: nat | i <= j < e ensures !Hit(text, i, j) {
      assert text[i..j + 1] == body[..j + 1 - i];
      BeginningIsNoObject(body, j + 1 - i);
    }
    assert text[i..e + 1] == body && text[i] == '{' && text[e] == '}';
    ObjectThenText(body, "");
    assert body + "" == body;
    forall j: nat | e < j < |text| ensures !Hit(text, i, j) {
      LongerIsNoHit(front, body, after, j);
    }
    if Balance(body) == 0 {
      assert Hit(text, i, e);
    }
  }

  lemma LongerIsNoHit(front: string, body: string, after: string, j: nat)
    requires IsObjectText(body) && |front| + |body| <= j < |front + body + after|
    ensures !Hit(front + body + after, |front|, j)
  {
    var text := front + body + after;
    var more := after[..j + 1 - |front| - |body|];
    assert text[|front|..j + 1] == body + more;
    assert text[j] == more[|more| - 1];
    if text[j] == '}' {
      NotBlank(more, |more| - 1);
      ObjectThenText(body, more);
    }
  }

  lemma {:induction false} NotBlank(s: string, k: nat)
    requires k < |s| && !IsJsonSpace(s[k])
    ensures SkipSpace(s) != ""
  {
    if IsJsonSpace(s[0]) {
      NotBlank(s[1..], k - 1);
    }
  }

  lemma NoHitInFront(front: string, rest: string, h: nat, j: nat)
    requires '{' !in front && h < |front|
    ensures !Hit(front + rest, h, j)
  {
    assert (front + rest)[h] == front[h] && front[h] in front;
  }

  /** Text before the first brace keeps the whole from being an object unless it is blank. */
  lemma WholeText(front: string, body: string, after: string)
    requires IsObjectText(body) && '{' !in front
    ensures AsObject(front + body + after) == None || AsObject(front + body + after) == Some(ObjectOf(body))
  {
    var rest := body + after;
    Associate(front, body, after);
    SkipFront(front, rest);
    ObjectThenText(body, after);
    SkipNothing(rest);
    if SkipSpace(front + rest) != rest {
      NeedsBrace(SkipSpace(front + rest));
    }
  }

  /** Skipping white space leads to the first brace or stops at something else before. */
  lemma {:induction false} SkipFront(front: string, rest: string)
    requires '{' !in front && rest != "" && rest[0] == '{'
    ensures
      var t := SkipSpace(front + rest);
      t == rest || (t != "" && t[0] != '{')
  {
    if front == "" {
      assert front + rest == rest;
      SkipNothing(rest);
    } else if IsJsonSpace(front[0]) {
      assert (front + rest)[1..] == front[1..] + rest;
      SkipFront(front[1..], rest);
    } else {
      assert (front + rest)[0] == front[0] && front[0] in front;
      SkipNothing(front + rest);
    }
  }

  lemma NeedsBrace(t: string)
    requires t != "" && t[0] != '{'
    ensures ParseValue(t).Some? ==> !ParseValue(t).value.value.Obj?
  {
    hide ParseString, ParseItems, ParseMembers;
  }

  lemma NotAnObject(s: string)
    requires s != "" && s[0] != '{' && !IsJsonSpace(s[0])
    ensures AsObject(s).None?
  {
    SkipNothing(s);
  }

  // ----- Cleaning keeps the object

  lemma {:induction false} StripLeftKeeps(front: string, body: string)
    requires body != "" && !IsSpace(body[0])
    ensures exists f: string :: StripLeft(front + body) == f + body && (forall c :: c in f ==> c in front)
  {
    if front == "" {
      assert front + body == body && StripLeft(body) == "" + body;
    } else if IsSpace(front[0]) {
      assert (front + body)[1..] == front[1..] + body;
      StripLeftKeeps(front[1..], body);
    } else {
      assert StripLeft(front + body) == front + body;
    }
  }

  lemma {:induction false} StripRightKeeps(body: string, after: string)
    requires body != "" && !IsSpace(body[|body| - 1])
    ensures exists a: string :: StripRight(body + after) == body + a
  {
    if after == "" {
      assert StripRight(body + after) == body + after;
    } else if IsSpace(after[|after| - 1]) {
      assert (body + after)[..|body + after| - 1] == body + after[..|after| - 1];
      StripRightKeeps(body, after[..|after| - 1]);
    } else {
      assert StripRight(body + after) == body + after;
    }
  }

  /** A text with the object in it, and no brace before. */
  ghost predicate Holds(text: string, body: string) {
    exists f: string, a: string :: text == f + body + a && '{' !in f
  }

  lemma StripHolds(text: string, body: string)
    requires Holds(text, body) && IsObjectText(body)
    ensures Holds(Strip(text), body) && Strip(text) != ""
  {
    var f: string, a: string :| text == f + body + a && '{' !in f;
    Associate(f, body, a);
    StripLeftHolds(f, body + a);
    var g: string :| StripLeft(text) == g + (body + a) && '{' !in g;
    Associate(g, body, a);
    assert (g + body)[|g + body| - 1] == '}';
    StripRightKeeps(g + body, a);
  }

  lemma StripLeftHolds(f: string, rest: string)
    requires '{' !in f && rest != "" && rest[0] == '{'
    ensures exists g: string :: StripLeft(f + rest) == g + rest && '{' !in g
  {
    StripLeftKeeps(f, rest);
    var g: string :| StripLeft(f + rest) == g + rest && (forall c :: c in g ==> c in f);
    assert '{' !in g;
  }

  /** Characters in front of the first brace can be dropped. */
  lemma DropHolds(f: string, rest: string, n: nat)
    requires '{' !in f && rest != "" && rest[0] == '{' && n <= |f + rest|
    requires forall k :: 0 <= k < n ==> (f + rest)[k] != '{'
    ensures exists g: string :: StripLeft((f + rest)[n..]) == g + rest && '{' !in g
  {
    assert (f + rest)[|f|] == '{';
    assert (f + rest)[n..] == f[n..] + rest;
    assert forall c :: c in f[n..] ==> c in f;
    StripLeftHolds(f[n..], rest);
  }

  lemma OpeningFenceHolds(text: string, body: string)
    requires Holds(text, body) && IsObjectText(body)
    ensures Holds(WithoutOpeningFence(text), body)
  {
    if FENCE <= text {
      var f: string, a: string :| text == f + body + a && '{' !in f;
      var rest := body + a;
      Associate(f, body, a);
      var n := if IsJsonWord(text[3..]) then 7 else 3;
      assert text[0] == '`' && text[1] == '`' && text[2] == '`';
      if IsJsonWord(text[3..]) {
        JsonWordHasNoBrace(text[3..]);
        assert forall k :: 3 <= k < 7 ==> text[k] == text[3..][k - 3];
      }
      DropHolds(f, rest, n);
      var g: string :| StripLeft(text[n..]) == g + rest && '{' !in g;
      Associate(g, body, a);
    }
  }

  lemma JsonWordHasNoBrace(s: string)
    requires IsJsonWord(s)
    ensures forall i :: 0 <= i < 4 ==> s[i] != '{'
  {
    assert '{' !in "jJ" && '{' !in "sS" && '{' !in "oO" && '{' !in "nN";
  }

  lemma ClosingFenceHolds(text: string, body: string)
    requires Holds(text, body) && IsObjectText(body)
    ensures Holds(WithoutClosingFence(text), body)
  {
    hide ParseValue;
    if |text| >= 3 && text[|text| - 3..] == FENCE {
      var f: string, a: string :| text == f + body + a && '{' !in f;
      FenceIsBehind(f, body, a);
      StripRightKeeps(f + body, a[..|a| - 3]);
    }
  }

  lemma FenceIsBehind(f: string, body: string, a: string)
    requires body != "" && body[|body| - 1] == '}'
    requires |f + body + a| >= 3 && (f + body + a)[|f + body + a| - 3..] == FENCE
    ensures |a| >= 3 && (f + body + a)[..|f + body + a| - 3] == f + body + a[..|a| - 3]
    ensures (f + body)[|f + body| - 1] == '}'
  {
    var text := f + body + a;
    var n := |text| - 3;
    assert forall k :: n <= k < |text| ==> text[k] == FENCE[k - n] == '`';
    assert text[|f| + |body| - 1] == '}';
  }

  lemma CleanedHolds(output: string, body: string)
    requires Holds(output, body) && IsObjectText(body)
    ensures Holds(Cleaned(output), body) && Strip(output) != ""
  {
    StripHolds(output, body);
    OpeningFenceHolds(Strip(output), body);
    ClosingFenceHolds(WithoutOpeningFence(Strip(output)), body);
  }

  // ----- Recovery

  /** An answer whose first brace opens an object text is read as that object, whatever text, fences or
      further objects surround it, when the braces in the object text balance. */
  lemma EmbeddedObjectIsRecovered(output: string, body: string, r: Option<Json>)
    requires Holds(output, body) && IsObjectText(body) && Balance(body) == 0
    requires Reading(Cleaned(output), r)
    ensures Strip(output) != "" && r == Some(ObjectOf(body))
  {
    CleanedHolds(output, body);
    var text := Cleaned(output);
    var f: string, a: string :| text == f + body + a && '{' !in f;
    WholeText(f, body, a);
    FoundFromItsBrace(f, body, a);
    forall h: nat, j: nat | h < |f| ensures !Hit(text, h, j) {
      Associate(f, body, a);
      NoHitInFront(f, body + a, h, j);
    }
    assert Found(text, Some(ObjectOf(body)));
    assert AsObject(text).None? ==> Reading(text, Some(ObjectOf(body)));
    ReadingIsUnique(text, r, Some(ObjectOf(body)));
  }

  /** A printed object is recovered when its strings have as many opening as closing braces. */
  lemma PrintedObjectIsRecovered(output: string, v: Json, r: Option<Json>)
    requires WellFormed(v) && v.Obj? && BracesIn(v) == 0
    requires Holds(output, Print(v)) && Reading(Cleaned(output), r)
    ensures r == Some(v)
  {
    PrintedObjectIsObjectText(v);
    PrintBalance(v);
    EmbeddedObjectIsRecovered(output, Print(v), r);
  }

  const POINT_NINE: FloatParts := FloatParts(false, "0", ".9", "")

  /** The confidence that the review prompt asks for is such a number. */
  lemma FractionalConfidenceIsRead()
    ensures IsFloat(POINT_NINE)
    ensures AsObject("{\"confidence\":0.9}") == Some(Obj([Member("confidence", Real(POINT_NINE))]))
  {
    PointNine();
    var v := Obj([Member("confidence", Real(POINT_NINE))]);
    ConfidenceText(v);
    PrintedObjectIsObjectText(v);
    ObjectThenText(Print(v), "");
    assert Print(v) + "" == Print(v);
  }

  lemma PointNine()
    ensures IsFloat(POINT_NINE) && PrintFloat(POINT_NINE) == "0.9"
  {
    assert ".9"[1..] == "9";
  }

  lemma ConfidenceText(v: Json)
    requires IsFloat(POINT_NINE) && v == Obj([Member("confidence", Real(POINT_NINE))])
    ensures Print(v) == "{\"confidence\":0.9}" && WellFormed(v)
  {
    hide Escape, EscapeChar, PrintFloat, PrintMembers, PrintMember;
    PointNine();
    NothingToEscape("confidence");
    PrintOneMember("confidence", Real(POINT_NINE));
    Spelled(Escape("confidence"), Print(Real(POINT_NINE)));
  }

  lemma Spelled(key: string, number: string)
    requires key == "confidence" && number == "0.9"
    ensures "{\"" + key + "\":" + number + "}" == "{\"confidence\":0.9}"
  {
  }

  lemma PrintOneMember(key: string, value: Json)
    ensures Print(Obj([Member(key, value)])) == "{\"" + Escape(key) + "\":" + Print(value) + "}"
  {
    hide Escape, PrintFloat, PrintNum;
    var m := Member(key, value);
    assert PrintMembers([m]) == PrintMember(m);
    assert PrintMember(m) == "\"" + Escape(key) + "\"" + ":" + Print(value);
  }

  lemma {:induction false} NothingToEscape(s: string)
    requires forall i :: 0 <= i < |s| ==> 'a' <= s[i] <= 'z'
    ensures Escape(s) == s
  {
    if s != "" {
      assert EscapeChar(s[0]) == [s[0]];
      NothingToEscape(s[1..]);
      HeadAndTail(s);
    }
  }

  /** When the braces of the first object do not balance, and the whole text is no object, no candidate that
      begins at or before that object is one: what is read, if anything, begins inside it or after it. */
  lemma UnbalancedObjectIsSkipped(front: string, body: string, after: string)
    requires IsObjectText(body) && '{' !in front && Balance(body) != 0
    ensures forall h: nat, j: nat :: h <= |front| ==> !Hit(front + body + after, h, j)
  {
    FoundFromItsBrace(front, body, after);
    Associate(front, body, after);
    forall h: nat, j: nat | h <= |front| ensures !Hit(front + body + after, h, j) {
      if h < |front| {
        NoHitInFront(front, body + after, h, j);
      }
    }
  }

  /** An object whose first member is a string with a brace, in four pieces. */
  const UP_TO_BRACE := "{\"a\":\""
  const FROM_BRACE := "{\",\"b\":"
  const INNER := "{}"
  const BRACE_IN_STRING := UP_TO_BRACE + FROM_BRACE + INNER + "}"

  function BraceInString(): Json {
    Obj([Member("a", Str("{")), Member("b", Obj([]))])
  }

  /** A brace in a string can have an inner object read as the review instead of the whole: the scanner
      counts braces in strings like any others. */
  lemma InnerObjectIsReadInstead()
    ensures Print(BraceInString()) == BRACE_IN_STRING
    ensures Reading("x" + BRACE_IN_STRING, Some(Obj([])))
  {
    var text := "x" + BRACE_IN_STRING;
    BraceInStringText();
    PrintedObjectIsObjectText(BraceInString());
    NotAnObject(text);
    PiecesBalance();
    assert "x" + BRACE_IN_STRING + "" == text;
    UnbalancedObjectIsSkipped("x", BRACE_IN_STRING, "");
    forall h: nat, j: nat | 1 < h < 14 ensures !Hit(text, h, j) {
      OnlyTheStringBrace(text, h, j);
    }
    InnerIsHit(text);
  }

  lemma InnerIsHit(text: string)
    requires text == "x" + BRACE_IN_STRING
    ensures FoundFrom(text, 14, Some(Obj([])))
  {
    EmptyObject();
    assert text[14..16] == INNER;
    assert Hit(text, 14, 15);
    assert forall k: nat :: k < 15 ==> !Hit(text, 14, k);
  }

  lemma OnlyTheStringBrace(text: string, h: nat, j: nat)
    requires text == "x" + BRACE_IN_STRING && 1 < h < 14
    ensures !Hit(text, h, j)
  {
    PiecesBalance();
    NotAMember();
    assert text[7..16] == FROM_BRACE + INNER;
    assert text[7..17] == FROM_BRACE + INNER + "}";
    if Candidate(text, h, j) {
      assert h == 7 && (j == 15 || j == 16);
    }
  }

  lemma BraceInStringText()
    ensures Print(BraceInString()) == BRACE_IN_STRING
  {
    hide Escape, EscapeChar, PrintMember, PrintMembers;
    var a, b := Member("a", Str("{")), Member("b", Obj([]));
    FirstMemberText();
    SecondMemberText();
    PrintTwoMembers(a, b);
    Joined(PrintMember(a), PrintMember(b));
  }

  lemma PrintTwoMembers(a: Member, b: Member)
    ensures Print(Obj([a, b])) == "{" + (PrintMember(a) + "," + PrintMember(b)) + "}"
  {
    hide PrintMember;
    assert [a, b][1..] == [b];
    assert PrintMembers([b]) == PrintMember(b);
    assert PrintMembers([a, b]) == PrintMember(a) + "," + PrintMember(b);
  }

  lemma FirstMemberText()
    ensures PrintMember(Member("a", Str("{"))) == "\"a\":\"{\""
  {
    NothingToEscape("a");
    assert Escape("{") == "{" + Escape("");
  }

  lemma SecondMemberText()
    ensures PrintMember(Member("b", Obj([]))) == "\"b\":{}"
  {
    NothingToEscape("b");
  }

  lemma Joined(a: string, b: string)
    requires a == "\"a\":\"{\"" && b == "\"b\":{}"
    ensures "{" + (a + "," + b) + "}" == BRACE_IN_STRING
  {
  }

  lemma OneBrace(rest: string)
    requires '{' !in rest && '}' !in rest
    ensures Balance("{" + rest) == 1
  {
    NoBraces(rest);
    BalanceOfOne('{');
    BalanceAppend("{", rest);
  }

  lemma PiecesBalance()
    ensures Balance(FROM_BRACE + INNER) == 1 && Balance(BRACE_IN_STRING) == 1
  {
    OneBrace("\"a\":\"");
    OneBrace("\",\"b\":");
    EmptyObject();
    BalanceOfOne('}');
    assert UP_TO_BRACE == "{" + "\"a\":\"" && FROM_BRACE == "{" + "\",\"b\":";
    BalanceAppend(FROM_BRACE, INNER);
    BalanceAppend(UP_TO_BRACE, FROM_BRACE + INNER);
    Associate(UP_TO_BRACE, FROM_BRACE, INNER);
    BalanceAppend(UP_TO_BRACE + FROM_BRACE + INNER, "}");
  }

  lemma NotAMember()
    ensures AsObject(FROM_BRACE + INNER + "}").None?
  {
    hide ParseMember, AsObject;
    CommaIsAKey();
    NoFirstMember(FROM_BRACE + INNER + "}", "\",\"b\":{}}");
  }

  lemma NoFirstMember(s: string, member: string)
    requires s == "{" + member && StartsWith(member, '"') && ParseMember(member).None?
    ensures AsObject(s).None?
  {
    hide ParseMember;
    SkipNothing(s);
    SkipNothing(member);
    assert s[1..] == member;
    assert ParseMembers(member).None?;
    assert ParseValue(s).None?;
  }

  /** The key is a comma, and no colon follows it. */
  lemma CommaIsAKey()
    ensures ParseMember("\",\"b\":{}}").None?
  {
    hide ParseValue;
    var member, key, after := "\",\"b\":{}}", ",\"b\":{}}", "b\":{}}";
    assert member[1..] == key && key[1..] == "\"" + after && ("\"" + after)[1..] == after;
    assert ParseString("\"" + after) == Some(Parsed("", after));
    assert ParseString(key) == Some(Parsed([','] + "", after));
    SkipNothing(after);
  }

  lemma EmptyObject()
    ensures AsObject("{}") == Some(Obj([])) && Balance("{}") == 0
  {
    NoBraces("");
    Surrounded('{', "", '}');
    assert ['{'] + "" + ['}'] == "{}";
    SkipNothing("{}");
    assert "{}"[1..] == "}" && "}"[1..] == "";
    SkipNothing("}");
  }
}
