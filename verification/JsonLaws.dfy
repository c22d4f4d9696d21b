/** Reading inverts printing, and what follows a value does not change how it is read. */
module JsonLaws {
  import opened Basics
  import opened Decimal
  import opened Json

  // ----- Strings

  lemma CharRoundTrip(c: char, rest: string)
    ensures ParseChar(EscapeChar(c) + rest) == Some(Parsed(c, rest))
    ensures !StartsWith(EscapeChar(c) + rest, '"')
  {
    if ShortEscape(c).Some? {
      assert (EscapeChar(c) + rest)[2..] == rest;
    } else if c < ' ' {
      HexRoundTrip(c, rest);
    } else {
      assert (EscapeChar(c) + rest)[1..] == rest;
    }
  }

  lemma HexRoundTrip(c: char, rest: string)
    requires ShortEscape(c).None? && c < ' '
    ensures ParseChar(EscapeChar(c) + rest) == Some(Parsed(c, rest))
  {
    var text := EscapeChar(c) + rest;
    var hi, lo := c as int / 16, c as int % 16;
    assert text[..6] == ['\\', 'u', '0', '0', HEX[hi], HEX[lo]] && text[6..] == rest;
    assert HexValue(text[2]) == Some(0) && HexValue(text[3]) == Some(0);
    HexDigit(hi);
    HexDigit(lo);
    assert HexValue(text[4]) == Some(hi) && HexValue(text[5]) == Some(lo);
  }

  lemma HexDigit(d: nat)
    requires d < 16
    ensures HexValue(HEX[d]) == Some(d)
  {
  }

  lemma {:induction false} StringRoundTrip(s: string, rest: string)
    ensures ParseString(Escape(s) + "\"" + rest) == Some(Parsed(s, rest))
  {
    if s == "" {
      assert (Escape(s) + "\"" + rest)[1..] == rest;
    } else {
      FrontOf(EscapeChar(s[0]), Escape(s[1..]), "\"", rest);
      CharRoundTrip(s[0], Escape(s[1..]) + "\"" + rest);
      StringRoundTrip(s[1..], rest);
      HeadAndTail(s);
    }
  }

  lemma FrontOf(a: string, b: string, c: string, d: string)
    ensures a + b + c + d == a + (b + c + d)
  {
  }

  // ----- Numbers

  /** What may follow a number. */
  predicate EndsNumber(rest: string) {
    rest == "" || (!IsDigit(rest[0]) && rest[0] != '.' && rest[0] != 'e' && rest[0] != 'E')
  }

  lemma WholeLengthOf(w: string, rest: string)
    requires IsWhole(w) && (rest == "" || !IsDigit(rest[0]))
    ensures WholeLength(w + rest) == |w|
  {
    assert (w + rest)[0] == w[0];
    DigitPrefixOf(w, rest);
  }

  lemma FractionLengthOf(f: string, rest: string)
    requires IsFraction(f) && (rest == "" || (!IsDigit(rest[0]) && (f == "" ==> rest[0] != '.')))
    ensures FractionLength(f + rest) == |f|
  {
    if f == "" {
      assert f + rest == rest;
    } else {
      assert (f + rest)[0] == '.' && (f + rest)[1..] == f[1..] + rest;
      DigitPrefixOf(f[1..], rest);
    }
  }

  lemma ExponentLengthOf(e: string, rest: string)
    requires IsExponent(e) && EndsNumber(rest)
    ensures ExponentLength(e + rest) == |e|
  {
    if e == "" {
      assert e + rest == rest;
    } else {
      assert (e + rest)[0] == e[0] && (e + rest)[1..] == e[1..] + rest;
      SignedDigitsOf(e[1..], rest);
      var sign := SignLength(e[1..] + rest);
      assert (e + rest)[1 + sign..] == (e[1..] + rest)[sign..];
    }
  }

  lemma SignedDigitsOf(d: string, rest: string)
    requires IsSignedDigits(d) && (rest == "" || !IsDigit(rest[0]))
    ensures
      var sign := SignLength(d + rest);
      sign < |d| && DigitPrefix((d + rest)[sign..]) == |d| - sign
  {
    assert (d + rest)[0] == d[0];
    var sign := SignLength(d + rest);
    assert (d + rest)[sign..] == d[sign..] + rest;
    assert d[0..] == d;
    DigitPrefixOf(d[sign..], rest);
  }

  lemma FrontOfExponent(e: string, rest: string)
    requires IsExponent(e) && EndsNumber(rest)
    ensures e + rest == "" || (!IsDigit((e + rest)[0]) && (e + rest)[0] != '.')
  {
    if e != "" {
      assert (e + rest)[0] == e[0];
    } else {
      assert e + rest == rest;
    }
  }

  lemma FrontOfFraction(f: string, rest: string)
    requires IsFraction(f) && (rest == "" || !IsDigit(rest[0]))
    ensures f + rest == "" || !IsDigit((f + rest)[0])
  {
    if f != "" {
      assert (f + rest)[0] == f[0];
    } else {
      assert f + rest == rest;
    }
  }

  /** The parts of a number are read back one after the other. */
  lemma PartsAreRead(negative: bool, w: string, f: string, e: string, rest: string)
    requires IsWhole(w) && IsFraction(f) && IsExponent(e) && EndsNumber(rest)
    ensures ParseUnsigned(negative, w + (f + (e + rest))) == Some(Parsed(Written(negative, w, f, e), rest))
  {
    LengthsOf(w, f, e, rest);
    Pieces(w, f, e, rest);
    Assembled(negative, w + (f + (e + rest)), w, f, e, rest);
  }

  lemma LengthsOf(w: string, f: string, e: string, rest: string)
    requires IsWhole(w) && IsFraction(f) && IsExponent(e) && EndsNumber(rest)
    ensures WholeLength(w + (f + (e + rest))) == |w|
    ensures FractionLength(f + (e + rest)) == |f|
    ensures ExponentLength(e + rest) == |e|
  {
    FrontOfExponent(e, rest);
    FrontOfFraction(f, e + rest);
    WholeLengthOf(w, f + (e + rest));
    FractionLengthOf(f, e + rest);
    ExponentLengthOf(e, rest);
  }

  lemma Assembled(negative: bool, s: string, w: string, f: string, e: string, rest: string)
    requires w != "" && IsWhole(w) && IsFraction(f) && IsExponent(e) && |s| == |w| + |f| + |e| + |rest|
    requires WholeLength(s) == |w| && s[..|w|] == w
    requires FractionLength(s[|w|..]) == |f| && s[|w|..][..|f|] == f
    requires ExponentLength(s[|w| + |f|..]) == |e| && s[|w| + |f|..][..|e|] == e && s[|w| + |f| + |e|..] == rest
    ensures ParseUnsigned(negative, s) == Some(Parsed(Written(negative, w, f, e), rest))
  {
    hide WholeLength, FractionLength, ExponentLength, IsWhole, IsFraction, IsExponent, ValueOf;
  }

  lemma OfLengths(negative: bool, s: string, i: nat, j: nat, k: nat)
    requires 0 < i == WholeLength(s) && j == FractionLength(s[i..]) && k == ExponentLength(s[i + j..])
    ensures
      ParseUnsigned(negative, s)
      == Some(Parsed(Written(negative, s[..i], s[i..][..j], s[i + j..][..k]), s[i + j + k..]))
  {
    hide WholeLength, FractionLength, ExponentLength, IsWhole, IsFraction, IsExponent, ValueOf;
  }

  lemma Pieces(w: string, f: string, e: string, rest: string)
    ensures
      var s := w + (f + (e + rest));
      && s[..|w|] == w && s[|w|..] == f + (e + rest) && s[|w|..][..|f|] == f
      && s[|w| + |f|..] == e + rest && s[|w| + |f|..][..|e|] == e && s[|w| + |f| + |e|..] == rest
  {
  }

  lemma PrintedNumberIsRead(n: int, rest: string)
    requires EndsNumber(rest)
    ensures
      var text := PrintNum(n) + rest;
      && text != "" && (text[0] == '-' || IsDigit(text[0]))
      && ParseNumber(text) == Some(Parsed(Num(n), rest))
  {
    var m := if n < 0 then -n else n;
    DigitsDenote(m);
    PartsAreRead(n < 0, Digits(m), "", "", rest);
    assert "" + rest == rest;
    assert (Digits(m) + rest)[0] == Digits(m)[0];
    if n < 0 {
      Associate("-", Digits(m), rest);
      assert ("-" + (Digits(m) + rest))[1..] == Digits(m) + rest;
    }
  }

  lemma NumberRoundTrip(n: int, rest: string)
    requires EndsNumber(rest)
    ensures ParseValue(PrintNum(n) + rest) == Some(Parsed(Num(n), rest))
  {
    PrintedNumberIsRead(n, rest);
    SecondIsDigit(PrintNum(n) + rest);
    ReadAsNumber(PrintNum(n) + rest);
  }

  predicate IsNumberChar(c: char) {
    IsDigit(c) || c == '-' || c == '+' || c == '.' || c == 'e' || c == 'E'
  }

  lemma FloatCharacters(f: Float)
    ensures forall c :: c in PrintFloat(f) ==> IsNumberChar(c)
  {
    ExponentCharacters(f.exponent);
    assert forall i :: 0 < i < |f.fraction| ==> f.fraction[i] == f.fraction[1..][i - 1];
    assert forall c :: c in f.fraction ==> IsNumberChar(c);
  }

  lemma ExponentCharacters(e: string)
    requires IsExponent(e)
    ensures forall c :: c in e ==> IsNumberChar(c)
  {
    if e != "" {
      var d := e[1..];
      assert forall i :: 0 < i < |d| ==> d[i] == d[1..][i - 1];
      assert forall c :: c in d ==> IsNumberChar(c);
      assert e == [e[0]] + d;
    }
  }

  lemma PrintedFloatIsRead(f: Float, rest: string)
    requires EndsNumber(rest)
    ensures
      var text := PrintFloat(f) + rest;
      && text != "" && (text[0] == '-' || IsDigit(text[0]))
      && ParseNumber(text) == Some(Parsed(Real(f), rest))
  {
    var parts := f.whole + (f.fraction + (f.exponent + rest));
    PartsAreRead(f.negative, f.whole, f.fraction, f.exponent, rest);
    FloatText(f, rest);
    assert parts[0] == f.whole[0];
    assert FloatParts(f.negative, f.whole, f.fraction, f.exponent) == f;
    if f.negative {
      assert ("-" + parts)[1..] == parts;
    } else {
      assert "" + parts == parts;
    }
  }

  lemma FloatText(f: FloatParts, rest: string)
    ensures
      PrintFloat(f) + rest == (if f.negative then "-" else "") + (f.whole + (f.fraction + (f.exponent + rest)))
  {
  }

  lemma FloatRoundTrip(f: Float, rest: string)
    requires EndsNumber(rest)
    ensures ParseValue(PrintFloat(f) + rest) == Some(Parsed(Real(f), rest))
  {
    PrintedFloatIsRead(f, rest);
    SecondIsDigit(PrintFloat(f) + rest);
    ReadAsNumber(PrintFloat(f) + rest);
  }

  lemma SecondIsDigit(text: string)
    requires text != "" && ParseNumber(text).Some?
    ensures text[0] == '-' ==> |text| >= 2 && IsDigit(text[1])
  {
  }

  lemma ReadAsNumber(text: string)
    requires text != "" && (IsDigit(text[0]) || (text[0] == '-' && |text| >= 2 && IsDigit(text[1])))
    ensures ParseValue(text) == ParseNumber(text)
  {
    hide ParseNumber, ParseWord, ParseString, ParseItems, ParseMembers;
    NotAWord(text);
  }

  lemma NotAWord(text: string)
    requires text != "" && (IsDigit(text[0]) || (text[0] == '-' && |text| >= 2 && IsDigit(text[1])))
    ensures ParseWord(text).None?
  {
    assert "null"[0] == 'n' && "true"[0] == 't' && "false"[0] == 'f';
    assert "NaN"[0] == 'N' && "Infinity"[0] == 'I' && "-Infinity"[1] == 'I';
  }

  // ----- Values

  lemma PrintStartsWell(v: Json)
    ensures Print(v) != "" && !IsJsonSpace(Print(v)[0]) && Print(v)[0] != ']' && Print(v)[0] != '}'
  {
    match v
    case Num(n) => DigitsDenote(if n < 0 then -n else n);
    case Real(f) => assert f.whole != "" && IsDigit(f.whole[0]);
    case _ =>
  }

  lemma SkipNothing(s: string)
    requires s == "" || !IsJsonSpace(s[0])
    ensures SkipSpace(s) == s
  {
  }

  lemma {:induction false} DictionaryOfUnique(ms: seq<Member>)
    requires UniqueKeys(ms)
    ensures Dictionary(ms) == ms
  {
    if ms != [] {
      var n := |ms| - 1;
      DictionaryOfUnique(ms[..n]);
      InsertNew(ms[..n], ms[n]);
    }
  }

  lemma {:induction false} InsertNew(ms: seq<Member>, m: Member)
    requires forall i :: 0 <= i < |ms| ==> ms[i].key != m.key
    ensures Insert(ms, m) == ms + [m]
  {
    if ms != [] {
      InsertNew(ms[1..], m);
    }
  }

  predicate IsWord(v: Json) {
    v.Null? || v.Bool? || v.NaN? || v.Infinity?
  }

  lemma LiteralRoundTrip(v: Json, rest: string)
    requires IsWord(v)
    ensures ParseValue(Print(v) + rest) == Some(Parsed(v, rest))
  {
    WordRoundTrip(v, rest);
    assert (Print(v) + rest)[0] == Print(v)[0];
  }

  lemma WordRoundTrip(v: Json, rest: string)
    requires IsWord(v)
    ensures ParseWord(Print(v) + rest) == Some(Parsed(v, rest))
  {
    var text := Print(v) + rest;
    assert text[|Print(v)|..] == rest && Print(v) <= text;
    WordsDiffer();
  }

  lemma WordsDiffer()
    ensures "null"[0] == 'n' && "true"[0] == 't' && "false"[0] == 'f'
    ensures "NaN"[0] == 'N' && "Infinity"[0] == 'I' && "-Infinity"[0] == '-'
  {
  }

  lemma Quoted(body: string, rest: string)
    ensures
      var text := "\"" + body + "\"" + rest;
      text[0] == '"' && text[1..] == body + "\"" + rest
  {
  }

  lemma StrRoundTrip(s: string, rest: string)
    ensures ParseValue(Print(Str(s)) + rest) == Some(Parsed(Str(s), rest))
  {
    StringRoundTrip(s, rest);
    Quoted(Escape(s), rest);
  }

  predicate IsNumber(v: Json) {
    v.Num? || v.Real?
  }

  /** A printed value is read back, whatever follows it, except that a number must not go on. */
  lemma {:induction false} ValueRoundTrip(v: Json, rest: string)
    requires WellFormed(v) && (IsNumber(v) ==> EndsNumber(rest))
    ensures ParseValue(Print(v) + rest) == Some(Parsed(v, rest))
    decreases v, 1
  {
    match v
    case Null => LiteralRoundTrip(v, rest);
    case Bool(_) => LiteralRoundTrip(v, rest);
    case Num(n) => NumberRoundTrip(n, rest);
    case Real(f) => FloatRoundTrip(f, rest);
    case NaN => LiteralRoundTrip(v, rest);
    case Infinity(_) => LiteralRoundTrip(v, rest);
    case Str(s) => StrRoundTrip(s, rest);
    case Arr(items) => ArrRoundTrip(items, rest);
    case Obj(ms) => ObjRoundTrip(ms, rest);
  }

  lemma {:induction false} ArrRoundTrip(items: seq<Json>, rest: string)
    requires forall i :: 0 <= i < |items| ==> WellFormed(items[i])
    ensures ParseValue(Print(Arr(items)) + rest) == Some(Parsed(Arr(items), rest))
    decreases items, 1
  {
    var text := Print(Arr(items)) + rest;
    var inner := PrintItems(items) + "]" + rest;
    assert text[0] == '[' && text[1..] == inner;
    if items == [] {
      assert inner[1..] == rest;
    } else {
      PrintStartsWell(items[0]);
      assert inner[0] == Print(items[0])[0];
      SkipNothing(inner);
      ItemsRoundTrip(items, rest);
    }
  }

  lemma {:induction false} ObjRoundTrip(ms: seq<Member>, rest: string)
    requires UniqueKeys(ms) && forall i :: 0 <= i < |ms| ==> WellFormed(ms[i].value)
    ensures ParseValue(Print(Obj(ms)) + rest) == Some(Parsed(Obj(ms), rest))
    decreases ms, 1
  {
    var text := Print(Obj(ms)) + rest;
    var inner := PrintMembers(ms) + "}" + rest;
    assert text[0] == '{' && text[1..] == inner;
    if ms == [] {
      assert inner[1..] == rest;
    } else {
      MembersStartWithQuote(ms);
      assert inner[0] == '"';
      SkipNothing(inner);
      MembersRoundTrip(ms, rest);
      DictionaryOfUnique(ms);
    }
  }

  lemma MembersStartWithQuote(ms: seq<Member>)
    requires ms != []
    ensures PrintMembers(ms) != "" && PrintMembers(ms)[0] == '"'
  {
    assert PrintMember(ms[0])[0] == '"';
  }

  lemma {:induction false} ItemsRoundTrip(items: seq<Json>, rest: string)
    requires items != [] && forall i :: 0 <= i < |items| ==> WellFormed(items[i])
    ensures ParseItems(PrintItems(items) + "]" + rest) == Some(Parsed(items, rest))
    decreases items, 0
  {
    var text := PrintItems(items) + "]" + rest;
    if |items| == 1 {
      Associate(Print(items[0]), "]", rest);
      ValueRoundTrip(items[0], "]" + rest);
      LastItem(text, items[0], rest);
      assert items == [items[0]];
    } else {
      var next := PrintItems(items[1..]) + "]" + rest;
      Regroup(Print(items[0]), PrintItems(items[1..]), "]", rest);
      ValueRoundTrip(items[0], "," + next);
      ItemsStartWell(items[1..], "]" + rest);
      Associate(PrintItems(items[1..]), "]", rest);
      ItemsRoundTrip(items[1..], rest);
      OneMoreItem(text, items[0], next);
      HeadAndTail(items);
    }
  }

  lemma ItemsStartWell(items: seq<Json>, rest: string)
    requires items != []
    ensures SkipSpace(PrintItems(items) + rest) == PrintItems(items) + rest
  {
    PrintStartsWell(items[0]);
    assert PrintItems(items)[0] == Print(items[0])[0];
    SkipNothing(PrintItems(items) + rest);
  }

  lemma LastItem(text: string, v: Json, rest: string)
    requires ParseValue(text) == Some(Parsed(v, "]" + rest))
    ensures ParseItems(text) == Some(Parsed([v], rest))
  {
    var tail := "]" + rest;
    SkipNothing(tail);
    assert tail[1..] == rest;
  }

  lemma OneMoreItem(text: string, v: Json, next: string)
    requires ParseValue(text) == Some(Parsed(v, "," + next))
    requires SkipSpace(next) == next && ParseItems(next).Some?
    ensures ParseItems(text) == Some(Parsed([v] + ParseItems(next).value.value, ParseItems(next).value.rest))
  {
    var tail := "," + next;
    SkipNothing(tail);
    assert tail[1..] == next;
  }

  lemma {:induction false} MemberRoundTrip(m: Member, rest: string)
    requires WellFormed(m.value) && (IsNumber(m.value) ==> EndsNumber(rest))
    ensures ParseMember(PrintMember(m) + rest) == Some(Parsed(m, rest))
    decreases m, 2
  {
    var value := Print(m.value) + rest;
    KeyRoundTrip(m, rest);
    PrintStartsWell(m.value);
    assert value[0] == Print(m.value)[0];
    SkipNothing(value);
    ValueRoundTrip(m.value, rest);
  }

  lemma KeyRoundTrip(m: Member, rest: string)
    ensures
      var text := PrintMember(m) + rest;
      var tail := ":" + (Print(m.value) + rest);
      && text[0] == '"' && ParseString(text[1..]) == Some(Parsed(m.key, tail))
      && SkipSpace(tail) == tail && tail[1..] == Print(m.value) + rest
  {
    var tail := ":" + (Print(m.value) + rest);
    Quoted(Escape(m.key), tail);
    KeyText(PrintString(m.key), Print(m.value), rest);
    StringRoundTrip(m.key, tail);
  }

  lemma KeyText(key: string, value: string, rest: string)
    ensures key + ":" + value + rest == key + (":" + (value + rest))
  {
  }

  lemma {:induction false} MembersRoundTrip(ms: seq<Member>, rest: string)
    requires ms != [] && forall i :: 0 <= i < |ms| ==> WellFormed(ms[i].value)
    ensures ParseMembers(PrintMembers(ms) + "}" + rest) == Some(Parsed(ms, rest))
    decreases ms, 0
  {
    if |ms| == 1 {
      OneMemberText(ms, rest);
      MemberRoundTrip(ms[0], "}" + rest);
      LastMember(PrintMembers(ms) + "}" + rest, ms[0], rest);
    } else {
      MembersText(ms, rest);
      MemberRoundTrip(ms[0], "," + (PrintMembers(ms[1..]) + "}" + rest));
      MembersRoundTrip(ms[1..], rest);
      OneMoreMember(PrintMembers(ms) + "}" + rest, ms[0], PrintMembers(ms[1..]) + "}" + rest);
      HeadAndTail(ms);
    }
  }

  lemma OneMemberText(ms: seq<Member>, rest: string)
    requires |ms| == 1
    ensures PrintMembers(ms) + "}" + rest == PrintMember(ms[0]) + ("}" + rest)
    ensures ms == [ms[0]]
  {
    Associate(PrintMember(ms[0]), "}", rest);
  }

  lemma MembersText(ms: seq<Member>, rest: string)
    requires |ms| > 1
    ensures
      var next := PrintMembers(ms[1..]) + "}" + rest;
      PrintMembers(ms) + "}" + rest == PrintMember(ms[0]) + ("," + next) && StartsWith(next, '"')
  {
    MembersStartWithQuote(ms[1..]);
    Regroup(PrintMember(ms[0]), PrintMembers(ms[1..]), "}", rest);
  }

  lemma Regroup(a: string, b: string, c: string, d: string)
    ensures a + "," + b + c + d == a + ("," + (b + c + d))
  {
  }

  lemma LastMember(text: string, m: Member, rest: string)
    requires ParseMember(text) == Some(Parsed(m, "}" + rest))
    ensures ParseMembers(text) == Some(Parsed([m], rest))
  {
    var tail := "}" + rest;
    SkipNothing(tail);
    assert tail[1..] == rest;
  }

  lemma OneMoreMember(text: string, m: Member, next: string)
    requires ParseMember(text) == Some(Parsed(m, "," + next))
    requires StartsWith(next, '"') && ParseMembers(next).Some?
    ensures ParseMembers(text) == Some(Parsed([m] + ParseMembers(next).value.value, ParseMembers(next).value.rest))
  {
    var tail := "," + next;
    SkipNothing(tail);
    assert tail[1..] == next;
    SkipNothing(next);
  }

  /** `json.loads(json.dumps(v)) == v`. */
  lemma LoadsInvertsPrint(v: Json)
    requires WellFormed(v)
    ensures Loads(Print(v)) == Some(v)
  {
    ValueRoundTrip(v, "");
    assert Print(v) + "" == Print(v);
    PrintStartsWell(v);
    SkipNothing(Print(v));
  }

  lemma PrintIsInjective(v: Json, w: Json)
    requires WellFormed(v) && WellFormed(w) && Print(v) == Print(w)
    ensures v == w
  {
    LoadsInvertsPrint(v);
    LoadsInvertsPrint(w);
  }

  // ----- Text after a value

  lemma {:induction false} SkipSpaceAppend(s: string, x: string)
    requires SkipSpace(s) != ""
    ensures SkipSpace(s + x) == SkipSpace(s) + x
  {
    if IsJsonSpace(s[0]) {
      assert (s + x)[1..] == s[1..] + x;
      SkipSpaceAppend(s[1..], x);
    }
  }

  lemma AfterSpace(s: string, x: string)
    requires SkipSpace(s) != ""
    ensures
      var t := SkipSpace(s);
      SkipSpace(s + x) == t + x && (t + x)[0] == t[0] && (t + x)[1..] == t[1..] + x
  {
    SkipSpaceAppend(s, x);
  }

  lemma CodeUnitAppend(s: string, x: string)
    requires CodeUnit(s).Some? || (s != "" && s[0] != '\\') || (|s| >= 2 && s[1] != 'u')
    ensures CodeUnit(s + x) == CodeUnit(s)
  {
    assert forall i :: 0 <= i < |s| ==> (s + x)[i] == s[i];
  }

  /** Whether an escape is the first half of a pair is settled by what follows it in the string. */
  lemma ParseUnitsAppend(s: string, x: string)
    requires ParseUnits(s).Some? && ParseString(ParseUnits(s).value.rest).Some?
    ensures ParseUnits(s + x) == Some(Parsed(ParseUnits(s).value.value, ParseUnits(s).value.rest + x))
  {
    hide HexValue;
    CodeUnitAppend(s, x);
    var next := s[6..];
    assert (s + x)[6..] == next + x;
    if IsHigh(CodeUnit(s).value) {
      if CodeUnit(next).None? {
        assert ParseString(next).Some?;
      }
      CodeUnitAppend(next, x);
      if CodeUnit(next).Some? {
        assert (s + x)[12..] == s[12..] + x;
      }
    }
  }

  lemma ParseCharAppend(s: string, x: string)
    requires s != "" && ParseChar(s).Some? && ParseString(ParseChar(s).value.rest).Some?
    ensures ParseChar(s + x) == Some(Parsed(ParseChar(s).value.value, ParseChar(s).value.rest + x))
  {
    var t := s + x;
    assert forall i :: 0 <= i < |s| ==> t[i] == s[i];
    assert t[1..] == s[1..] + x;
    if s[0] == '\\' {
      assert t[2..] == s[2..] + x;
      if Unescape(s[1]).None? {
        ParseUnitsAppend(s, x);
      }
    }
  }

  lemma {:induction false} ParseStringAppend(s: string, x: string)
    requires ParseString(s).Some?
    ensures ParseString(s + x) == Some(Parsed(ParseString(s).value.value, ParseString(s).value.rest + x))
    decreases |s|
  {
    var t := s + x;
    assert t[0] == s[0];
    if s[0] == '"' {
      assert t[1..] == s[1..] + x;
    } else {
      ParseCharAppend(s, x);
      ParseStringAppend(ParseChar(s).value.rest, x);
    }
  }

  /** A number is read the same way whatever is added to text that already ended it. */
  lemma ParseUnsignedAppend(negative: bool, s: string, x: string)
    requires ParseUnsigned(negative, s).Some?
    requires ParseUnsigned(negative, s).value.rest != "" && EndsNumber(ParseUnsigned(negative, s).value.rest)
    ensures
      var r := ParseUnsigned(negative, s).value;
      ParseUnsigned(negative, s + x) == Some(Parsed(r.value, r.rest + x))
  {
    var w, f, e, rest := Cut(s);
    PartsAreRead(negative, w, f, e, rest);
    PartsAreRead(negative, w, f, e, rest + x);
    MoreText(w, f, e, rest, x);
  }

  lemma Cut(s: string) returns (w: string, f: string, e: string, rest: string)
    requires WholeLength(s) > 0
    ensures s == w + (f + (e + rest)) && IsWhole(w) && IsFraction(f) && IsExponent(e)
    ensures
      && ParseUnsigned(true, s).Some? && ParseUnsigned(true, s).value.rest == rest
      && ParseUnsigned(false, s).Some? && ParseUnsigned(false, s).value.rest == rest
  {
    var i := WholeLength(s);
    var j := FractionLength(s[i..]);
    var k := ExponentLength(s[i + j..]);
    w, f, e, rest := s[..i], s[i..][..j], s[i + j..][..k], s[i + j + k..];
    OfLengths(true, s, i, j, k);
    OfLengths(false, s, i, j, k);
    Rejoined(s, i, j, k);
  }

  lemma Rejoined(s: string, i: nat, j: nat, k: nat)
    requires i + j + k <= |s|
    ensures s == s[..i] + (s[i..][..j] + (s[i + j..][..k] + s[i + j + k..]))
  {
  }

  lemma MoreText(w: string, f: string, e: string, rest: string, x: string)
    ensures w + (f + (e + rest)) + x == w + (f + (e + (rest + x)))
  {
  }

  /** A value is read the same way whatever text is added, except that a number must have ended. */
  lemma {:induction false} ParseValueAppend(s: string, x: string)
    requires ParseValue(s).Some?
    requires IsNumber(ParseValue(s).value.value) ==>
            ParseValue(s).value.rest != "" && EndsNumber(ParseValue(s).value.rest)
    ensures ParseValue(s + x) == Some(Parsed(ParseValue(s).value.value, ParseValue(s).value.rest + x))
    decreases |s|, 1
  {
    if s[0] == '"' {
      assert (s + x)[0] == s[0] && (s + x)[1..] == s[1..] + x;
      ParseStringAppend(s[1..], x);
    } else if s[0] == '{' {
      BraceAppend(s, x);
    } else if s[0] == '[' {
      BracketAppend(s, x);
    } else if IsWord(ParseValue(s).value.value) {
      WordAppend(s, x);
    } else {
      ReadsNumber(s);
      ReadsNumberAppend(s, x);
    }
  }

  lemma ReadsNumber(s: string)
    requires ParseValue(s).Some? && s[0] != '"' && s[0] != '{' && s[0] != '[' && !IsWord(ParseValue(s).value.value)
    ensures ParseValue(s) == ParseNumber(s)
    ensures IsDigit(s[0]) || (s[0] == '-' && |s| >= 2 && IsDigit(s[1]))
  {
    SecondIsDigit(s);
  }

  lemma ReadsNumberAppend(s: string, x: string)
    requires s != "" && (IsDigit(s[0]) || (s[0] == '-' && |s| >= 2 && IsDigit(s[1])))
    requires ParseNumber(s).Some? && ParseNumber(s).value.rest != "" && EndsNumber(ParseNumber(s).value.rest)
    ensures ParseValue(s + x) == Some(Parsed(ParseNumber(s).value.value, ParseNumber(s).value.rest + x))
  {
    assert (s + x)[0] == s[0] && (s + x)[1..] == s[1..] + x;
    ReadAsNumber(s + x);
    if s[0] == '-' {
      ParseUnsignedAppend(true, s[1..], x);
    } else {
      ParseUnsignedAppend(false, s, x);
    }
  }

  lemma {:induction false} BraceAppend(s: string, x: string)
    requires s != "" && s[0] == '{' && ParseValue(s).Some?
    ensures ParseValue(s + x) == Some(Parsed(ParseValue(s).value.value, ParseValue(s).value.rest + x))
    decreases |s|, 0
  {
    assert (s + x)[0] == s[0] && (s + x)[1..] == s[1..] + x;
    var u := SkipSpace(s[1..]);
    SkipSpaceAppend(s[1..], x);
    if StartsWith(u, '}') {
      assert (u + x)[1..] == u[1..] + x;
    } else {
      ParseMembersAppend(u, x);
      assert (u + x)[0] == u[0];
    }
  }

  lemma {:induction false} BracketAppend(s: string, x: string)
    requires s != "" && s[0] == '[' && ParseValue(s).Some?
    ensures ParseValue(s + x) == Some(Parsed(ParseValue(s).value.value, ParseValue(s).value.rest + x))
    decreases |s|, 0
  {
    assert (s + x)[0] == s[0] && (s + x)[1..] == s[1..] + x;
    var u := SkipSpace(s[1..]);
    SkipSpaceAppend(s[1..], x);
    if StartsWith(u, ']') {
      assert (u + x)[1..] == u[1..] + x;
    } else {
      ParseItemsAppend(u, x);
      assert (u + x)[0] == u[0];
    }
  }

  lemma WordAppend(s: string, x: string)
    requires ParseValue(s).Some? && IsWord(ParseValue(s).value.value)
    ensures ParseValue(s + x) == Some(Parsed(ParseValue(s).value.value, ParseValue(s).value.rest + x))
  {
    var v := ParseValue(s).value.value;
    StartsWithWord(s);
    assert (s + x)[|Print(v)|..] == s[|Print(v)|..] + x;
    LiteralRoundTrip(v, s[|Print(v)|..] + x);
    Associate(Print(v), s[|Print(v)|..], x);
  }

  lemma StartsWithWord(s: string)
    requires ParseValue(s).Some? && IsWord(ParseValue(s).value.value)
    ensures
      var r := ParseValue(s).value;
      Print(r.value) <= s && r.rest == s[|Print(r.value)|..] && s == Print(r.value) + r.rest
  {
    hide ParseNumber, ParseWord, ParseString, ParseItems, ParseMembers;
    WordText(s);
  }

  lemma WordText(s: string)
    requires ParseWord(s).Some?
    ensures
      var r := ParseWord(s).value;
      Print(r.value) <= s && r.rest == s[|Print(r.value)|..] && s == Print(r.value) + r.rest
  {
  }

  /** A number in a list or an object has ended where its separator follows. */
  lemma FollowedWell(rest: string)
    requires SkipSpace(rest) != "" && SkipSpace(rest)[0] in {',', ']', '}'}
    ensures rest != "" && EndsNumber(rest)
  {
    if !IsJsonSpace(rest[0]) {
      assert SkipSpace(rest) == rest;
    }
  }

  lemma {:induction false} ParseItemsAppend(s: string, x: string)
    requires ParseItems(s).Some?
    ensures ParseItems(s + x) == Some(Parsed(ParseItems(s).value.value, ParseItems(s).value.rest + x))
    decreases |s|, 2
  {
    hide ParseValue, ParseMembers;
    var v := ParseValue(s).value;
    var t := SkipSpace(v.rest);
    FollowedWell(v.rest);
    ParseValueAppend(s, x);
    SkipSpaceAppend(v.rest, x);
    assert (t + x)[0] == t[0] && (t + x)[1..] == t[1..] + x;
    if !StartsWith(t, ']') {
      SkipSpaceAppend(t[1..], x);
      ParseItemsAppend(SkipSpace(t[1..]), x);
    }
  }

  lemma {:induction false} ParseMemberAppend(s: string, x: string)
    requires ParseMember(s).Some? && ParseMember(s).value.rest != "" && EndsNumber(ParseMember(s).value.rest)
    ensures ParseMember(s + x) == Some(Parsed(ParseMember(s).value.value, ParseMember(s).value.rest + x))
    decreases |s|, 2
  {
    hide ParseValue;
    assert (s + x)[0] == s[0] && (s + x)[1..] == s[1..] + x;
    ParseStringAppend(s[1..], x);
    var k := ParseString(s[1..]).value;
    SkipSpaceAppend(k.rest, x);
    var t := SkipSpace(k.rest);
    assert (t + x)[0] == t[0] && (t + x)[1..] == t[1..] + x;
    SkipSpaceAppend(t[1..], x);
    ParseValueAppend(SkipSpace(t[1..]), x);
  }

  lemma {:induction false} ParseMembersAppend(s: string, x: string)
    requires ParseMembers(s).Some?
    ensures ParseMembers(s + x) == Some(Parsed(ParseMembers(s).value.value, ParseMembers(s).value.rest + x))
    decreases |s|, 3
  {
    hide ParseMember, ParseValue;
    var m := ParseMember(s).value;
    var t := SkipSpace(m.rest);
    FollowedWell(m.rest);
    ParseMemberAppend(s, x);
    AfterSpace(m.rest, x);
    if !StartsWith(t, '}') {
      var next := SkipSpace(t[1..]);
      SkipSpaceAppend(t[1..], x);
      ParseMembersAppend(next, x);
      assert ParseMembers(s + x).Some?;
    }
  }

  /** No proper beginning of a printed object can be read as an object. */
  lemma ObjectHasNoShorterReading(v: Json, n: nat)
    requires WellFormed(v) && v.Obj? && n < |Print(v)|
    ensures Loads(Print(v)[..n]).None? || !Loads(Print(v)[..n]).value.Obj?
  {
    var text := Print(v);
    var p, x := text[..n], text[n..];
    assert p + x == text && p <= text && text[0] == '{';
    ValueRoundTrip(v, "");
    assert text + "" == text;
    if Loads(p).Some? && Loads(p).value.Obj? {
      SkipSpaceFirst(p, text);
      ParseValueAppend(p, x);
    }
  }

  lemma SkipSpaceFirst(p: string, text: string)
    requires SkipSpace(p) != "" && p <= text && text != "" && !IsJsonSpace(text[0])
    ensures SkipSpace(p) == p
  {
    assert p[0] == text[0];
  }
}
