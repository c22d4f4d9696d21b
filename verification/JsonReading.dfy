/** The reader accepts nothing but the texts of the grammar: whatever it reads can be taken apart into one. */
module JsonReading {
  import opened Basics
  import opened Decimal
  import opened Json
  import opened JsonLaws
  import opened JsonGrammar

  lemma {:induction false} SkippedGap(s: string) returns (gap: string)
    ensures IsGap(gap) && s == gap + SkipSpace(s)
  {
    if s != "" && IsJsonSpace(s[0]) {
      var more := SkippedGap(s[1..]);
      gap := [s[0]] + more;
      assert s == [s[0]] + s[1..];
      Associate([s[0]], more, SkipSpace(s));
    } else {
      gap := "";
    }
  }

  // ----- Strings

  lemma DigitOf(c: char) returns (d: HexDigit)
    requires HexValue(c).Some?
    ensures d.value == HexValue(c).value < 16 && Glyph(d) == c
  {
    d := HexDigit(HexValue(c).value, 'A' <= c <= 'F');
  }

  lemma UnitIsEscaped(s: string) returns (ds: seq<HexDigit>)
    requires CodeUnit(s).Some?
    ensures IsFour(ds) && Code(ds) == CodeUnit(s).value && s == Escaped(ds, s[6..])
  {
    hide HexValue, Glyph;
    var a := DigitOf(s[2]);
    var b := DigitOf(s[3]);
    var c := DigitOf(s[4]);
    var d := DigitOf(s[5]);
    ds := [a, b, c, d];
    assert s == s[..6] + s[6..];
    assert s[..6] == ['\\', 'u', Glyph(a), Glyph(b), Glyph(c), Glyph(d)];
  }

  lemma UnitsAreSpelled(s: string) returns (sp: Spelling)
    requires ParseUnits(s).Some?
    ensures Proper(sp) && Meant(sp) == ParseUnits(s).value.value && Spell(sp, ParseUnits(s).value.rest) == s
    ensures Unpaired(sp, ParseUnits(s).value.rest)
  {
    hide CodeUnit, HexValue, Glyph, Escaped;
    var ds := UnitIsEscaped(s);
    var code := CodeUnit(s).value;
    if IsHigh(code) && CodeUnit(s[6..]).Some? && IsLow(CodeUnit(s[6..]).value) {
      var low := UnitIsEscaped(s[6..]);
      assert s[12..] == s[6..][6..];
      sp := Pair(ds, low);
    } else if IsHigh(code) || IsLow(code) {
      sp := Lone(ds);
    } else {
      sp := Unit(ds);
    }
  }

  lemma CharIsSpelled(s: string) returns (sp: Spelling)
    requires s != "" && s[0] != '"' && ParseChar(s).Some?
    ensures Proper(sp) && Meant(sp) == ParseChar(s).value.value && Spell(sp, ParseChar(s).value.rest) == s
    ensures Unpaired(sp, ParseChar(s).value.rest)
  {
    hide ParseUnits, CodeUnit;
    if s[0] != '\\' {
      sp := Plain(s[0]);
    } else if Unescape(s[1]).Some? {
      sp := Short(s[1]);
      assert '\n' == 10 as char && '\r' == 13 as char && '\t' == 9 as char;
      assert s == [s[0], s[1]] + s[2..];
    } else {
      sp := UnitsAreSpelled(s);
    }
  }

  lemma PartnersArePaired(s: Spelling, t: Spelling, rest: string)
    requires Proper(s) && Proper(t) && ArePartners(s, t)
    ensures !Unpaired(s, Spell(t, rest))
  {
    EscapedIsRead(t.digits, rest);
  }

  lemma {:induction false} StringIsSpelled(s: string) returns (cs: seq<Spelling>)
    requires ParseString(s).Some?
    ensures AllProper(cs) && MeantAll(cs) == ParseString(s).value.value && SpellAll(cs, ParseString(s).value.rest) == s
    decreases |s|
  {
    hide ParseChar, Spell, Meant, Unpaired, ArePartners;
    if s[0] == '"' {
      cs := [];
    } else {
      var sp := CharIsSpelled(s);
      var more := StringIsSpelled(ParseChar(s).value.rest);
      var rest := ParseString(s).value.rest;
      if more != [] && ArePartners(sp, more[0]) {
        PartnersArePaired(sp, more[0], SpellAll(more[1..], rest));
      }
      cs := [sp] + more;
      assert cs[1..] == more;
    }
  }

  // ----- Numbers and words

  lemma FractionOf(f: string) returns (fraction: Option<string>)
    requires IsFraction(f)
    ensures FractionText(fraction) == f && (fraction.Some? ==> OnlyDigits(fraction.value))
  {
    fraction := if f == "" then None else Some(f[1..]);
  }

  lemma Signed(capital: bool, sign: Option<bool>, digits: string)
    ensures
      var signText := if sign.None? then "" else if sign.value then "+" else "-";
      ExponentText(Some(Exponent(capital, sign, digits))) == (if capital then "E" else "e") + (signText + digits)
  {
  }

  lemma ExponentOf(e: string) returns (exponent: Option<Exponent>)
    requires IsExponent(e)
    ensures ExponentText(exponent) == e && (exponent.Some? ==> OnlyDigits(exponent.value.digits))
  {
    if e == "" {
      exponent := None;
    } else {
      hide ExponentText;
      var d := e[1..];
      assert e == (if e[0] == 'E' then "E" else "e") + d;
      if d[0] == '+' || d[0] == '-' {
        exponent := Some(Exponent(e[0] == 'E', Some(d[0] == '+'), d[1..]));
        Signed(e[0] == 'E', Some(d[0] == '+'), d[1..]);
        assert d == (if d[0] == '+' then "+" else "-") + d[1..];
      } else {
        exponent := Some(Exponent(e[0] == 'E', None, d));
        Signed(e[0] == 'E', None, d);
        assert "" + d == d;
      }
    }
  }

  lemma MadeOfParts(n: Numeral, w: string, f: string, e: string)
    requires IsNumeral(n) && IsWhole(w) && IsFraction(f) && IsExponent(e)
    requires n.whole == w && FractionText(n.fraction) == f && ExponentText(n.exponent) == e
    ensures NumeralMeant(n) == Written(n.negative, w, f, e)
  {
    hide FractionText, ExponentText;
    NumeralParts(n);
  }

  lemma UnsignedIsNumeral(negative: bool, s: string) returns (n: Numeral)
    requires ParseUnsigned(negative, s).Some?
    ensures IsNumeral(n) && n.negative == negative && NumeralMeant(n) == ParseUnsigned(negative, s).value.value
    ensures
      var rest := ParseUnsigned(negative, s).value.rest;
      s == n.whole + (FractionText(n.fraction) + (ExponentText(n.exponent) + rest))
  {
    hide WholeLength, FractionLength, ExponentLength, Written, NumeralMeant, FractionText, ExponentText,
      IsFraction, IsExponent;
    var i := WholeLength(s);
    var j := FractionLength(s[i..]);
    var k := ExponentLength(s[i + j..]);
    var w, f, e := s[..i], s[i..][..j], s[i + j..][..k];
    var fraction := FractionOf(f);
    var exponent := ExponentOf(e);
    n := Numeral(negative, w, fraction, exponent);
    MadeOfParts(n, w, f, e);
    Rejoined(s, i, j, k);
  }

  lemma NumberIsNumeral(s: string) returns (n: Numeral)
    requires s != "" && ParseNumber(s).Some?
    ensures IsNumeral(n) && NumeralMeant(n) == ParseNumber(s).value.value
    ensures NumeralText(n, ParseNumber(s).value.rest) == s
  {
    hide ParseUnsigned, NumeralMeant, FractionText, ExponentText;
    n := UnsignedIsNumeral(s[0] == '-', if s[0] == '-' then s[1..] else s);
    assert s[0] == '-' ==> s == "-" + s[1..];
  }

  lemma WordIsWord(s: string)
    requires ParseWord(s).Some?
    ensures
      var r := ParseWord(s).value;
      (r.value.Null? || r.value.Bool? || r.value.NaN? || r.value.Infinity?) && LiteralText(r.value) + r.rest == s
  {
  }

  // ----- Values

  /** The reader's result is that of the text. */
  ghost predicate TextOf(d: Doc, s: string, v: Json, rest: string) {
    Valid(d) && Means(d) == v && Write(d, rest) == s
  }

  ghost predicate ItemsOf(items: seq<Item>, s: string, vs: seq<Json>, rest: string) {
    && items != [] && (forall i :: 0 <= i < |items| ==> ValidItem(items[i]))
    && MeanItems(items) == vs && WriteItems(items, "]" + rest) == s
  }

  ghost predicate EntriesOf(entries: seq<Entry>, s: string, ms: seq<Member>, rest: string) {
    && entries != [] && (forall i :: 0 <= i < |entries| ==> ValidEntry(entries[i]))
    && MeanEntries(entries) == ms && WriteEntries(entries, "}" + rest) == s
  }

  lemma PutItemGap(gap: string, items: seq<Item>, s: string, vs: seq<Json>, rest: string) returns (r: seq<Item>)
    requires IsGap(gap) && ItemsOf(items, s, vs, rest)
    ensures ItemsOf(r, gap + s, vs, rest)
  {
    hide Write, Means;
    var first := items[0];
    assert ValidItem(first);
    r := [first.(before := gap + first.before)] + items[1..];
    assert r[1..] == items[1..];
    assert forall i :: 0 < i < |r| ==> r[i] == items[i];
    var tail := if |items| == 1 then "]" + rest else "," + WriteItems(items[1..], "]" + rest);
    Associate(gap, first.before, Write(first.doc, first.after + tail));
  }

  lemma PutEntryGap(gap: string, entries: seq<Entry>, s: string, ms: seq<Member>, rest: string) returns (r: seq<Entry>)
    requires IsGap(gap) && EntriesOf(entries, s, ms, rest)
    ensures EntriesOf(r, gap + s, ms, rest)
  {
    hide Write, Means, SpellAll, MeantAll;
    var e := entries[0];
    assert ValidEntry(e);
    r := [e.(before := gap + e.before)] + entries[1..];
    assert r[1..] == entries[1..];
    assert forall i :: 0 < i < |r| ==> r[i] == entries[i];
    var tail := if |entries| == 1 then "}" + rest else "," + WriteEntries(entries[1..], "}" + rest);
    Associate(gap, e.before,
              "\"" + SpellAll(e.key, e.beforeColon + (":" + (e.afterColon + Write(e.doc, e.after + tail)))));
  }

  lemma ListOf(s: string, items: seq<Item>, vs: seq<Json>, rest: string) returns (d: Doc)
    requires s != "" && s[0] == '[' && ItemsOf(items, s[1..], vs, rest)
    ensures TextOf(d, s, Arr(vs), rest)
  {
    d := List("", items);
    assert forall i :: 0 <= i < |items| ==> ValidItem(items[i]);
    assert s == "[" + s[1..];
  }

  lemma RecordOf(s: string, entries: seq<Entry>, ms: seq<Member>, rest: string) returns (d: Doc)
    requires s != "" && s[0] == '{' && EntriesOf(entries, s[1..], ms, rest)
    ensures TextOf(d, s, Obj(Dictionary(ms)), rest)
  {
    d := Record("", entries);
    assert forall i :: 0 <= i < |entries| ==> ValidEntry(entries[i]);
    assert s == "{" + s[1..];
  }

  lemma NothingInside(s: string, close: char) returns (gap: string)
    requires s != "" && StartsWith(SkipSpace(s[1..]), close)
    ensures IsGap(gap) && s == [s[0]] + (gap + ([close] + SkipSpace(s[1..])[1..]))
  {
    gap := SkippedGap(s[1..]);
    var t := SkipSpace(s[1..]);
    assert t == [close] + t[1..];
    assert s == [s[0]] + s[1..];
  }

  lemma {:induction false} ValueIsText(s: string) returns (d: Doc)
    requires ParseValue(s).Some?
    ensures TextOf(d, s, ParseValue(s).value.value, ParseValue(s).value.rest)
    decreases |s|, 1
  {
    hide ParseItems, ParseMembers, ParseNumber, ParseWord, ParseString, ItemsOf, EntriesOf, Dictionary;
    if s[0] == '"' {
      var cs := StringIsSpelled(s[1..]);
      d := Text(cs);
      assert s == "\"" + s[1..];
    } else if s[0] == '{' {
      d := BraceIsText(s);
    } else if s[0] == '[' {
      d := BracketIsText(s);
    } else if ParseWord(s).Some? {
      WordIsWord(s);
      d := Word(ParseWord(s).value.value);
    } else {
      var n := NumberIsNumeral(s);
      d := Number(n);
    }
  }

  lemma {:induction false} BracketIsText(s: string) returns (d: Doc)
    requires ParseValue(s).Some? && s[0] == '['
    ensures TextOf(d, s, ParseValue(s).value.value, ParseValue(s).value.rest)
    decreases |s|, 0
  {
    hide ParseItems, ItemsOf;
    var t := SkipSpace(s[1..]);
    if StartsWith(t, ']') {
      var gap := NothingInside(s, ']');
      d := List(gap, []);
      assert MeanItems([]) == [];
      assert Means(d) == Arr([]);
    } else {
      var gap := SkippedGap(s[1..]);
      var items := ItemsAreTexts(t);
      items := PutItemGap(gap, items, t, ParseItems(t).value.value, ParseItems(t).value.rest);
      d := ListOf(s, items, ParseItems(t).value.value, ParseItems(t).value.rest);
    }
  }

  lemma {:induction false} BraceIsText(s: string) returns (d: Doc)
    requires ParseValue(s).Some? && s[0] == '{'
    ensures TextOf(d, s, ParseValue(s).value.value, ParseValue(s).value.rest)
    decreases |s|, 0
  {
    hide ParseMembers, EntriesOf, Dictionary;
    var t := SkipSpace(s[1..]);
    if StartsWith(t, '}') {
      var gap := NothingInside(s, '}');
      d := Record(gap, []);
      NoMembers();
      assert MeanEntries([]) == [];
      assert Means(d) == Obj([]);
    } else {
      var gap := SkippedGap(s[1..]);
      var entries := EntriesAreTexts(t);
      entries := PutEntryGap(gap, entries, t, ParseMembers(t).value.value, ParseMembers(t).value.rest);
      d := RecordOf(s, entries, ParseMembers(t).value.value, ParseMembers(t).value.rest);
    }
  }

  lemma OnlyItem(s: string, d: Doc, v: Json, gap: string, rest: string) returns (items: seq<Item>)
    requires IsGap(gap) && TextOf(d, s, v, gap + ("]" + rest))
    ensures ItemsOf(items, s, [v], rest)
  {
    hide Write, Means;
    items := [Item("", d, gap)];
    assert MeanItems(items[1..]) == [];
    assert "" + s == s;
  }

  lemma AnotherItem(s: string, d: Doc, v: Json, gap: string, items: seq<Item>, next: string, vs: seq<Json>,
                    rest: string)
    returns (r: seq<Item>)
    requires IsGap(gap) && TextOf(d, s, v, gap + ("," + next)) && ItemsOf(items, next, vs, rest)
    ensures ItemsOf(r, s, [v] + vs, rest)
  {
    hide Write, Means;
    r := [Item("", d, gap)] + items;
    assert r[1..] == items;
    assert forall i :: 0 < i < |r| ==> r[i] == items[i - 1];
    assert "" + s == s;
  }

  lemma {:induction false} ItemsAreTexts(s: string) returns (items: seq<Item>)
    requires ParseItems(s).Some?
    ensures ItemsOf(items, s, ParseItems(s).value.value, ParseItems(s).value.rest)
    decreases |s|, 2
  {
    hide ParseValue, ItemsOf, TextOf;
    var d := ValueIsText(s);
    var v := ParseValue(s).value;
    var gap := SkippedGap(v.rest);
    var t := SkipSpace(v.rest);
    assert t == [t[0]] + t[1..];
    if StartsWith(t, ']') {
      items := OnlyItem(s, d, v.value, gap, t[1..]);
    } else {
      var next := SkipSpace(t[1..]);
      var between := SkippedGap(t[1..]);
      var more := ItemsAreTexts(next);
      var r := ParseItems(next).value;
      more := PutItemGap(between, more, next, r.value, r.rest);
      items := AnotherItem(s, d, v.value, gap, more, t[1..], r.value, r.rest);
    }
  }

  /** One member, with the gaps around its colon. */
  ghost predicate EntryOf(e: Entry, s: string, m: Member, after: string) {
    && e.before == "" && e.after == "" && ValidEntry(e) && Member(MeantAll(e.key), Means(e.doc)) == m
    && s == "\"" + SpellAll(e.key, e.beforeColon + (":" + (e.afterColon + Write(e.doc, after))))
  }

  lemma {:induction false} MemberIsEntry(s: string) returns (e: Entry)
    requires ParseMember(s).Some?
    ensures EntryOf(e, s, ParseMember(s).value.value, ParseMember(s).value.rest)
    decreases |s|, 2
  {
    hide ParseValue, ParseString, SpellAll, MeantAll, Write, Means;
    var key := StringIsSpelled(s[1..]);
    var k := ParseString(s[1..]).value.rest;
    var beforeColon := SkippedGap(k);
    var t := SkipSpace(k);
    assert t == ":" + t[1..] && s == "\"" + s[1..];
    var afterColon := SkippedGap(t[1..]);
    var d := ValueIsText(SkipSpace(t[1..]));
    e := Entry("", key, beforeColon, afterColon, d, "");
  }

  lemma OnlyEntry(s: string, e: Entry, m: Member, gap: string, rest: string) returns (entries: seq<Entry>)
    requires IsGap(gap) && EntryOf(e, s, m, gap + ("}" + rest))
    ensures EntriesOf(entries, s, [m], rest)
  {
    hide Write, Means, SpellAll, MeantAll;
    var only := e.(after := gap);
    assert ValidEntry(only);
    entries := [only];
    assert MeanEntries(entries[1..]) == [];
    assert "" + s == s;
  }

  lemma AnotherEntry(s: string, e: Entry, m: Member, gap: string, entries: seq<Entry>, next: string, ms: seq<Member>,
                     rest: string)
    returns (r: seq<Entry>)
    requires IsGap(gap) && EntryOf(e, s, m, gap + ("," + next)) && EntriesOf(entries, next, ms, rest)
    ensures EntriesOf(r, s, [m] + ms, rest)
  {
    hide Write, Means, SpellAll, MeantAll;
    var first := e.(after := gap);
    assert ValidEntry(first);
    r := [first] + entries;
    assert r[1..] == entries;
    assert forall i :: 0 < i < |r| ==> r[i] == entries[i - 1];
    assert "" + s == s;
  }

  lemma {:induction false} EntriesAreTexts(s: string) returns (entries: seq<Entry>)
    requires ParseMembers(s).Some?
    ensures EntriesOf(entries, s, ParseMembers(s).value.value, ParseMembers(s).value.rest)
    decreases |s|, 3
  {
    hide ParseMember, EntriesOf, EntryOf;
    var e := MemberIsEntry(s);
    var m := ParseMember(s).value;
    var gap := SkippedGap(m.rest);
    var t := SkipSpace(m.rest);
    assert t == [t[0]] + t[1..];
    if StartsWith(t, '}') {
      entries := OnlyEntry(s, e, m.value, gap, t[1..]);
    } else {
      var next := SkipSpace(t[1..]);
      var between := SkippedGap(t[1..]);
      var more := EntriesAreTexts(next);
      var r := ParseMembers(next).value;
      more := PutEntryGap(between, more, next, r.value, r.rest);
      entries := AnotherEntry(s, e, m.value, gap, more, t[1..], r.value, r.rest);
    }
  }

  // ----- Both directions

  /** The string is a text of the grammar with the given meaning, with space around it. */
  ghost predicate IsTextFor(s: string, v: Json) {
    exists before, d, after ::
      IsGap(before) && IsGap(after) && Valid(d) && Means(d) == v && s == before + Write(d, after)
  }

  /** A string is read as a value exactly when it is a text of the grammar that means this value. */
  lemma LoadsExactly(s: string, v: Json)
    ensures Loads(s) == Some(v) <==> IsTextFor(s, v)
  {
    if Loads(s) == Some(v) {
      var before := SkippedGap(s);
      var t := SkipSpace(s);
      var d := ValueIsText(t);
      var after := SkippedGap(ParseValue(t).value.rest);
      assert after + "" == after;
    }
    if before, d, after :|
        IsGap(before) && IsGap(after) && Valid(d) && Means(d) == v && s == before + Write(d, after) {
      LoadsReadsEveryText(before, d, after);
    }
  }
}
