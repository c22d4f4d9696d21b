/**
  The grammar of JSON texts (RFC 8259, with the three words that Python adds), written down independently of the
  reader: every text of it is read as what it means, however it is spaced and escaped.
 */
module JsonGrammar {
  import opened Basics
  import opened Decimal
  import opened Json
  import opened JsonLaws

  // ----- Characters of a string

  datatype HexDigit = HexDigit(value: nat, upper: bool)

  /** One way of writing a character: as it is, by a letter after a backslash, by its code unit, or by the two
      code units of a surrogate pair.  A surrogate without a partner stands for no character of its own. */
  datatype Spelling =
    | Plain(c: char)
    | Short(letter: char)
    | Unit(digits: seq<HexDigit>)
    | Pair(high: seq<HexDigit>, low: seq<HexDigit>)
    | Lone(digits: seq<HexDigit>)

  predicate IsFour(ds: seq<HexDigit>) {
    |ds| == 4 && forall i :: 0 <= i < 4 ==> ds[i].value < 16
  }

  function Code(ds: seq<HexDigit>): nat
    requires IsFour(ds)
  {
    ds[0].value * 4096 + ds[1].value * 256 + ds[2].value * 16 + ds[3].value
  }

  function Glyph(d: HexDigit): char
    requires d.value < 16
  {
    if d.upper then "0123456789ABCDEF"[d.value] else "0123456789abcdef"[d.value]
  }

  predicate Proper(s: Spelling) {
    match s
    case Plain(c) => c >= ' ' && c != '"' && c != '\\'
    case Short(l) => l == '"' || l == '\\' || l == '/' || l == 'b' || l == 'f' || l == 'n' || l == 'r' || l == 't'
    case Unit(ds) => IsFour(ds) && (Code(ds) < 0xD800 || Code(ds) >= 0xE000)
    case Pair(h, l) => IsFour(h) && IsFour(l) && 0xD800 <= Code(h) < 0xDC00 && 0xDC00 <= Code(l) < 0xE000
    case Lone(ds) => IsFour(ds) && 0xD800 <= Code(ds) < 0xE000
  }

  /** The first of the two is a high surrogate and the second a low one, so that they make a pair. */
  predicate ArePartners(s: Spelling, t: Spelling)
    requires Proper(s) && Proper(t)
  {
    s.Lone? && t.Lone? && Code(s.digits) < 0xDC00 <= Code(t.digits)
  }

  predicate AllProper(cs: seq<Spelling>) {
    && (forall i :: 0 <= i < |cs| ==> Proper(cs[i]))
    && (forall i :: 0 <= i < |cs| - 1 ==> !ArePartners(cs[i], cs[i + 1]))
  }

  /** The spelling, followed by the rest of the text. */
  function Spell(s: Spelling, rest: string): string
    requires Proper(s)
  {
    match s
    case Plain(c) => [c] + rest
    case Short(l) => ['\\', l] + rest
    case Unit(ds) => Escaped(ds, rest)
    case Pair(h, l) => Escaped(h, Escaped(l, rest))
    case Lone(ds) => Escaped(ds, rest)
  }

  function Escaped(ds: seq<HexDigit>, rest: string): string
    requires IsFour(ds)
  {
    ['\\', 'u', Glyph(ds[0]), Glyph(ds[1]), Glyph(ds[2]), Glyph(ds[3])] + rest
  }

  function Meant(s: Spelling): char
    requires Proper(s)
  {
    match s
    case Plain(c) => c
    case Short(l) =>
      if l == 'b' then 8 as char else if l == 't' then 9 as char else if l == 'n' then 10 as char
      else if l == 'f' then 12 as char else if l == 'r' then 13 as char else l
    case Unit(ds) => Code(ds) as char
    case Pair(h, l) => (0x10000 + (Code(h) - 0xD800) * 1024 + (Code(l) - 0xDC00)) as char
    case Lone(_) => '\U{FFFD}'
  }

  lemma GlyphIsRead(d: HexDigit)
    requires d.value < 16
    ensures HexValue(Glyph(d)) == Some(d.value)
  {
  }

  lemma EscapedIsRead(ds: seq<HexDigit>, rest: string)
    requires IsFour(ds)
    ensures CodeUnit(Escaped(ds, rest)) == Some(Code(ds)) && Escaped(ds, rest)[6..] == rest
  {
    hide HexValue, Glyph;
    GlyphIsRead(ds[0]);
    GlyphIsRead(ds[1]);
    GlyphIsRead(ds[2]);
    GlyphIsRead(ds[3]);
  }

  /** What follows a high surrogate on its own is not a low one. */
  predicate Unpaired(s: Spelling, rest: string)
    requires Proper(s)
  {
    s.Lone? && Code(s.digits) < 0xDC00 ==> CodeUnit(rest).None? || !IsLow(CodeUnit(rest).value)
  }

  lemma SpellingIsRead(s: Spelling, rest: string)
    requires Proper(s) && Unpaired(s, rest)
    ensures Spell(s, rest) != "" && Spell(s, rest)[0] != '"'
    ensures ParseChar(Spell(s, rest)) == Some(Parsed(Meant(s), rest))
  {
    hide CodeUnit, HexValue, Glyph;
    var text := Spell(s, rest);
    match s {
      case Plain(_) => assert text[1..] == rest;
      case Short(l) =>
        assert '\n' == 10 as char && '\r' == 13 as char && '\t' == 9 as char;
        assert text[2..] == rest;
      case Unit(ds) => EscapedIsRead(ds, rest);
      case Pair(h, l) =>
        EscapedIsRead(h, Escaped(l, rest));
        EscapedIsRead(l, rest);
        assert text[12..] == text[6..][6..];
      case Lone(ds) => EscapedIsRead(ds, rest);
    }
  }

  /** A string after its opening quote. */
  function SpellAll(cs: seq<Spelling>, rest: string): string
    requires AllProper(cs)
  {
    if cs == [] then "\"" + rest else Spell(cs[0], SpellAll(cs[1..], rest))
  }

  function MeantAll(cs: seq<Spelling>): string
    requires AllProper(cs)
  {
    if cs == [] then "" else [Meant(cs[0])] + MeantAll(cs[1..])
  }

  lemma UnitOf(s: Spelling, rest: string)
    requires Proper(s)
    ensures CodeUnit(Spell(s, rest)).Some? && IsLow(CodeUnit(Spell(s, rest)).value) ==>
              s.Lone? && Code(s.digits) >= 0xDC00
  {
    hide HexValue, Glyph;
    match s {
      case Plain(_) =>
      case Short(l) => assert Spell(s, rest)[1] == l;
      case Unit(ds) => EscapedIsRead(ds, rest);
      case Pair(h, l) => EscapedIsRead(h, Escaped(l, rest));
      case Lone(ds) => EscapedIsRead(ds, rest);
    }
  }

  lemma NextIsNoPartner(cs: seq<Spelling>, rest: string)
    requires cs != [] && AllProper(cs)
    ensures Unpaired(cs[0], SpellAll(cs[1..], rest))
  {
    hide Spell, CodeUnit;
    if |cs| == 1 {
      QuoteIsNoUnit(rest);
      assert SpellAll(cs[1..], rest) == "\"" + rest;
    } else {
      assert !ArePartners(cs[0], cs[1]);
      UnitOf(cs[1], SpellAll(cs[2..], rest));
      assert cs[1..][0] == cs[1] && cs[1..][1..] == cs[2..];
    }
  }

  lemma QuoteIsNoUnit(rest: string)
    ensures CodeUnit("\"" + rest).None?
  {
  }

  lemma {:induction false} StringIsRead(cs: seq<Spelling>, rest: string)
    requires AllProper(cs)
    ensures ParseString(SpellAll(cs, rest)) == Some(Parsed(MeantAll(cs), rest))
  {
    hide ParseChar, Spell, Meant, Unpaired;
    if cs == [] {
      assert SpellAll(cs, rest)[1..] == rest;
    } else {
      NextIsNoPartner(cs, rest);
      SpellingIsRead(cs[0], SpellAll(cs[1..], rest));
      StringIsRead(cs[1..], rest);
    }
  }

  // ----- Numbers

  /** The sign, the digits in front, those after a point, and an exponent. */
  datatype Numeral = Numeral(negative: bool, whole: string, fraction: Option<string>, exponent: Option<Exponent>)

  datatype Exponent = Exponent(capital: bool, sign: Option<bool>, digits: string)

  predicate OnlyDigits(s: string) {
    s != "" && forall i :: 0 <= i < |s| ==> '0' <= s[i] <= '9'
  }

  /** No leading zero, and digits wherever there is a point or an exponent. */
  predicate IsNumeral(n: Numeral) {
    && OnlyDigits(n.whole) && (|n.whole| > 1 ==> n.whole[0] != '0')
    && (n.fraction.Some? ==> OnlyDigits(n.fraction.value))
    && (n.exponent.Some? ==> OnlyDigits(n.exponent.value.digits))
  }

  function FractionText(fraction: Option<string>): string {
    if fraction.None? then "" else "." + fraction.value
  }

  function ExponentText(exponent: Option<Exponent>): string {
    match exponent
    case None => ""
    case Some(e) =>
      (if e.capital then "E" else "e")
      + ((if e.sign.None? then "" else if e.sign.value then "+" else "-") + e.digits)
  }

  function NumeralText(n: Numeral, rest: string): string {
    var text := n.whole + (FractionText(n.fraction) + (ExponentText(n.exponent) + rest));
    if n.negative then "-" + text else text
  }

  /** An integer, or the parts as they are written. */
  function NumeralMeant(n: Numeral): Json
    requires IsNumeral(n)
  {
    NumeralParts(n);
    if n.fraction.None? && n.exponent.None? then
      var value: int := ValueOf(n.whole);
      Num(if n.negative then -value else value)
    else Real(FloatParts(n.negative, n.whole, FractionText(n.fraction), ExponentText(n.exponent)))
  }

  lemma NumeralParts(n: Numeral)
    requires IsNumeral(n)
    ensures IsWhole(n.whole) && IsFraction(FractionText(n.fraction)) && IsExponent(ExponentText(n.exponent))
    ensures FractionText(n.fraction) + ExponentText(n.exponent) == "" <==> n.fraction.None? && n.exponent.None?
  {
    if n.fraction.Some? {
      assert FractionText(n.fraction)[1..] == n.fraction.value;
    }
    if n.exponent.Some? {
      var e := n.exponent.value;
      var signed := (if e.sign.None? then "" else if e.sign.value then "+" else "-") + e.digits;
      assert ExponentText(n.exponent)[1..] == signed;
      assert e.sign.Some? ==> signed[1..] == e.digits;
      assert e.sign.None? ==> signed == e.digits;
      assert IsSignedDigits(signed);
    }
  }

  lemma NumeralIsRead(n: Numeral, rest: string)
    requires IsNumeral(n) && EndsNumber(rest)
    ensures ParseValue(NumeralText(n, rest)) == Some(Parsed(NumeralMeant(n), rest))
  {
    hide ParseUnsigned, FractionText, ExponentText;
    var text := n.whole + (FractionText(n.fraction) + (ExponentText(n.exponent) + rest));
    NumeralParts(n);
    PartsAreRead(n.negative, n.whole, FractionText(n.fraction), ExponentText(n.exponent), rest);
    assert text[0] == n.whole[0];
    ReadAsNumber(NumeralText(n, rest));
    if n.negative {
      assert ("-" + text)[1..] == text;
    }
  }

  // ----- Texts

  /** A text, with the space around its parts. */
  datatype Doc =
    | Word(word: Json)
    | Number(numeral: Numeral)
    | Text(chars: seq<Spelling>)
    | List(gap: string, items: seq<Item>)
    | Record(gap: string, entries: seq<Entry>)

  datatype Item = Item(before: string, doc: Doc, after: string)

  datatype Entry = Entry(before: string, key: seq<Spelling>, beforeColon: string, afterColon: string, doc: Doc,
                         after: string)

  predicate IsGap(s: string) {
    forall i :: 0 <= i < |s| ==> s[i] == ' ' || s[i] == '\t' || s[i] == '\n' || s[i] == '\r'
  }

  predicate Valid(d: Doc) {
    match d
    case Word(v) => v.Null? || v.Bool? || v.NaN? || v.Infinity?
    case Number(n) => IsNumeral(n)
    case Text(cs) => AllProper(cs)
    case List(gap, items) =>
      IsGap(gap) && forall i :: 0 <= i < |items| ==> GapsAround(items[i]) && Valid(items[i].doc)
    case Record(gap, entries) =>
      IsGap(gap) && forall i :: 0 <= i < |entries| ==> ProperKey(entries[i]) && Valid(entries[i].doc)
  }

  predicate GapsAround(item: Item) {
    IsGap(item.before) && IsGap(item.after)
  }

  predicate ProperKey(e: Entry) {
    IsGap(e.before) && AllProper(e.key) && IsGap(e.beforeColon) && IsGap(e.afterColon) && IsGap(e.after)
  }

  predicate ValidItem(item: Item) {
    GapsAround(item) && Valid(item.doc)
  }

  predicate ValidEntry(e: Entry) {
    ProperKey(e) && Valid(e.doc)
  }

  function LiteralText(v: Json): string {
    match v
    case Bool(b) => if b then "true" else "false"
    case NaN => "NaN"
    case Infinity(negative) => if negative then "-Infinity" else "Infinity"
    case _ => "null"
  }

  /** The text, followed by the rest. */
  function Write(d: Doc, rest: string): string
    requires Valid(d)
    decreases d
  {
    match d
    case Word(v) => LiteralText(v) + rest
    case Number(n) => NumeralText(n, rest)
    case Text(cs) => "\"" + SpellAll(cs, rest)
    case List(gap, items) => "[" + if items == [] then gap + ("]" + rest) else WriteItems(items, "]" + rest)
    case Record(gap, entries) => "{" + if entries == [] then gap + ("}" + rest) else WriteEntries(entries, "}" + rest)
  }

  function WriteItems(items: seq<Item>, rest: string): string
    requires items != [] && forall i :: 0 <= i < |items| ==> ValidItem(items[i])
    decreases items
  {
    assert ValidItem(items[0]);
    var tail := if |items| == 1 then rest else "," + WriteItems(items[1..], rest);
    items[0].before + Write(items[0].doc, items[0].after + tail)
  }

  function WriteEntries(entries: seq<Entry>, rest: string): string
    requires entries != [] && forall i :: 0 <= i < |entries| ==> ValidEntry(entries[i])
    decreases entries
  {
    var e := entries[0];
    assert ValidEntry(e);
    var tail := if |entries| == 1 then rest else "," + WriteEntries(entries[1..], rest);
    e.before + ("\"" + SpellAll(e.key, e.beforeColon + (":" + (e.afterColon + Write(e.doc, e.after + tail)))))
  }

  function Means(d: Doc): Json
    requires Valid(d)
    decreases d
  {
    match d
    case Word(v) => v
    case Number(n) => NumeralMeant(n)
    case Text(cs) => Str(MeantAll(cs))
    case List(_, items) => Arr(MeanItems(items))
    case Record(_, entries) => Obj(Dictionary(MeanEntries(entries)))
  }

  function MeanItems(items: seq<Item>): seq<Json>
    requires forall i :: 0 <= i < |items| ==> ValidItem(items[i])
    decreases items
  {
    if items == [] then []
    else
      assert ValidItem(items[0]);
      [Means(items[0].doc)] + MeanItems(items[1..])
  }

  function MeanEntries(entries: seq<Entry>): seq<Member>
    requires forall i :: 0 <= i < |entries| ==> ValidEntry(entries[i])
    decreases entries
  {
    if entries == [] then []
    else
      assert ValidEntry(entries[0]);
      [Member(MeantAll(entries[0].key), Means(entries[0].doc))] + MeanEntries(entries[1..])
  }

  // ----- Every text is read as what it means

  lemma {:induction false} GapIsSkipped(gap: string, s: string)
    requires IsGap(gap) && s != "" && s[0] != ' ' && s[0] != '\t' && s[0] != '\n' && s[0] != '\r'
    ensures SkipSpace(gap + s) == s
  {
    if gap == "" {
      assert gap + s == s;
    } else {
      assert (gap + s)[1..] == gap[1..] + s;
      GapIsSkipped(gap[1..], s);
    }
  }

  /** What a text can begin with. */
  predicate IsFirst(c: char) {
    c == '"' || c == '[' || c == '{' || c == '-' || '0' <= c <= '9' || 'A' <= c <= 'Z' || 'a' <= c <= 'z'
  }

  lemma StartsWell(d: Doc, rest: string)
    requires Valid(d)
    ensures Write(d, rest) != "" && IsFirst(Write(d, rest)[0])
  {
    if d.Number? {
      assert NumeralText(d.numeral, rest)[0] == if d.numeral.negative then '-' else d.numeral.whole[0];
    }
  }

  /** A number ends in front of space, a comma or a closing bracket. */
  lemma EndsBefore(gap: string, tail: string)
    requires IsGap(gap) && tail != "" && (tail[0] == ',' || tail[0] == ']' || tail[0] == '}')
    ensures EndsNumber(gap + tail) && SkipSpace(gap + tail) == tail
  {
    GapIsSkipped(gap, tail);
    assert (gap + tail)[0] == if gap == "" then tail[0] else gap[0];
  }

  lemma WordIsRead(v: Json, rest: string)
    requires v.Null? || v.Bool? || v.NaN? || v.Infinity?
    ensures ParseValue(LiteralText(v) + rest) == Some(Parsed(v, rest))
  {
    LiteralRoundTrip(v, rest);
  }

  lemma TextIsRead(cs: seq<Spelling>, rest: string)
    requires AllProper(cs)
    ensures ParseValue("\"" + SpellAll(cs, rest)) == Some(Parsed(Str(MeantAll(cs)), rest))
  {
    hide SpellAll;
    StringIsRead(cs, rest);
    assert ("\"" + SpellAll(cs, rest))[1..] == SpellAll(cs, rest);
  }

  /** A text of the grammar is read as what it means, whatever follows it that does not go on with a number. */
  lemma {:induction false} EveryTextIsRead(d: Doc, rest: string)
    requires Valid(d) && (d.Number? ==> EndsNumber(rest))
    ensures ParseValue(Write(d, rest)) == Some(Parsed(Means(d), rest))
    decreases d, 1
  {
    match d
    case Word(v) => WordIsRead(v, rest);
    case Number(n) => NumeralIsRead(n, rest);
    case Text(cs) => TextIsRead(cs, rest);
    case List(_, _) => ListIsRead(d, rest);
    case Record(_, _) => RecordIsRead(d, rest);
  }

  lemma {:induction false} ListIsRead(d: Doc, rest: string)
    requires d.List? && Valid(d)
    ensures ParseValue(Write(d, rest)) == Some(Parsed(Means(d), rest))
    decreases d, 0
  {
    hide ParseItems;
    var text := Write(d, rest);
    if d.items == [] {
      GapIsSkipped(d.gap, "]" + rest);
      assert text[1..] == d.gap + ("]" + rest);
      assert ("]" + rest)[1..] == rest;
    } else {
      ItemsAreRead(d.items, rest);
      assert text[1..] == WriteItems(d.items, "]" + rest);
    }
  }

  lemma OpenBrace(text: string, inner: string, ms: seq<Member>, rest: string)
    requires text == "{" + inner && StartsWith(SkipSpace(inner), '"')
    requires ParseMembers(SkipSpace(inner)) == Some(Parsed(ms, rest))
    ensures ParseValue(text) == Some(Parsed(Obj(Dictionary(ms)), rest))
  {
    hide ParseMembers, Dictionary, SkipSpace;
    assert text[1..] == inner;
  }

  lemma EmptyBraces(gap: string, rest: string)
    requires IsGap(gap)
    ensures ParseValue("{" + (gap + ("}" + rest))) == Some(Parsed(Obj([]), rest))
  {
    hide ParseMembers;
    var inner := gap + ("}" + rest);
    GapIsSkipped(gap, "}" + rest);
    assert ("{" + inner)[1..] == inner && ("}" + rest)[1..] == rest;
  }

  lemma {:induction false} RecordIsRead(d: Doc, rest: string)
    requires d.Record? && Valid(d)
    ensures ParseValue(Write(d, rest)) == Some(Parsed(Means(d), rest))
    decreases d, 0
  {
    hide ParseMembers, ParseValue, Dictionary;
    if d.entries == [] {
      EmptyBraces(d.gap, rest);
      NoMembers();
    } else {
      EntriesAreRead(d.entries, rest);
      OpenBrace(Write(d, rest), WriteEntries(d.entries, "}" + rest), MeanEntries(d.entries), rest);
    }
  }

  lemma LastEntry(text: string, m: Member, after: string)
    requires ParseMember(text) == Some(Parsed(m, after)) && StartsWith(SkipSpace(after), '}')
    ensures ParseMembers(text) == Some(Parsed([m], SkipSpace(after)[1..]))
  {
    hide ParseMember;
  }

  lemma OneEntryMore(text: string, m: Member, after: string, ms: seq<Member>, rest: string)
    requires ParseMember(text) == Some(Parsed(m, after)) && StartsWith(SkipSpace(after), ',')
    requires ParseMembers(SkipSpace(SkipSpace(after)[1..])) == Some(Parsed(ms, rest))
    ensures ParseMembers(text) == Some(Parsed([m] + ms, rest))
  {
    hide ParseMember;
  }

  lemma LastItem(text: string, v: Json, after: string)
    requires ParseValue(text) == Some(Parsed(v, after)) && StartsWith(SkipSpace(after), ']')
    ensures ParseItems(text) == Some(Parsed([v], SkipSpace(after)[1..]))
  {
    hide ParseValue;
  }

  lemma OneItemMore(text: string, v: Json, after: string, vs: seq<Json>, rest: string)
    requires ParseValue(text) == Some(Parsed(v, after)) && StartsWith(SkipSpace(after), ',')
    requires ParseItems(SkipSpace(SkipSpace(after)[1..])) == Some(Parsed(vs, rest))
    ensures ParseItems(text) == Some(Parsed([v] + vs, rest))
  {
    hide ParseValue;
  }

  lemma NoMembers()
    ensures Dictionary([]) == []
  {
  }

  /** The items up to the closing bracket, after the space in front of them. */
  lemma {:induction false} ItemsAreRead(items: seq<Item>, rest: string)
    requires items != [] && forall i :: 0 <= i < |items| ==> ValidItem(items[i])
    ensures
      var text := SkipSpace(WriteItems(items, "]" + rest));
      text != "" && IsFirst(text[0]) && ParseItems(text) == Some(Parsed(MeanItems(items), rest))
    decreases items, 0
  {
    hide ParseValue, ParseItems, Write, Means, SkipSpace;
    var item := items[0];
    var tail := if |items| == 1 then "]" + rest else "," + WriteItems(items[1..], "]" + rest);
    var value := Write(item.doc, item.after + tail);
    StartsWell(item.doc, item.after + tail);
    GapIsSkipped(item.before, value);
    EndsBefore(item.after, tail);
    EveryTextIsRead(item.doc, item.after + tail);
    if |items| == 1 {
      assert tail[0] == ']' && tail[1..] == rest;
      LastItem(value, Means(item.doc), item.after + tail);
      assert MeanItems(items[1..]) == [] && MeanItems(items) == [Means(item.doc)];
    } else {
      ItemsAreRead(items[1..], rest);
      assert tail[1..] == WriteItems(items[1..], "]" + rest);
      OneItemMore(value, Means(item.doc), item.after + tail, MeanItems(items[1..]), rest);
    }
  }

  lemma {:induction false} EntryIsRead(e: Entry, tail: string)
    requires ValidEntry(e) && tail != "" && (tail[0] == ',' || tail[0] == '}')
    ensures
      var text := "\"" + SpellAll(e.key, e.beforeColon + (":" + (e.afterColon + Write(e.doc, e.after + tail))));
      ParseMember(text) == Some(Parsed(Member(MeantAll(e.key), Means(e.doc)), e.after + tail))
    decreases e, 2
  {
    hide ParseValue, ParseString, Write, Means, SpellAll, MeantAll;
    var value := Write(e.doc, e.after + tail);
    var colon := ":" + (e.afterColon + value);
    StartsWell(e.doc, e.after + tail);
    StringIsRead(e.key, e.beforeColon + colon);
    GapIsSkipped(e.beforeColon, colon);
    GapIsSkipped(e.afterColon, value);
    EndsBefore(e.after, tail);
    EveryTextIsRead(e.doc, e.after + tail);
    assert colon[1..] == e.afterColon + value;
    assert ("\"" + SpellAll(e.key, e.beforeColon + colon))[1..] == SpellAll(e.key, e.beforeColon + colon);
  }

  lemma {:induction false} EntriesAreRead(entries: seq<Entry>, rest: string)
    requires entries != [] && forall i :: 0 <= i < |entries| ==> ValidEntry(entries[i])
    ensures
      var text := SkipSpace(WriteEntries(entries, "}" + rest));
      text != "" && text[0] == '"' && ParseMembers(text) == Some(Parsed(MeanEntries(entries), rest))
    decreases entries, 0
  {
    hide ParseMember, ParseMembers, Write, Means, SpellAll, MeantAll, SkipSpace;
    var e := entries[0];
    var tail := if |entries| == 1 then "}" + rest else "," + WriteEntries(entries[1..], "}" + rest);
    var value := "\"" + SpellAll(e.key, e.beforeColon + (":" + (e.afterColon + Write(e.doc, e.after + tail))));
    GapIsSkipped(e.before, value);
    EntryIsRead(e, tail);
    EndsBefore(e.after, tail);
    if |entries| == 1 {
      assert tail[0] == '}' && tail[1..] == rest;
      LastEntry(value, Member(MeantAll(e.key), Means(e.doc)), e.after + tail);
      assert MeanEntries(entries[1..]) == [] && MeanEntries(entries) == [Member(MeantAll(e.key), Means(e.doc))];
    } else {
      EntriesAreRead(entries[1..], rest);
      assert tail[1..] == WriteEntries(entries[1..], "}" + rest);
      OneEntryMore(value, Member(MeantAll(e.key), Means(e.doc)), e.after + tail, MeanEntries(entries[1..]), rest);
    }
  }

  /** The whole of a text with space around it. */
  lemma LoadsReadsEveryText(before: string, d: Doc, after: string)
    requires Valid(d) && IsGap(before) && IsGap(after)
    ensures Loads(before + Write(d, after)) == Some(Means(d))
  {
    hide ParseValue, Write;
    StartsWell(d, after);
    GapIsSkipped(before, Write(d, after));
    EveryTextIsRead(d, after);
    OnlyGap(after);
  }

  lemma {:induction false} OnlyGap(gap: string)
    requires IsGap(gap)
    ensures SkipSpace(gap) == "" && EndsNumber(gap)
  {
    if gap != "" {
      OnlyGap(gap[1..]);
    }
  }
}
