/** What the printer chooses among the spellings of a value: the shortest one, on one line. */
module JsonCompact {
  import opened Basics
  import opened Decimal
  import opened Json
  import opened JsonLaws
  import opened JsonGrammar

  /** No spelling of a character is shorter than the one that is printed. */
  lemma ShortestSpelling(s: Spelling)
    requires Proper(s) && !s.Lone?
    ensures |EscapeChar(Meant(s))| <= |Spell(s, "")|
  {
    hide Glyph;
    assert '\n' == 10 as char && '\r' == 13 as char && '\t' == 9 as char;
  }

  // ----- One line

  /** One of the strings and keys has the character in it. */
  ghost predicate HasChar(v: Json, c: char) {
    match v
    case Str(s) => c in s
    case Arr(items) => exists i :: 0 <= i < |items| && HasChar(items[i], c)
    case Obj(ms) => exists i :: 0 <= i < |ms| && (c in ms[i].key || HasChar(ms[i].value, c))
    case _ => false
  }

  lemma EscapedChars(c: char, x: char)
    requires x in EscapeChar(c)
    ensures x > ' ' || x == c == ' '
  {
    if ShortEscape(c).None? && c < ' ' {
      HexIsVisible(c as int / 16);
      HexIsVisible(c as int % 16);
    }
  }

  lemma HexIsVisible(d: nat)
    requires d < 16
    ensures HEX[d] > ' '
  {
  }

  lemma {:induction false} EscapeChars(s: string, x: char)
    requires x in Escape(s)
    ensures x > ' ' || (x == ' ' && ' ' in s)
  {
    hide EscapeChar;
    if s != "" {
      if x in EscapeChar(s[0]) {
        EscapedChars(s[0], x);
      } else {
        EscapeChars(s[1..], x);
      }
    }
  }

  lemma NumberChars(v: Json, x: char)
    requires (v.Num? || v.Real?) && x in Print(v)
    ensures x > ' '
  {
    if v.Num? {
      DigitsDenote(if v.n < 0 then -v.n else v.n);
    } else {
      FloatCharacters(v.f);
    }
  }

  lemma LiteralChars(v: Json, x: char)
    requires (v.Null? || v.Bool? || v.NaN? || v.Infinity?) && x in Print(v)
    ensures x > ' '
  {
  }

  /** A printed value has no line break or other control character, and a space only inside a string or key. */
  lemma {:induction false} PrintedOnOneLine(v: Json, x: char)
    requires x in Print(v)
    ensures x > ' ' || (x == ' ' && HasChar(v, ' '))
    decreases v, 1
  {
    hide Escape;
    match v
    case Str(s) =>
      if x in Escape(s) {
        EscapeChars(s, x);
      }
    case Arr(items) =>
      if x in PrintItems(items) {
        ItemsOnOneLine(items, x);
      }
    case Obj(ms) =>
      if x in PrintMembers(ms) {
        MembersOnOneLine(ms, x);
      }
    case Num(_) => NumberChars(v, x);
    case Real(_) => NumberChars(v, x);
    case _ => LiteralChars(v, x);
  }

  lemma {:induction false} ItemsOnOneLine(items: seq<Json>, x: char)
    requires x in PrintItems(items)
    ensures x > ' ' || (x == ' ' && exists i :: 0 <= i < |items| && HasChar(items[i], ' '))
    decreases items, 0
  {
    hide HasChar;
    if x in Print(items[0]) {
      PrintedOnOneLine(items[0], x);
    } else if |items| > 1 && x in PrintItems(items[1..]) {
      ItemsOnOneLine(items[1..], x);
      assert forall i :: 0 <= i < |items[1..]| ==> items[1..][i] == items[i + 1];
    }
  }

  lemma {:induction false} MembersOnOneLine(ms: seq<Member>, x: char)
    requires x in PrintMembers(ms)
    ensures x > ' ' || (x == ' ' && exists i :: 0 <= i < |ms| && (' ' in ms[i].key || HasChar(ms[i].value, ' ')))
    decreases ms, 0
  {
    hide HasChar, Escape;
    if x in Escape(ms[0].key) {
      EscapeChars(ms[0].key, x);
    } else if x in Print(ms[0].value) {
      PrintedOnOneLine(ms[0].value, x);
    } else if |ms| > 1 && x in PrintMembers(ms[1..]) {
      MembersOnOneLine(ms[1..], x);
      assert forall i :: 0 <= i < |ms[1..]| ==> ms[1..][i] == ms[i + 1];
    }
  }
}
