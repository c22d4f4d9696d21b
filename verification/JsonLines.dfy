/** A line that starts with an underscore is never inside a JSON text. */
module JsonLines {
  import opened Basics
  import opened Decimal
  import opened Json
  import opened JsonLaws
  import opened Texts

  /** The last d characters of the text start with an underscore and are at the beginning of a line. */
  predicate LineStarts(s: string, d: nat) {
    0 < d <= |s| && s[|s| - d] == '_' && (d < |s| ==> s[|s| - d - 1] == '\n')
  }

  /** What is left of s when a reader has stopped in front of that line. */
  predicate StopsBefore(s: string, rest: string, d: nat) {
    |rest| <= |s| && s[|s| - |rest|..] == rest && LineStarts(rest, d)
  }

  lemma TailStops(s: string, k: nat, d: nat)
    requires LineStarts(s, d) && k + d <= |s|
    ensures StopsBefore(s, s[k..], d)
  {
    assert s[|s| - |s[k..]|..] == s[k..];
  }

  lemma StopsInTurn(s: string, t: string, rest: string, d: nat)
    requires StopsBefore(s, t, d) && StopsBefore(t, rest, d)
    ensures StopsBefore(s, rest, d)
  {
    assert s[|s| - |rest|..] == s[|s| - |t|..][|t| - |rest|..];
  }

  /** A character other than the underscore and the line break is passed over. */
  lemma AfterFirst(s: string, d: nat)
    requires LineStarts(s, d) && s[0] != '_' && s[0] != '\n'
    ensures d < |s[1..]| && StopsBefore(s, s[1..], d)
  {
    TailStops(s, 1, d);
  }

  lemma {:induction false} SkipSpaceStops(s: string, d: nat)
    requires LineStarts(s, d)
    ensures StopsBefore(s, SkipSpace(s), d)
  {
    if IsJsonSpace(s[0]) {
      TailStops(s, 1, d);
      SkipSpaceStops(s[1..], d);
      StopsInTurn(s, s[1..], SkipSpace(s), d);
    }
  }

  lemma SpaceStops(s: string, v: string, d: nat)
    requires StopsBefore(s, v, d)
    ensures StopsBefore(s, SkipSpace(v), d) && LineStarts(SkipSpace(v), d)
  {
    SkipSpaceStops(v, d);
    StopsInTurn(s, v, SkipSpace(v), d);
  }

  lemma CharStops(s: string, t: string, d: nat)
    requires StopsBefore(s, t, d) && t[0] != '_' && t[0] != '\n'
    ensures StopsBefore(s, t[1..], d)
  {
    AfterFirst(t, d);
    StopsInTurn(s, t, t[1..], d);
  }

  /** A separator and the space after it. */
  lemma SeparatorStops(s: string, t: string, d: nat)
    requires StopsBefore(s, t, d) && t[0] != '_' && t[0] != '\n'
    ensures StopsBefore(s, SkipSpace(t[1..]), d) && LineStarts(SkipSpace(t[1..]), d)
  {
    CharStops(s, t, d);
    SpaceStops(s, t[1..], d);
  }

  // ----- Strings, numbers and words hold no line break

  lemma CodeUnitIsOneLine(s: string)
    requires CodeUnit(s).Some?
    ensures forall i :: 0 <= i < 6 ==> s[i] != '\n'
  {
  }

  lemma ParseUnitsIsOneLine(s: string)
    requires ParseUnits(s).Some?
    ensures
      var k := |s| - |ParseUnits(s).value.rest|;
      s[k..] == ParseUnits(s).value.rest && forall i :: 0 <= i < k ==> s[i] != '\n'
  {
    CodeUnitIsOneLine(s);
    hide HexValue;
    var next := s[6..];
    if IsHigh(CodeUnit(s).value) && CodeUnit(next).Some? {
      CodeUnitIsOneLine(next);
      assert forall i :: 6 <= i < 12 ==> s[i] == next[i - 6];
    }
  }

  lemma ParseCharIsOneLine(s: string)
    requires s != "" && ParseChar(s).Some?
    ensures
      var k := |s| - |ParseChar(s).value.rest|;
      s[k..] == ParseChar(s).value.rest && forall i :: 0 <= i < k ==> s[i] != '\n'
  {
    hide CodeUnit;
    if s[0] == '\\' && Unescape(s[1]).None? {
      ParseUnitsIsOneLine(s);
    }
  }

  lemma {:induction false} ParseStringStops(s: string, d: nat)
    requires LineStarts(s, d) && d < |s| && ParseString(s).Some?
    ensures StopsBefore(s, ParseString(s).value.rest, d)
    decreases |s|
  {
    if s[0] == '"' {
      TailStops(s, 1, d);
    } else {
      ParseCharIsOneLine(s);
      var t := ParseChar(s).value.rest;
      TailStops(s, |s| - |t|, d);
      ParseStringStops(t, d);
      StopsInTurn(s, t, ParseString(s).value.rest, d);
    }
  }

  lemma QuotedStops(s: string, d: nat)
    requires LineStarts(s, d) && s[0] == '"' && ParseString(s[1..]).Some?
    ensures StopsBefore(s, ParseString(s[1..]).value.rest, d)
  {
    AfterFirst(s, d);
    ParseStringStops(s[1..], d);
    StopsInTurn(s, s[1..], ParseString(s[1..]).value.rest, d);
  }

  lemma OneLineStops(s: string, word: string, rest: string, d: nat)
    requires LineStarts(s, d) && s == word + rest && word != "" && '\n' !in word && s[0] != '_'
    ensures StopsBefore(s, rest, d)
  {
    forall i | 0 <= i < |word| ensures s[i] != '\n' {
      assert s[i] == word[i] && word[i] in word;
    }
    TailStops(s, |word|, d);
  }

  lemma ParseUnsignedStops(negative: bool, s: string, d: nat)
    requires LineStarts(s, d) && ParseUnsigned(negative, s).Some?
    ensures d < |s| && StopsBefore(s, ParseUnsigned(negative, s).value.rest, d)
  {
    hide ParseUnsigned, WholeLength, FractionLength, ExponentLength;
    NumberStartsWithDigit(negative, s);
    var w, f, e, rest := Cut(s);
    PartsAreOneLine(w, f, e);
    Associate(w, f + e, rest);
    Associate(f, e, rest);
    OneLineStops(s, w + (f + e), rest, d);
  }

  lemma NumberStartsWithDigit(negative: bool, s: string)
    requires ParseUnsigned(negative, s).Some?
    ensures s != "" && IsDigit(s[0]) && WholeLength(s) > 0
  {
  }

  lemma PartsAreOneLine(w: string, f: string, e: string)
    requires IsWhole(w) && IsFraction(f) && IsExponent(e)
    ensures '\n' !in w + (f + e)
  {
    assert forall i :: 0 < i < |f| ==> f[i] == f[1..][i - 1];
    assert forall i :: 0 < i < |e| ==> e[i] == e[1..][i - 1];
    assert forall i :: 1 < i < |e| ==> e[i] == e[1..][1..][i - 2];
  }

  lemma ParseNumberStops(s: string, d: nat)
    requires LineStarts(s, d) && ParseNumber(s).Some?
    ensures StopsBefore(s, ParseNumber(s).value.rest, d)
  {
    if s[0] == '-' {
      AfterFirst(s, d);
      ParseUnsignedStops(true, s[1..], d);
      StopsInTurn(s, s[1..], ParseNumber(s).value.rest, d);
    } else {
      ParseUnsignedStops(false, s, d);
    }
  }

  lemma WordStops(s: string, word: string, d: nat)
    requires LineStarts(s, d) && word <= s && word != "" && '\n' !in word && word[0] != '_'
    ensures StopsBefore(s, s[|word|..], d)
  {
    OneLineStops(s, word, s[|word|..], d);
  }

  lemma ParseWordStops(s: string, d: nat)
    requires LineStarts(s, d) && ParseWord(s).Some?
    ensures StopsBefore(s, ParseWord(s).value.rest, d)
  {
    hide LineStarts, StopsBefore;
    if "null" <= s {
      WordStops(s, "null", d);
    } else if "true" <= s {
      WordStops(s, "true", d);
    } else if "false" <= s {
      WordStops(s, "false", d);
    } else if "NaN" <= s {
      WordStops(s, "NaN", d);
    } else if "Infinity" <= s {
      WordStops(s, "Infinity", d);
    } else {
      WordStops(s, "-Infinity", d);
    }
  }

  // ----- Values

  lemma {:induction false} ParseValueStops(s: string, d: nat)
    requires LineStarts(s, d) && ParseValue(s).Some?
    ensures StopsBefore(s, ParseValue(s).value.rest, d)
    decreases |s|, 0
  {
    hide StopsBefore, SkipSpace, ParseItems, ParseMembers, ParseNumber;
    if s[0] == '"' {
      QuotedStops(s, d);
    } else if s[0] == '{' || s[0] == '[' {
      var t := SkipSpace(s[1..]);
      TailStops(s, 0, d);
      assert s[0..] == s;
      SeparatorStops(s, s, d);
      if StartsWith(t, if s[0] == '{' then '}' else ']') {
        CharStops(s, t, d);
      } else if s[0] == '{' {
        ParseMembersStops(t, d);
        StopsInTurn(s, t, ParseMembers(t).value.rest, d);
      } else {
        ParseItemsStops(t, d);
        StopsInTurn(s, t, ParseItems(t).value.rest, d);
      }
    } else if ParseWord(s).Some? {
      ParseWordStops(s, d);
    } else {
      ParseNumberStops(s, d);
    }
  }

  lemma {:induction false} ParseItemsStops(s: string, d: nat)
    requires LineStarts(s, d) && ParseItems(s).Some?
    ensures StopsBefore(s, ParseItems(s).value.rest, d)
    decreases |s|, 1
  {
    hide StopsBefore, SkipSpace, LineStarts, ParseValue;
    ParseValueStops(s, d);
    var t := SkipSpace(ParseValue(s).value.rest);
    SpaceStops(s, ParseValue(s).value.rest, d);
    if StartsWith(t, ']') {
      CharStops(s, t, d);
    } else {
      var next := SkipSpace(t[1..]);
      SeparatorStops(s, t, d);
      ParseItemsStops(next, d);
      StopsInTurn(s, next, ParseItems(next).value.rest, d);
    }
  }

  lemma {:induction false} ParseMemberStops(s: string, d: nat)
    requires LineStarts(s, d) && ParseMember(s).Some?
    ensures StopsBefore(s, ParseMember(s).value.rest, d)
    decreases |s|, 1
  {
    hide StopsBefore, SkipSpace, LineStarts, ParseValue, ParseString;
    QuotedStops(s, d);
    var k := ParseString(s[1..]).value.rest;
    SpaceStops(s, k, d);
    var next := SkipSpace(SkipSpace(k)[1..]);
    SeparatorStops(s, SkipSpace(k), d);
    ParseValueStops(next, d);
    StopsInTurn(s, next, ParseValue(next).value.rest, d);
  }

  lemma {:induction false} ParseMembersStops(s: string, d: nat)
    requires LineStarts(s, d) && ParseMembers(s).Some?
    ensures StopsBefore(s, ParseMembers(s).value.rest, d)
    decreases |s|, 2
  {
    hide StopsBefore, SkipSpace, LineStarts, ParseMember;
    ParseMemberStops(s, d);
    var t := SkipSpace(ParseMember(s).value.rest);
    SpaceStops(s, ParseMember(s).value.rest, d);
    if StartsWith(t, '}') {
      CharStops(s, t, d);
    } else {
      var next := SkipSpace(t[1..]);
      SeparatorStops(s, t, d);
      ParseMembersStops(next, d);
      StopsInTurn(s, next, ParseMembers(next).value.rest, d);
    }
  }

  /** Whatever is around it, a line that starts with an underscore makes the text unreadable as JSON. */
  lemma NotLoaded(s: string, d: nat)
    requires LineStarts(s, d)
    ensures Loads(s).None?
  {
    SkipSpaceStops(s, d);
    var t := SkipSpace(s);
    if ParseValue(t).Some? {
      ParseValueStops(t, d);
      SkipSpaceStops(ParseValue(t).value.rest, d);
    }
  }

  // ----- Stripping

  lemma {:induction false} StripRightStops(s: string, d: nat)
    requires LineStarts(s, d)
    ensures exists k :: 0 < k <= d && LineStarts(StripRight(s), k)
    decreases |s|
  {
    if IsSpace(s[|s| - 1]) {
      StripRightStops(s[..|s| - 1], d - 1);
      var k :| 0 < k <= d - 1 && LineStarts(StripRight(s), k);
      assert 0 < k <= d;
    } else {
      assert LineStarts(StripRight(s), d);
    }
  }

  lemma {:induction false} StripLeftStops(s: string, d: nat)
    requires LineStarts(s, d)
    ensures LineStarts(StripLeft(s), d)
  {
    if IsSpace(s[0]) {
      TailStops(s, 1, d);
      StripLeftStops(s[1..], d);
    }
  }

  lemma NotLoadedStripped(s: string, d: nat)
    requires LineStarts(s, d)
    ensures Loads(Strip(s)).None?
  {
    StripLeftStops(s, d);
    StripRightStops(StripLeft(s), d);
    var k :| 0 < k <= d && LineStarts(Strip(s), k);
    NotLoaded(Strip(s), k);
  }
}
