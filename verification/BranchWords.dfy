/** Which slug a title is given: its words, joined by single hyphens and cut to 48 characters. */
module BranchWords {
  import opened Basics
  import opened Decimal
  import opened Texts
  import opened BranchName

  /** The longest stretches of characters of the given kind. */
  function Words(s: string, kind: char -> bool): (r: seq<string>)
    ensures s != "" && kind(s[0]) ==> r != []
    ensures forall i :: 0 <= i < |r| ==> r[i] != "" && kind(r[i][0]) && kind(r[i][|r[i]| - 1])
  {
    if s == "" then []
    else if !kind(s[0]) then Words(s[1..], kind)
    else
      var rest := Words(s[1..], kind);
      if |s| > 1 && kind(s[1]) then [[s[0]] + rest[0]] + rest[1..] else [[s[0]]] + rest
  }

  /** Words with a hyphen between them. */
  function Hyphenated(words: seq<string>): string {
    if words == [] then ""
    else if |words| == 1 then words[0]
    else words[0] + "-" + Hyphenated(words[1..])
  }

  /** One hyphen for each stretch of characters of another kind; after says that one has just been written. */
  function Spaced(s: string, after: bool, kind: char -> bool): string {
    if s == "" then ""
    else if kind(s[0]) then [s[0]] + Spaced(s[1..], false, kind)
    else if after then Spaced(s[1..], true, kind)
    else "-" + Spaced(s[1..], true, kind)
  }

  lemma {:induction false} NoWords(s: string, kind: char -> bool)
    requires Words(s, kind) == []
    ensures forall i :: 0 <= i < |s| ==> !kind(s[i])
  {
    if s != "" {
      NoWords(s[1..], kind);
    }
  }

  lemma LongerFirstWord(c: char, words: seq<string>)
    requires words != []
    ensures Hyphenated([[c] + words[0]] + words[1..]) == [c] + Hyphenated(words)
  {
    var longer := [[c] + words[0]] + words[1..];
    assert longer[1..] == words[1..];
    if |words| > 1 {
      assert [c] + words[0] + "-" + Hyphenated(words[1..]) == [c] + (words[0] + "-" + Hyphenated(words[1..]));
    }
  }

  lemma OneMoreWord(c: char, words: seq<string>)
    ensures Hyphenated([[c]] + words) == if words == [] then [c] else [c] + "-" + Hyphenated(words)
  {
    assert ([[c]] + words)[1..] == words;
  }

  function Tail(s: string, kind: char -> bool): string {
    if Words(s, kind) != [] && s != "" && !kind(s[|s| - 1]) then "-" else ""
  }

  ghost predicate IsWordsAndTail(s: string, kind: char -> bool) {
    Spaced(s, true, kind) == Hyphenated(Words(s, kind)) + Tail(s, kind)
  }

  lemma InsideWord(s: string, kind: char -> bool)
    requires |s| > 1 && kind(s[0]) && kind(s[1]) && IsWordsAndTail(s[1..], kind)
    ensures IsWordsAndTail(s, kind)
  {
    hide Hyphenated;
    var rest := s[1..];
    LongerFirstWord(s[0], Words(rest, kind));
    assert rest[|rest| - 1] == s[|s| - 1];
    assert Spaced(s, true, kind) == [s[0]] + Spaced(rest, true, kind);
    Associate([s[0]], Hyphenated(Words(rest, kind)), Tail(rest, kind));
  }

  lemma Regrouped(c: char, a: string, b: string)
    ensures [c] + ("-" + (a + b)) == [c] + "-" + a + b
    ensures [c] + ("-" + "") == [c] + "-"
  {
  }

  lemma WordEnds(s: string, kind: char -> bool)
    requires |s| > 1 && kind(s[0]) && !kind(s[1])
    ensures Words(s, kind) == [[s[0]]] + Words(s[1..], kind)
    ensures Spaced(s, true, kind) == [s[0]] + ("-" + Spaced(s[1..], true, kind))
    ensures Tail(s, kind) == if kind(s[|s| - 1]) then "" else "-"
    ensures Words(s[1..], kind) == [] ==> !kind(s[|s| - 1]) && Spaced(s[1..], true, kind) == ""
    ensures Words(s[1..], kind) != [] ==> Tail(s, kind) == Tail(s[1..], kind)
  {
    var rest := s[1..];
    assert rest[|rest| - 1] == s[|s| - 1];
    if Words(rest, kind) == [] {
      NoWords(rest, kind);
      NothingSpaced(rest, kind);
    }
  }

  lemma {:induction false} NothingSpaced(s: string, kind: char -> bool)
    requires forall i :: 0 <= i < |s| ==> !kind(s[i])
    ensures Spaced(s, true, kind) == ""
  {
    if s != "" {
      NothingSpaced(s[1..], kind);
    }
  }

  lemma EndOfWord(s: string, kind: char -> bool)
    requires |s| > 1 && kind(s[0]) && !kind(s[1]) && IsWordsAndTail(s[1..], kind)
    ensures IsWordsAndTail(s, kind)
  {
    hide Hyphenated, Words, Spaced, Tail;
    var words := Words(s[1..], kind);
    WordEnds(s, kind);
    OneMoreWord(s[0], words);
    Regrouped(s[0], Hyphenated(words), Tail(s, kind));
  }

  lemma NoWordsNoText()
    ensures Hyphenated([]) == ""
  {
  }

  lemma OneCharacter(s: string, kind: char -> bool)
    requires |s| == 1 && kind(s[0])
    ensures IsWordsAndTail(s, kind)
  {
    assert s[1..] == "" && s == [s[0]] && Words("", kind) == [];
    OneMoreWord(s[0], []);
    assert [[s[0]]] + Words("", kind) == [[s[0]]];
  }

  lemma OutsideWord(s: string, kind: char -> bool)
    requires s != "" && !kind(s[0]) && IsWordsAndTail(s[1..], kind)
    ensures IsWordsAndTail(s, kind)
  {
    hide Hyphenated;
    if |s| > 1 {
      assert s[1..][|s[1..]| - 1] == s[|s| - 1];
    }
  }

  /** After a hyphen come the words, and a hyphen if something else follows them. */
  lemma {:induction false} SpacedIsWords(s: string, kind: char -> bool)
    ensures IsWordsAndTail(s, kind)
  {
    if s != "" {
      hide IsWordsAndTail;
      SpacedIsWords(s[1..], kind);
      if !kind(s[0]) {
        OutsideWord(s, kind);
      } else if |s| == 1 {
        OneCharacter(s, kind);
      } else if kind(s[1]) {
        InsideWord(s, kind);
      } else {
        EndOfWord(s, kind);
      }
    }
  }

  lemma {:induction false} HyphenatedEnds(words: seq<string>, kind: char -> bool)
    requires words != []
    requires forall i :: 0 <= i < |words| ==> words[i] != "" && kind(words[i][0]) && kind(words[i][|words[i]| - 1])
    ensures
      var s := Hyphenated(words);
      s != "" && kind(s[0]) && kind(s[|s| - 1])
  {
    if |words| > 1 {
      HyphenatedEnds(words[1..], kind);
    }
  }

  lemma SpacedFromStart(s: string, kind: char -> bool)
    ensures Spaced(s, false, kind) == (if s != "" && !kind(s[0]) then "-" else "") + Spaced(s, true, kind)
  {
  }

  /** Hyphens around a text are stripped. */
  lemma HyphensAround(front: bool, s: string, after: bool)
    requires s != "" && s[0] != '-' && s[|s| - 1] != '-'
    ensures StripHyphens((if front then "-" else "") + (s + if after then "-" else "")) == s
  {
    var t := s + if after then "-" else "";
    assert t[0] == s[0];
    assert StripHyphensLeft(t) == t;
    assert front ==> ("-" + t)[1..] == t;
    assert !front ==> "" + t == t;
    assert after ==> t[..|t| - 1] == s && StripHyphensRight(s) == s;
  }

  /** Stripping the hyphens leaves the words. */
  lemma StrippedIsWords(s: string, kind: char -> bool)
    requires !kind('-')
    ensures StripHyphens(Spaced(s, false, kind)) == Hyphenated(Words(s, kind))
  {
    hide StripHyphens, Spaced, Words, Hyphenated;
    var words := Words(s, kind);
    SpacedFromStart(s, kind);
    SpacedIsWords(s, kind);
    NoWordsNoText();
    if words == [] {
      OneHyphen();
      assert "-" + ("" + "") == "-" && "" + ("" + "") == "";
    } else {
      HyphenatedEnds(words, kind);
      HyphensAround(s != "" && !kind(s[0]), Hyphenated(words), Tail(s, kind) != "");
    }
  }

  lemma OneHyphen()
    ensures StripHyphens("-") == "" && StripHyphens("") == ""
  {
    assert "-"[1..] == "";
  }

  // ----- What is stripped holds no words

  lemma {:induction false} NothingAtTheEnd(s: string, c: char, kind: char -> bool)
    requires !kind(c)
    ensures Words(s + [c], kind) == Words(s, kind)
  {
    if s == "" {
      assert s + [c] == [c] && [c][1..] == "";
    } else {
      assert (s + [c])[1..] == s[1..] + [c];
      NothingAtTheEnd(s[1..], c, kind);
      assert |s| > 1 ==> (s + [c])[1] == s[1];
    }
  }

  lemma FrontAndLast(s: string)
    requires s != ""
    ensures s == s[..|s| - 1] + [s[|s| - 1]]
  {
  }

  lemma LastLeftOut(s: string, kind: char -> bool)
    requires s != "" && !kind(s[|s| - 1])
    ensures Words(s[..|s| - 1], kind) == Words(s, kind)
  {
    hide Words;
    FrontAndLast(s);
    NothingAtTheEnd(s[..|s| - 1], s[|s| - 1], kind);
  }

  lemma {:induction false} SpaceOnTheLeft(s: string, kind: char -> bool)
    requires forall c :: IsSpace(c) ==> !kind(c)
    ensures Words(StripLeft(s), kind) == Words(s, kind)
  {
    if s != "" && IsSpace(s[0]) {
      SpaceOnTheLeft(s[1..], kind);
    }
  }

  lemma {:induction false} SpaceOnTheRight(s: string, kind: char -> bool)
    requires forall c :: IsSpace(c) ==> !kind(c)
    ensures Words(StripRight(s), kind) == Words(s, kind)
  {
    if s != "" && IsSpace(s[|s| - 1]) {
      LastLeftOut(s, kind);
      SpaceOnTheRight(s[..|s| - 1], kind);
    }
  }

  lemma {:induction false} HyphensOnTheLeft(s: string, kind: char -> bool)
    requires !kind('-')
    ensures Words(StripHyphensLeft(s), kind) == Words(s, kind)
    ensures StripHyphensLeft(s) != "" ==> StripHyphensLeft(s)[0] != '-'
  {
    if s != "" && s[0] == '-' {
      HyphensOnTheLeft(s[1..], kind);
    }
  }

  lemma {:induction false} HyphensOnTheRight(s: string, kind: char -> bool)
    requires !kind('-')
    ensures Words(StripHyphensRight(s), kind) == Words(s, kind)
    ensures StripHyphensRight(s) != "" ==> StripHyphensRight(s)[|StripHyphensRight(s)| - 1] != '-'
  {
    if s != "" && s[|s| - 1] == '-' {
      LastLeftOut(s, kind);
      HyphensOnTheRight(s[..|s| - 1], kind);
    }
  }

  // ----- The code generator

  lemma {:induction false} HyphenateIsSpaced(s: string, after: bool, kind: char -> bool)
    requires forall c :: kind(c) <==> IsSlugChar(c)
    ensures Hyphenate(s, after) == Spaced(s, after, kind)
  {
    if s != "" {
      HyphenateIsSpaced(s[1..], !IsSlugChar(s[0]), kind);
    }
  }

  /** The code generator's slug: the stretches of letters and digits, joined by hyphens, cut to 48 characters;
      and the branch name with it. */
  lemma SlugIsJoinedWords(number: nat, lowered: string)
    ensures
      var all := Hyphenated(Words(lowered, c => 'a' <= c <= 'z' || '0' <= c <= '9'));
      && Slugify(lowered) == (if |all| <= 48 then all else all[..48])
      && DefaultBranchName(number, lowered)
         == "horde/" + Digits(number) + "-" + (if all == "" then "task" else Slugify(lowered))
  {
    hide Words, Hyphenated, StripHyphens, Hyphenate, Squeeze;
    var kind := (c: char) => 'a' <= c <= 'z' || '0' <= c <= '9';
    var stripped := Strip(lowered);
    assert forall c :: IsSpace(c) ==> !kind(c);
    SpaceOnTheLeft(lowered, kind);
    SpaceOnTheRight(StripLeft(lowered), kind);
    HyphenateIsSpaced(stripped, false, kind);
    StrippedIsWords(stripped, kind);
    SlugIsClean(lowered);
  }

  // ----- The merge agent

  lemma {:induction false} SameWords(s: string, t: string, kind: char -> bool, other: char -> bool)
    requires |s| == |t|
    requires forall i :: 0 <= i < |s| ==> (kind(s[i]) <==> other(t[i])) && (kind(s[i]) ==> s[i] == t[i])
    ensures Words(s, kind) == Words(t, other)
  {
    if s != "" {
      SameWords(s[1..], t[1..], kind, other);
    }
  }

  lemma {:induction false} SqueezeIsSpaced(s: string, after: bool, kind: char -> bool)
    requires forall c :: kind(c) <==> c != '-'
    ensures Squeeze(s, after) == Spaced(s, after, kind)
  {
    if s != "" {
      SqueezeIsSpaced(s[1..], s[0] == '-', kind);
    }
  }

  lemma {:induction false} EachCharacter(s: string, letters: set<char>)
    ensures |HyphenForEach(s, letters)| == |s|
    ensures forall i :: 0 <= i < |s| ==>
              HyphenForEach(s, letters)[i] == if IsSlugChar(s[i]) || s[i] in letters then s[i] else '-'
  {
    if s != "" {
      EachCharacter(s[1..], letters);
    }
  }

  lemma SqueezedIsWords(s: string, letters: set<char>)
    requires Letters(letters)
    ensures Squeeze(StripHyphens(HyphenForEach(s, letters)), false)
            == Hyphenated(Words(s, c => 'a' <= c <= 'z' || '0' <= c <= '9' || c in letters))
  {
    hide Words, Hyphenated, Squeeze, Spaced, HyphenForEach;
    var kind := (c: char) => 'a' <= c <= 'z' || '0' <= c <= '9' || c in letters;
    var other := (c: char) => c != '-';
    var marked := HyphenForEach(s, letters);
    var t := StripHyphens(marked);
    EachCharacter(s, letters);
    SameWords(s, marked, kind, other);
    HyphensOnTheLeft(marked, other);
    HyphensOnTheRight(StripHyphensLeft(marked), other);
    SqueezeIsSpaced(t, false, other);
    SpacedFromStart(t, other);
    SpacedIsWords(t, other);
    EndsAreWords(t, StripHyphensLeft(marked));
    assert Words(t, other) == Words(s, kind);
    assert Tail(t, other) == "";
    assert Hyphenated(Words(t, other)) + "" == Hyphenated(Words(t, other));
    assert "" + Spaced(t, true, other) == Spaced(t, true, other);
  }

  lemma EndsAreWords(t: string, left: string)
    requires t == StripHyphensRight(left) && (left != "" ==> left[0] != '-')
    ensures t != "" ==> t[0] != '-'
  {
  }

  lemma {:induction false} SqueezedHasNoPair(s: string, after: bool)
    ensures !HasPair(Squeeze(s, after))
    ensures after && Squeeze(s, after) != "" ==> Squeeze(s, after)[0] != '-'
  {
    if s != "" {
      SqueezedHasNoPair(s[1..], s[0] == '-');
    }
  }

  lemma AtMostOneHyphen(cut: string)
    requires !HasPair(cut) && cut != ""
    ensures StripHyphensRight(cut) == if cut[|cut| - 1] == '-' then cut[..|cut| - 1] else cut
  {
    if |cut| > 1 {
      assert !(cut[|cut| - 2] == '-' && cut[|cut| - 1] == '-');
    }
  }

  /** The merge agent's slug: the stretches of letters and digits of any kind, joined by hyphens, or the word
      feature without any, cut to 48 characters, and without a hyphen at the cut. */
  lemma MergeSlugIsJoinedWords(number: Option<nat>, lowered: string, letters: set<char>)
    requires Letters(letters)
    ensures
      var all := Hyphenated(Words(lowered, c => 'a' <= c <= 'z' || '0' <= c <= '9' || c in letters));
      var named := if all == "" then "feature" else all;
      var cut := if |named| <= 48 then named else named[..48];
      && MergeSlug(lowered, letters) == (if cut[|cut| - 1] == '-' then cut[..|cut| - 1] else cut)
      && MergeBranchName(number, lowered, letters)
         == (if number.Some? && number.value > 0 then "horde/" + Digits(number.value) + "-" else "horde/")
            + MergeSlug(lowered, letters)
  {
    hide Words, Hyphenated, Squeeze, StripHyphens, HyphenForEach;
    SqueezedIsWords(lowered, letters);
    var slug := Squeeze(StripHyphens(HyphenForEach(lowered, letters)), false);
    SqueezedHasNoPair(StripHyphens(HyphenForEach(lowered, letters)), false);
    var named := if slug == "" then "feature" else slug;
    assert !HasPair("feature");
    PartHasNoPair(named, if |named| <= 48 then |named| else 48);
    AtMostOneHyphen(if |named| <= 48 then named else named[..48]);
  }

  lemma PartHasNoPair(s: string, n: nat)
    requires !HasPair(s) && n <= |s|
    ensures !HasPair(s[..n])
  {
    assert forall i :: 0 <= i < n ==> s[..n][i] == s[i];
  }

  // ----- The dispatcher

  /** A branch is taken for issue m's exactly when, without white space around and in lower case, it goes on
      after the number with a hyphen. */
  lemma RecognisedExactly(m: nat, headRef: string)
    ensures Recognises(m, headRef) <==> exists rest :: Lower(Strip(headRef)) == "horde/" + Digits(m) + "-" + rest
  {
    hide Lower, Strip, Digits;
    var ref, prefix := Lower(Strip(headRef)), "horde/" + Digits(m) + "-";
    if prefix <= ref {
      var rest := ref[|prefix|..];
      assert ref == "horde/" + Digits(m) + "-" + rest;
    }
  }
}
