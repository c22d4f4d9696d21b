/**
  Branch names: written by `agents/code_generator.py` and `agents/pr_merge_agent.py`, recognised by
  `agents/issue_pipeline_dispatcher.py`.  Titles are given as they are after `lower()`.
 */
module BranchName {
  import opened Basics
  import opened Decimal
  import opened Texts

  const PREFIX := "horde/"
  const MAX_SLUG := 48

  predicate IsSlugChar(c: char) {
    'a' <= c <= 'z' || IsDigit(c)
  }

  function Cut(s: string): string {
    if |s| <= MAX_SLUG then s else s[..MAX_SLUG]
  }

  function StripHyphensRight(s: string): (r: string)
    ensures r <= s
  {
    if s != "" && s[|s| - 1] == '-' then StripHyphensRight(s[..|s| - 1]) else s
  }

  function StripHyphensLeft(s: string): string {
    if s != "" && s[0] == '-' then StripHyphensLeft(s[1..]) else s
  }

  function StripHyphens(s: string): string {
    StripHyphensRight(StripHyphensLeft(s))
  }

  /** One hyphen in place of each run of hyphens; after says that a hyphen has just been written. */
  function Squeeze(s: string, after: bool): string {
    if s == "" then ""
    else if s[0] == '-' then if after then Squeeze(s[1..], true) else "-" + Squeeze(s[1..], true)
    else [s[0]] + Squeeze(s[1..], false)
  }

  // ----- The code generator

  /** One hyphen in place of each run of characters that are neither letters nor digits. */
  function Hyphenate(s: string, after: bool): string {
    if s == "" then ""
    else if IsSlugChar(s[0]) then [s[0]] + Hyphenate(s[1..], false)
    else if after then Hyphenate(s[1..], true)
    else "-" + Hyphenate(s[1..], true)
  }

  function Slugify(lowered: string): string {
    Cut(StripHyphens(Squeeze(Hyphenate(Strip(lowered), false), false)))
  }

  function DefaultBranchName(number: nat, lowered: string): string {
    var slug := Slugify(lowered);
    PREFIX + Digits(number) + "-" + (if slug != "" then slug else "task")
  }

  // ----- The merge agent

  /** Letters and digits outside ASCII are given as a set. */
  function HyphenForEach(s: string, letters: set<char>): string {
    if s == "" then ""
    else [if IsSlugChar(s[0]) || s[0] in letters then s[0] else '-'] + HyphenForEach(s[1..], letters)
  }

  predicate HasPair(s: string) {
    exists i :: 0 <= i < |s| - 1 && s[i] == '-' && s[i + 1] == '-'
  }

  /** `s.replace("--", "-")` */
  function ReplacePairs(s: string): string
    decreases |s|
  {
    if |s| < 2 then s
    else if s[0] == '-' && s[1] == '-' then "-" + ReplacePairs(s[2..])
    else [s[0]] + ReplacePairs(s[1..])
  }

  lemma {:induction false} ReplacingKeepsSqueeze(s: string, after: bool)
    ensures Squeeze(ReplacePairs(s), after) == Squeeze(s, after)
    decreases |s|
  {
    if |s| >= 2 {
      var pair := s[0] == '-' && s[1] == '-';
      var rest := if pair then s[2..] else s[1..];
      ReplacingKeepsSqueeze(rest, s[0] == '-');
      assert ReplacePairs(s)[1..] == ReplacePairs(rest);
      if pair {
        assert s[1..][0] == '-' && s[1..][1..] == s[2..];
      }
    }
  }

  lemma {:induction false} ReplacingShortens(s: string)
    ensures |ReplacePairs(s)| <= |s|
    ensures HasPair(s) ==> |ReplacePairs(s)| < |s|
    decreases |s|
  {
    if |s| >= 2 {
      if s[0] == '-' && s[1] == '-' {
        ReplacingShortens(s[2..]);
      } else {
        ReplacingShortens(s[1..]);
        if i :| 0 <= i < |s| - 1 && s[i] == '-' && s[i + 1] == '-' {
          assert s[1..][i - 1] == '-' && s[1..][i] == '-';
        }
      }
    }
  }

  lemma {:induction false} NothingToSqueeze(s: string, after: bool)
    requires !HasPair(s) && !(after && s != "" && s[0] == '-')
    ensures Squeeze(s, after) == s
  {
    if s != "" {
      assert forall i :: 0 <= i < |s| - 1 ==> s[1..][i] == s[i + 1];
      NothingToSqueeze(s[1..], s[0] == '-');
    }
  }

  /** The loop that replaces pairs of hyphens until none is left. */
  method CollapseHyphens(text: string) returns (slug: string)
    ensures slug == Squeeze(text, false)
  {
    slug := text;
    while HasPair(slug)
      invariant Squeeze(slug, false) == Squeeze(text, false)
      decreases |slug|
    {
      ReplacingKeepsSqueeze(slug, false);
      ReplacingShortens(slug);
      slug := ReplacePairs(slug);
    }
    NothingToSqueeze(slug, false);
  }

  function MergeSlug(lowered: string, letters: set<char>): string {
    var slug := Squeeze(StripHyphens(HyphenForEach(lowered, letters)), false);
    StripHyphensRight(Cut(if slug == "" then "feature" else slug))
  }

  function MergeBranchName(number: Option<nat>, lowered: string, letters: set<char>): string {
    if number.Some? && number.value > 0 then PREFIX + Digits(number.value) + "-" + MergeSlug(lowered, letters)
    else PREFIX + MergeSlug(lowered, letters)
  }

  method MergeAgentBranchName(number: Option<nat>, lowered: string, letters: set<char>) returns (branch: string)
    ensures branch == MergeBranchName(number, lowered, letters)
  {
    var slug := StripHyphens(HyphenForEach(lowered, letters));
    slug := CollapseHyphens(slug);
    if slug == "" {
      slug := "feature";
    }
    slug := StripHyphensRight(Cut(slug));
    if number.Some? && number.value > 0 {
      return PREFIX + Digits(number.value) + "-" + slug;
    }
    return PREFIX + slug;
  }

  // ----- The dispatcher

  function IssuePrefix(m: nat): string {
    PREFIX + Digits(m) + "-"
  }

  /** The dispatcher takes the branch for one made for issue m. */
  predicate Recognises(m: nat, headRef: string) {
    IssuePrefix(m) <= Lower(Strip(headRef))
  }

  // ----- Laws

  predicate IsRefChar(c: char) {
    c == '/' || c == '-' || (!('A' <= c <= 'Z') && !IsSpace(c))
  }

  predicate IsRef(s: string) {
    forall i :: 0 <= i < |s| ==> IsRefChar(s[i])
  }

  lemma {:induction false} LowerKeepsRef(s: string)
    requires IsRef(s)
    ensures Lower(s) == s
  {
    if s != "" {
      assert forall i :: 0 <= i < |s[1..]| ==> s[1..][i] == s[i + 1];
      LowerKeepsRef(s[1..]);
    }
  }

  lemma RefIsReadAsIs(s: string)
    requires IsRef(s)
    ensures Lower(Strip(s)) == s
  {
    LowerKeepsRef(s);
    if s != "" {
      assert IsRefChar(s[0]) && IsRefChar(s[|s| - 1]);
    }
  }

  lemma PrefixCancels(a: string, b: string, c: string)
    ensures a + b <= a + c <==> b <= c
  {
    assert (a + c)[|a|..] == c && (a + b)[|a|..] == b;
    if a + b <= a + c {
      assert forall i :: 0 <= i < |b| ==> b[i] == (a + b)[|a| + i] == (a + c)[|a| + i] == c[i];
    }
  }

  lemma SameDigits(a: string, b: string, rest: string)
    requires AllDigits(a) && AllDigits(b) && a + "-" <= b + "-" + rest
    ensures a == b
  {
    var text := b + "-" + rest;
    assert text[|a|] == (a + "-")[|a|] == '-' && text[|b|] == '-';
    assert forall i :: 0 <= i < |a| ==> text[i] == (a + "-")[i] == a[i];
    assert forall i :: 0 <= i < |b| ==> text[i] == b[i];
  }

  /** The digits before the hyphen decide the issue. */
  lemma NumberDecides(m: nat, n: nat, rest: string)
    ensures Digits(m) + "-" <= Digits(n) + "-" + rest <==> m == n
  {
    DigitsDenote(m);
    DigitsDenote(n);
    if Digits(m) + "-" <= Digits(n) + "-" + rest {
      SameDigits(Digits(m), Digits(n), rest);
      DigitsAreInjective(m, n);
    }
  }

  lemma NumberedRefDecides(m: nat, n: nat, rest: string)
    requires IsRef(rest)
    ensures Recognises(m, PREFIX + Digits(n) + "-" + rest) <==> m == n
  {
    var numbered := Digits(n) + "-" + rest;
    Regroup(PREFIX, Digits(n), rest);
    NumberedIsRef(n, rest);
    JoinedIsRef(PREFIX, numbered);
    RefIsReadAsIs(PREFIX + numbered);
    NumberDecides(m, n, rest);
    PrefixCancels(PREFIX, Digits(m) + "-", numbered);
    Associate(PREFIX, Digits(m), "-");
  }

  lemma Regroup(a: string, b: string, c: string)
    ensures a + b + "-" + c == a + (b + "-" + c)
  {
  }

  lemma NumberedIsRef(n: nat, rest: string)
    requires IsRef(rest)
    ensures IsRef(Digits(n) + "-" + rest)
  {
    DigitsDenote(n);
    JoinedIsRef(Digits(n), "-");
    JoinedIsRef(Digits(n) + "-", rest);
  }

  lemma JoinedIsRef(a: string, b: string)
    requires IsRef(a) && IsRef(b)
    ensures IsRef(a + b)
  {
  }

  lemma PartIsRef(s: string, i: nat, t: string)
    requires IsRef(s) && i <= |s| && t <= s[i..]
    ensures IsRef(t)
  {
    assert forall k :: 0 <= k < |t| ==> t[k] == s[i..][k] == s[i + k];
  }

  // ----- What slugs are made of

  predicate IsSlug(s: string) {
    forall i :: 0 <= i < |s| ==> IsSlugChar(s[i]) || s[i] == '-'
  }

  lemma {:induction false} HyphenatedIsSlug(s: string, after: bool)
    ensures IsSlug(Hyphenate(s, after)) && !HasPair(Hyphenate(s, after))
    ensures after && Hyphenate(s, after) != "" ==> Hyphenate(s, after)[0] != '-'
  {
    if s != "" {
      HyphenatedIsSlug(s[1..], !IsSlugChar(s[0]));
    }
  }

  lemma {:induction false} LeftStripped(s: string)
    ensures exists k :: 0 <= k <= |s| && StripHyphensLeft(s) == s[k..]
    ensures StripHyphensLeft(s) != "" ==> StripHyphensLeft(s)[0] != '-'
  {
    if s != "" && s[0] == '-' {
      LeftStripped(s[1..]);
      var k :| 0 <= k <= |s[1..]| && StripHyphensLeft(s[1..]) == s[1..][k..];
      assert s[1..][k..] == s[k + 1..];
    } else {
      assert s[0..] == s;
    }
  }

  /** A slug has letters, digits and single hyphens, does not begin with a hyphen and has at most 48
      characters; so the second pass over the hyphens finds nothing to do. */
  lemma SlugIsClean(lowered: string)
    ensures
      var slug := Slugify(lowered);
      && |slug| <= MAX_SLUG && IsSlug(slug) && !HasPair(slug) && (slug != "" ==> slug[0] != '-')
    ensures Squeeze(Hyphenate(Strip(lowered), false), false) == Hyphenate(Strip(lowered), false)
  {
    var h := Hyphenate(Strip(lowered), false);
    HyphenatedIsSlug(Strip(lowered), false);
    NothingToSqueeze(h, false);
    LeftStripped(h);
    var k :| 0 <= k <= |h| && StripHyphensLeft(h) == h[k..];
    PartIsClean(h, k, Slugify(lowered));
  }

  lemma PartIsClean(h: string, i: nat, t: string)
    requires IsSlug(h) && !HasPair(h) && i <= |h| && t <= h[i..]
    ensures IsSlug(t) && !HasPair(t)
  {
    assert forall k :: 0 <= k < |t| ==> t[k] == h[i..][k] == h[i + k];
  }

  /** A branch of the code generator, with or without the suffix of a second attempt, is recognised as
      the branch of its own issue and of no other. */
  lemma BranchIsRecognisedExactly(m: nat, n: nat, lowered: string, suffix: string)
    requires IsSlug(suffix)
    ensures Recognises(m, DefaultBranchName(n, lowered) + suffix) <==> m == n
  {
    SlugIsClean(lowered);
    var slug := if Slugify(lowered) != "" then Slugify(lowered) else "task";
    assert IsSlug("task");
    NumberedRefDecides(m, n, slug + suffix);
    Associate(PREFIX + Digits(n) + "-", slug, suffix);
  }

  predicate Letters(letters: set<char>) {
    forall c :: c in letters ==> c > 127 as char && !IsSpace(c)
  }

  lemma {:induction false} HyphenForEachIsRef(s: string, letters: set<char>)
    requires Letters(letters)
    ensures IsRef(HyphenForEach(s, letters))
  {
    if s != "" {
      HyphenForEachIsRef(s[1..], letters);
    }
  }

  lemma {:induction false} SqueezeKeepsRef(s: string, after: bool)
    requires IsRef(s)
    ensures IsRef(Squeeze(s, after))
  {
    if s != "" {
      assert forall i :: 0 <= i < |s[1..]| ==> s[1..][i] == s[i + 1];
      SqueezeKeepsRef(s[1..], s[0] == '-');
    }
  }

  lemma MergeSlugIsRef(lowered: string, letters: set<char>)
    requires Letters(letters)
    ensures IsRef(MergeSlug(lowered, letters))
  {
    var h := HyphenForEach(lowered, letters);
    HyphenForEachIsRef(lowered, letters);
    StrippedIsRef(h);
    SqueezeKeepsRef(StripHyphens(h), false);
    var slug := Squeeze(StripHyphens(h), false);
    var named := if slug == "" then "feature" else slug;
    assert IsRef("feature") && named[0..] == named;
    PartIsRef(named, 0, MergeSlug(lowered, letters));
  }

  lemma StrippedIsRef(h: string)
    requires IsRef(h)
    ensures IsRef(StripHyphens(h))
  {
    LeftStripped(h);
    var k :| 0 <= k <= |h| && StripHyphensLeft(h) == h[k..];
    PartIsRef(h, k, StripHyphens(h));
  }

  /** The merge agent's branch for a numbered issue is recognised as its own and no other; its branch
      for an issue without a number is taken for issue m exactly when the slug begins with m and a
      hyphen. */
  lemma MergeBranchIsRecognisedExactly(m: nat, number: Option<nat>, lowered: string, letters: set<char>, suffix: string)
    requires Letters(letters) && IsSlug(suffix)
    ensures
      Recognises(m, MergeBranchName(number, lowered, letters) + suffix)
      <==> if number.Some? && number.value > 0 then m == number.value
           else Digits(m) + "-" <= MergeSlug(lowered, letters) + suffix
  {
    hide MergeSlug, Digits;
    var slug := MergeSlug(lowered, letters);
    MergeSlugIsRef(lowered, letters);
    if number.Some? && number.value > 0 {
      NumberedRefDecides(m, number.value, slug + suffix);
      Associate(PREFIX + Digits(number.value) + "-", slug, suffix);
    } else {
      Associate(PREFIX, slug, suffix);
      RefIsReadAsIs(PREFIX + (slug + suffix));
      PrefixCancels(PREFIX, Digits(m) + "-", slug + suffix);
      Associate(PREFIX, Digits(m), "-");
    }
  }

  lemma SlugOfShortTitle()
    ensures MergeSlug("7 a", {}) == "7-a"
  {
    assert "7 a"[1..] == " a" && " a"[1..] == "a" && "a"[1..] == "";
    assert HyphenForEach("a", {}) == "a";
    assert HyphenForEach(" a", {}) == "-a";
    assert HyphenForEach("7 a", {}) == "7-a";
    assert StripHyphens("7-a") == "7-a";
    NothingToSqueeze("7-a", false);
  }

  /** So a title that begins with a number makes such a branch pass for another issue's. */
  lemma UnnumberedTitleIsMistaken()
    ensures Recognises(7, MergeBranchName(None, "7 a", {}))
  {
    hide MergeSlug, Recognises;
    SlugOfShortTitle();
    assert Digits(7) == "7";
    MergeBranchIsRecognisedExactly(7, None, "7 a", {}, "");
    assert MergeBranchName(None, "7 a", {}) + "" == MergeBranchName(None, "7 a", {});
    assert "7-a" + "" == "7-a";
  }
}
