/** Searching for a fixed word in a text. */
module Texts {
  import opened Basics

  predicate Contains(s: string, m: string) {
    exists k :: 0 <= k <= |s| && m <= s[k..]
  }

  /** The first position of m in s. */
  function IndexOf(s: string, m: string): (r: Option<nat>)
    ensures r.Some? ==> r.value + |m| <= |s| && m <= s[r.value..]
  {
    if m <= s then Some(0)
    else if s == "" then None
    else
      var r := IndexOf(s[1..], m);
      if r.None? then None else Some(r.value + 1)
  }

  lemma {:induction false} IndexOfIsFirst(s: string, m: string, j: nat)
    requires j <= |s| && m <= s[j..]
    ensures IndexOf(s, m).Some? && IndexOf(s, m).value <= j
  {
    if j > 0 && !(m <= s) {
      assert s[1..][j - 1..] == s[j..];
      IndexOfIsFirst(s[1..], m, j - 1);
    }
  }

  lemma ContainsExactly(s: string, m: string)
    ensures Contains(s, m) <==> IndexOf(s, m).Some?
  {
    if k :| 0 <= k <= |s| && m <= s[k..] {
      IndexOfIsFirst(s, m, k);
    }
  }

  /** The word cannot start where its first character is missing. */
  lemma NoStart(s: string, m: string, k: nat)
    requires m != "" && k < |s| && s[k] != m[0]
    ensures !(m <= s[k..])
  {
    assert s[k..][0] == s[k];
  }

  /** Text without the first character of the word holds no part of it at its front. */
  lemma ContainsAfter(a: string, b: string, m: string)
    requires m != "" && m[0] !in a
    ensures Contains(a + b, m) <==> Contains(b, m)
  {
    var s := a + b;
    forall k | 0 <= k < |a| ensures !(m <= s[k..]) {
      assert s[k] == a[k] && a[k] in a;
      NoStart(s, m, k);
    }
    forall k | |a| <= k <= |s| ensures s[k..] == b[k - |a|..] {
    }
    if k :| 0 <= k <= |b| && m <= b[k..] {
      assert s[|a| + k..] == b[k..];
    }
  }

  lemma ContainsNothingOf(a: string, m: string)
    requires m != "" && m[0] !in a
    ensures !Contains(a, m)
  {
    forall k | 0 <= k < |a| ensures !(m <= a[k..]) {
      assert a[k] in a;
      NoStart(a, m, k);
    }
  }

  /** The word does not reach over a character it does not have. */
  lemma NoStraddle(s: string, m: string, k: nat, n: nat)
    requires k <= n < |s| && s[n] !in m && n < k + |m|
    ensures !(m <= s[k..])
  {
    assert s[k..][n - k] == s[n];
    assert m[n - k] in m;
  }

  lemma SameStart(s: string, t: string, m: string, k: nat)
    requires k + |m| <= |s| && s <= t
    ensures m <= s[k..] <==> m <= t[k..]
  {
    assert s[k..][..|m|] == t[k..][..|m|];
  }

  lemma NotAcross(a: string, c: char, b: string, m: string)
    requires m != "" && c !in m
    ensures forall k :: 0 <= k <= |a| && m <= (a + [c] + b)[k..] ==> Contains(a, m)
  {
    var s := a + [c] + b;
    assert a <= s && s[|a|] == c;
    forall k: nat | k <= |a| ensures m <= s[k..] ==> Contains(a, m) {
      if k + |m| <= |a| {
        SameStart(a, s, m, k);
      } else {
        NoStraddle(s, m, k, |a|);
      }
    }
  }

  /** A character that is not in the word separates its occurrences. */
  lemma ContainsAround(a: string, c: char, b: string, m: string)
    requires m != "" && c !in m
    ensures Contains(a + [c] + b, m) <==> Contains(a, m) || Contains(b, m)
  {
    var s := a + [c] + b;
    assert a <= s && s[|a|] == c;
    NotAcross(a, c, b, m);
    forall k | |a| < k <= |s| && m <= s[k..] ensures Contains(b, m) {
      assert s[k..] == b[k - |a| - 1..];
    }
    if k :| 0 <= k <= |a| && m <= a[k..] {
      SameStart(a, s, m, k);
    }
    if k :| 0 <= k <= |b| && m <= b[k..] {
      assert s[|a| + 1 + k..] == b[k..];
    }
  }

  /** A separator and the word after a text without the word: that is the first occurrence. */
  lemma FirstAfterSeparator(a: string, c: char, m: string, rest: string)
    requires m != "" && c !in m && !Contains(a, m)
    ensures IndexOf(a + [c] + m + rest, m) == Some(|a| + 1)
  {
    var s := a + [c] + (m + rest);
    assert s == a + [c] + m + rest;
    NotAcross(a, c, m + rest, m);
    assert s[|a| + 1..] == m + rest;
    IndexOfExactly(s, m, |a| + 1);
  }

  lemma {:induction false} IndexOfExactly(s: string, m: string, k: nat)
    requires k <= |s| && m <= s[k..]
    requires forall j :: 0 <= j < k ==> !(m <= s[j..])
    ensures IndexOf(s, m) == Some(k)
  {
    if k > 0 {
      assert s[0..] == s;
      forall j | 0 <= j <= k - 1 ensures s[1..][j..] == s[j + 1..] {
      }
      IndexOfExactly(s[1..], m, k - 1);
    }
  }

  lemma {:induction false} FirstInFront(a: string, m: string, rest: string)
    requires IndexOf(a, m).Some?
    ensures IndexOf(a + rest, m) == IndexOf(a, m)
  {
    assert a[0..] == a && (a + rest)[0..] == a + rest;
    SameStart(a, a + rest, m, 0);
    if !(m <= a) {
      assert (a + rest)[1..] == a[1..] + rest;
      FirstInFront(a[1..], m, rest);
    }
  }

  // ----- Lines

  function Join(lines: seq<string>): string {
    if lines == [] then ""
    else if |lines| == 1 then lines[0]
    else lines[0] + "\n" + Join(lines[1..])
  }

  lemma {:induction false} JoinAppend(a: seq<string>, b: seq<string>)
    requires a != [] && b != []
    ensures Join(a + b) == Join(a) + "\n" + Join(b)
  {
    if |a| == 1 {
      assert (a + b)[1..] == b;
    } else {
      assert (a + b)[1..] == a[1..] + b;
      JoinAppend(a[1..], b);
      Regroup(a[0], Join(a[1..]), Join(b));
    }
  }

  lemma Regroup(a: string, b: string, c: string)
    ensures a + "\n" + (b + "\n" + c) == a + "\n" + b + "\n" + c
  {
  }

  /** A word without a line break is in a text exactly when it is in one of the lines. */
  lemma {:induction false} JoinContains(lines: seq<string>, m: string)
    requires m != "" && '\n' !in m
    ensures Contains(Join(lines), m) <==> exists i :: 0 <= i < |lines| && Contains(lines[i], m)
  {
    if lines == [] {
      ContainsNothingOf("", m);
    } else if |lines| > 1 {
      var rest := lines[1..];
      ContainsAround(lines[0], '\n', Join(rest), m);
      assert lines[0] + ['\n'] + Join(rest) == Join(lines);
      JoinContains(rest, m);
      if i :| 0 <= i < |lines| && Contains(lines[i], m) {
        assert i > 0 ==> rest[i - 1] == lines[i];
      }
      if i :| 0 <= i < |rest| && Contains(rest[i], m) {
        assert lines[i + 1] == rest[i];
      }
    }
  }

  // ----- White space

  /** `str.isspace` of one character. */
  predicate IsSpace(c: char) {
    || c == ' ' || 9 as char <= c <= 13 as char || 28 as char <= c <= 31 as char
    || c == '\U{0085}' || c == '\U{00a0}' || c == '\U{1680}' || '\U{2000}' <= c <= '\U{200a}'
    || c == '\U{2028}' || c == '\U{2029}' || c == '\U{202f}' || c == '\U{205f}' || c == '\U{3000}'
  }

  function StripLeft(s: string): string {
    if s != "" && IsSpace(s[0]) then StripLeft(s[1..]) else s
  }

  function StripRight(s: string): (r: string)
    ensures r <= s
  {
    if s != "" && IsSpace(s[|s| - 1]) then StripRight(s[..|s| - 1]) else s
  }

  function Strip(s: string): string {
    StripRight(StripLeft(s))
  }

  /** `lower()` on ASCII text. */
  function Lower(s: string): string {
    if s == "" then ""
    else [if 'A' <= s[0] <= 'Z' then (s[0] as int + 32) as char else s[0]] + Lower(s[1..])
  }

  /** Capitals become the small letters in the same places of the alphabet; nothing else changes. */
  lemma {:induction false} LowerAt(s: string, i: nat)
    requires i < |s|
    ensures |Lower(s)| == |s|
    ensures if 'A' <= s[i] <= 'Z'
            then Lower(s)[i] as int - 'a' as int == s[i] as int - 'A' as int
            else Lower(s)[i] == s[i]
  {
    if i > 0 {
      LowerAt(s[1..], i - 1);
    } else if |s| > 1 {
      LowerAt(s[1..], 0);
    } else {
      assert s[1..] == "";
    }
  }

  /** The 29 characters of white space by their code points. */
  lemma SpaceCodes(c: char)
    ensures IsSpace(c) <==>
            c as int in {9, 10, 11, 12, 13, 28, 29, 30, 31, 32, 133, 160, 5760, 8192, 8193, 8194, 8195, 8196, 8197,
                         8198, 8199, 8200, 8201, 8202, 8232, 8233, 8239, 8287, 12288}
  {
  }
}
