/** Which spellings of a path the review agent takes for the same file. */
module ReviewPaths {
  import opened Basics
  import opened Texts
  import opened ReviewGate

  /** Any number of times "./". */
  function Dots(n: nat): string {
    if n == 0 then "" else "./" + Dots(n - 1)
  }

  /** A path as it is in the repository. */
  predicate Plain(path: string) {
    && path != "" && path[|path| - 1] != ':' && !("./" <= path) && !Contains(path, "::")
    && !("workspace/" <= path) && !("/workspace/" <= path) && !("repo/" <= path)
  }

  /** The same text, with some slashes written as backslashes. */
  predicate Backslashed(value: string, text: string) {
    && |value| == |text|
    && forall i :: 0 <= i < |text| ==>
         if value[i] == '\\' then text[i] == '/' else value[i] == text[i]
  }

  lemma {:induction false} SlashesOf(value: string, text: string)
    requires Backslashed(value, text)
    ensures Slashes(value) == text
  {
    if value != "" {
      SlashesOf(value[1..], text[1..]);
      assert text == [text[0]] + text[1..];
    }
  }

  lemma {:induction false} DotsAreDropped(n: nat, s: string)
    requires !("./" <= s)
    ensures WithoutDots(Dots(n) + s) == s
  {
    if n == 0 {
      assert Dots(0) + s == s;
    } else {
      assert (Dots(n) + s)[2..] == Dots(n - 1) + s;
      assert "./" <= Dots(n) + s;
      DotsAreDropped(n - 1, s);
    }
  }

  lemma TestIsDropped(path: string, test: string)
    requires path != "" && !Contains(path, "::") && (test == "" || "::" <= test)
    requires path[|path| - 1] != ':'
    ensures WithoutTest(path + test) == path
  {
    if test == "" {
      assert path + test == path;
      ContainsExactly(path, "::");
    } else {
      var s := path + test;
      assert s[|path|..] == test;
      forall j | 0 <= j < |path| ensures !("::" <= s[j..]) {
        if j == |path| - 1 {
          assert s[j..][0] == path[j];
        } else {
          assert s[j..][..2] == path[j..][..2];
        }
      }
      IndexOfExactly(s, "::", |path|);
    }
  }

  lemma {:induction false} FirstRootDecides(s: string, roots: seq<string>, k: nat)
    requires k < |roots| && roots[k] <= s && forall j :: 0 <= j < k ==> !(roots[j] <= s)
    ensures WithoutRoot(s, roots) == s[|roots[k]|..]
  {
    if k > 0 {
      FirstRootDecides(s, roots[1..], k - 1);
    }
  }

  lemma {:induction false} NoRootIsThere(s: string, roots: seq<string>)
    requires forall j :: 0 <= j < |roots| ==> !(roots[j] <= s)
    ensures WithoutRoot(s, roots) == s
  {
    if roots != [] {
      NoRootIsThere(s, roots[1..]);
    }
  }

  lemma PrefixCancels(a: string, b: string, c: string)
    ensures a + b <= a + c <==> b <= c
  {
    assert (a + c)[|a|..] == c && (a + b)[|a|..] == b;
    if a + b <= a + c {
      assert forall i :: 0 <= i < |b| ==> b[i] == (a + b)[|a| + i] == (a + c)[|a| + i] == c[i];
    }
  }

  lemma RootNames()
    ensures ROOTS == ["workspace/" + "repo/", "/workspace/" + "repo/", "workspace/", "/workspace/", "repo/"]
  {
    assert "workspace/" + "repo/" == "workspace/repo/" && "/workspace/" + "repo/" == "/workspace/repo/";
  }

  /** A text with none of the roots in front. */
  predicate Rootless(s: string) {
    s != "" && !("./" <= s) && !("workspace/" <= s) && !("/workspace/" <= s) && !("repo/" <= s)
  }

  lemma LongRootIsDropped(k: nat, rest: string)
    requires k < 2 && Rootless(rest)
    ensures WithoutRoot(ROOTS[k] + rest, ROOTS) == rest && !("./" <= ROOTS[k] + rest)
  {
    var s := ROOTS[k] + rest;
    RootNames();
    assert s[0] == ROOTS[k][0];
    FirstRootDecides(s, ROOTS, k);
  }

  lemma ShortRootIsDropped(k: nat, rest: string)
    requires 2 <= k < 5 && Rootless(rest)
    ensures WithoutRoot(ROOTS[k] + rest, ROOTS) == rest && !("./" <= ROOTS[k] + rest)
  {
    var s := ROOTS[k] + rest;
    RootNames();
    assert s[0] == ROOTS[k][0];
    PrefixCancels("workspace/", "repo/", rest);
    PrefixCancels("/workspace/", "repo/", rest);
    FirstRootDecides(s, ROOTS, k);
  }

  lemma NoRootIsDropped(rest: string)
    requires Rootless(rest)
    ensures WithoutRoot(rest, ROOTS) == rest
  {
    RootNames();
    NoRootIsThere(rest, ROOTS);
  }

  lemma RootIsDropped(root: string, rest: string)
    requires root in ["", "workspace/repo/", "/workspace/repo/", "workspace/", "/workspace/", "repo/"]
    requires Rootless(rest)
    ensures WithoutRoot(root + rest, ROOTS) == rest && !("./" <= root + rest)
  {
    if root == "" {
      assert root + rest == rest;
      NoRootIsDropped(rest);
    } else if root == ROOTS[0] || root == ROOTS[1] {
      LongRootIsDropped(if root == ROOTS[0] then 0 else 1, rest);
    } else {
      ShortRootIsDropped(if root == ROOTS[2] then 2 else if root == ROOTS[3] then 3 else 4, rest);
    }
  }

  lemma PlainWithTest(path: string, test: string)
    requires Plain(path) && (test == "" || "::" <= test)
    ensures Rootless(path + test)
  {
    var s := path + test;
    assert path <= s;
    forall w: string | w <= s && |w| > |path| ensures ':' in w {
      assert w[|path|] == s[|path|] == test[0];
    }
  }

  /** Leading "./", one of the five roots, the name of a test and backslashes make no difference, nor does white
      space around: such a spelling names the file at the path. */
  lemma SpellingsOfOnePath(value: string, dots: nat, root: string, path: string, test: string)
    requires Plain(path) && (test == "" || "::" <= test)
    requires root in ["", "workspace/repo/", "/workspace/repo/", "workspace/", "/workspace/", "repo/"]
    requires Backslashed(Strip(value), Dots(dots) + (root + (path + test)))
    ensures NormalPath(value) == path
  {
    hide Strip;
    SlashesOf(Strip(value), Dots(dots) + (root + (path + test)));
    PlainWithTest(path, test);
    RootIsDropped(root, path + test);
    DotsAreDropped(dots, root + (path + test));
    TestIsDropped(path, test);
  }
}
