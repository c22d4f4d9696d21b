/** Code fences around an answer of a model: an answer that is one fenced object is read whole. */
module ReviewFences {
  import opened Basics
  import opened Json
  import opened JsonLaws
  import opened Texts
  import opened ReviewOutput

  predicate Spaces(s: string) {
    forall i :: 0 <= i < |s| ==> IsSpace(s[i])
  }

  /** Three backquotes, alone or with the word json in any case; or nothing. */
  predicate IsOpening(s: string) {
    || s == "" || s == "```"
    || (|s| == 7 && s[..3] == "```" && (s[3] == 'j' || s[3] == 'J') && (s[4] == 's' || s[4] == 'S')
        && (s[5] == 'o' || s[5] == 'O') && (s[6] == 'n' || s[6] == 'N'))
  }

  predicate Braced(s: string) {
    |s| >= 2 && s[0] == '{' && s[|s| - 1] == '}'
  }

  lemma {:induction false} SpacesInFront(front: string, s: string)
    requires Spaces(front) && s != "" && !IsSpace(s[0])
    ensures StripLeft(front + s) == s
  {
    if front == "" {
      assert front + s == s;
    } else {
      assert (front + s)[1..] == front[1..] + s;
      SpacesInFront(front[1..], s);
    }
  }

  lemma {:induction false} SpacesBehind(s: string, after: string)
    requires Spaces(after) && s != "" && !IsSpace(s[|s| - 1])
    ensures StripRight(s + after) == s
  {
    if after == "" {
      assert s + after == s;
    } else {
      assert (s + after)[..|s + after| - 1] == s + after[..|after| - 1];
      SpacesBehind(s, after[..|after| - 1]);
    }
  }

  lemma SpacesAround(front: string, s: string, after: string)
    requires Spaces(front) && Spaces(after) && s != "" && !IsSpace(s[0]) && !IsSpace(s[|s| - 1])
    ensures Strip(front + (s + after)) == s
  {
    SpacesInFront(front, s + after);
    SpacesBehind(s, after);
  }

  lemma OpeningIsDropped(opening: string, gap: string, rest: string)
    requires IsOpening(opening) && opening != "" && Spaces(gap) && rest != "" && rest[0] == '{'
    ensures WithoutOpeningFence(opening + (gap + rest)) == rest
  {
    var s := opening + (gap + rest);
    assert s[..3] == opening[..3] == FENCE;
    SpacesInFront(gap, rest);
    if |opening| == 3 {
      assert s[3..] == gap + rest;
      assert !IsJsonWord(s[3..]);
    } else {
      assert s[7..] == gap + rest;
      assert s[3..][0] == opening[3] && s[3..][1] == opening[4] && s[3..][2] == opening[5] && s[3..][3] == opening[6];
      assert IsJsonWord(s[3..]);
    }
  }

  lemma ClosingIsDropped(body: string, gap: string)
    requires Braced(body) && Spaces(gap)
    ensures WithoutClosingFence(body + (gap + FENCE)) == body
  {
    var s := body + (gap + FENCE);
    assert s[|s| - 3..] == FENCE && s[..|s| - 3] == body + gap;
    SpacesBehind(body, gap);
  }

  lemma NoFenceToDrop(s: string)
    requires s != ""
    ensures s[0] == '{' ==> WithoutOpeningFence(s) == s
    ensures s[|s| - 1] == '}' ==> WithoutClosingFence(s) == s
  {
    if |s| >= 3 {
      assert s[|s| - 3..][2] == s[|s| - 1];
    }
  }

  /** The text between the outer spaces: an opening fence or none, the object, a closing fence or none. */
  function Fenced(opening: string, a: string, body: string, b: string, closing: string): string {
    (if opening == "" then "" else opening + a) + (if closing == "" then body else body + (b + closing))
  }

  lemma FencesAreDropped(opening: string, a: string, body: string, b: string, closing: string)
    requires IsOpening(opening) && (closing == "" || closing == FENCE) && Spaces(a) && Spaces(b) && Braced(body)
    ensures WithoutClosingFence(WithoutOpeningFence(Fenced(opening, a, body, b, closing))) == body
  {
    hide WithoutOpeningFence, WithoutClosingFence;
    var rest := if closing == "" then body else body + (b + closing);
    assert rest[0] == '{';
    if opening == "" {
      assert Fenced(opening, a, body, b, closing) == rest;
      NoFenceToDrop(rest);
    } else {
      assert Fenced(opening, a, body, b, closing) == opening + (a + rest);
      OpeningIsDropped(opening, a, rest);
    }
    if closing == "" {
      NoFenceToDrop(body);
    } else {
      ClosingIsDropped(body, b);
    }
  }

  /** White space and fences around an object are removed, and nothing else. */
  lemma CleanedIsTheObject(output: string, front: string, opening: string, a: string, body: string, b: string,
                           closing: string, after: string)
    requires IsOpening(opening) && (closing == "" || closing == FENCE) && Braced(body)
    requires Spaces(front) && Spaces(a) && Spaces(b) && Spaces(after)
    requires output == front + (Fenced(opening, a, body, b, closing) + after)
    ensures Cleaned(output) == body
  {
    var s := Fenced(opening, a, body, b, closing);
    assert s[0] == (if opening == "" then '{' else '`');
    assert s[|s| - 1] == (if closing == "" then '}' else '`');
    SpacesAround(front, s, after);
    FencesAreDropped(opening, a, body, b, closing);
  }

  /** So a printed object that is the whole answer, fenced or not, is read as it is, whatever braces are in its
      strings. */
  lemma FencedObjectIsRead(output: string, front: string, opening: string, a: string, v: Json, b: string,
                           closing: string, after: string, r: Option<Json>)
    requires WellFormed(v) && v.Obj?
    requires IsOpening(opening) && (closing == "" || closing == FENCE)
    requires Spaces(front) && Spaces(a) && Spaces(b) && Spaces(after)
    requires output == front + (Fenced(opening, a, Print(v), b, closing) + after)
    ensures Reading(Cleaned(output), r) <==> r == Some(v)
  {
    hide Loads, Cleaned;
    var body := Print(v);
    assert body[0] == '{' && body[|body| - 1] == '}';
    CleanedIsTheObject(output, front, opening, a, body, b, closing, after);
    LoadsInvertsPrint(v);
  }
}
