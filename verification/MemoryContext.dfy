/** Merging and ranking of memory matches in `agents/memory_agent.py`. */
module MemoryContext {
  import opened Basics

  /** Scores are compared only, so they are real numbers here. */
  datatype Match = Match(path: string, summary: string, score: real, source: string)

  const MAX_MATCHES := 5

  function Key(m: Match): string {
    m.path + "|" + m.summary
  }

  ghost predicate DistinctKeys(ms: seq<Match>) {
    forall i, j :: 0 <= i < j < |ms| ==> Key(ms[i]) != Key(ms[j])
  }

  /** A dictionary by key, in the order of first insertion; a match replaces a lower one in its place. */
  function Upsert(ms: seq<Match>, m: Match): seq<Match> {
    if ms == [] then [m]
    else if Key(ms[0]) == Key(m) then [if m.score > ms[0].score then m else ms[0]] + ms[1..]
    else [ms[0]] + Upsert(ms[1..], m)
  }

  function Merged(items: seq<Match>): seq<Match> {
    if items == [] then [] else Upsert(Merged(items[..|items| - 1]), items[|items| - 1])
  }

  /** In front of the matches that score no higher. */
  function Place(m: Match, ranked: seq<Match>): seq<Match> {
    if ranked == [] || ranked[0].score <= m.score then [m] + ranked else [ranked[0]] + Place(m, ranked[1..])
  }

  /** Stable sorting by descending score. */
  function Ranked(ms: seq<Match>): seq<Match> {
    if ms == [] then [] else Place(ms[0], Ranked(ms[1..]))
  }

  function Top(ms: seq<Match>): seq<Match> {
    if |ms| <= MAX_MATCHES then ms else ms[..MAX_MATCHES]
  }

  ghost predicate Descending(ms: seq<Match>) {
    forall i, j :: 0 <= i < j < |ms| ==> ms[i].score >= ms[j].score
  }

  ghost function Keys(ms: seq<Match>): set<string> {
    set m | m in ms :: Key(m)
  }

  /** At most five items, by descending score, one for each key and the best of it; an item of another
      key is left out only when there are five, and then scores no higher than any of them. */
  ghost predicate BestMatches(r: seq<Match>, items: seq<Match>) {
    && |r| <= 5 && Descending(r)
    && (forall i, j :: 0 <= i < j < |r| ==> !Alike(r[i], r[j]))
    && (forall m :: m in r ==> m in items && forall x :: x in items && Alike(x, m) ==> x.score <= m.score)
    && (forall x :: x in items && (forall m :: m in r ==> !Alike(x, m)) ==>
            |r| == 5 && forall m :: m in r ==> x.score <= m.score)
  }

  /** Path and summary, written one after the other with a bar between them, are the same. */
  predicate Alike(a: Match, b: Match) {
    a.path + "|" + a.summary == b.path + "|" + b.summary
  }

  /** The same by keys. */
  ghost predicate BestByKey(r: seq<Match>, items: seq<Match>) {
    && |r| <= MAX_MATCHES && Descending(r) && DistinctKeys(r)
    && (forall m :: m in r ==> m in items && forall x :: x in items && Key(x) == Key(m) ==> x.score <= m.score)
    && (forall x :: x in items && Key(x) !in Keys(r) ==>
            |r| == MAX_MATCHES && forall m :: m in r ==> x.score <= m.score)
  }

  lemma AlikeByKey(r: seq<Match>, items: seq<Match>)
    requires BestByKey(r, items)
    ensures BestMatches(r, items)
  {
    hide Key;
    forall a: Match, b: Match ensures Alike(a, b) <==> Key(a) == Key(b) {
      SameKey(a, b);
    }
  }

  lemma SameKey(a: Match, b: Match)
    ensures Alike(a, b) <==> Key(a) == Key(b)
  {
  }

  lemma SameMembers(r: seq<Match>, items: seq<Match>, others: seq<Match>)
    requires BestByKey(r, items) && forall m :: m in items <==> m in others
    ensures BestByKey(r, others)
  {
    hide Key;
  }

  method MergeMatches(items: seq<Match>) returns (merged: seq<Match>)
    ensures merged == Merged(items)
  {
    merged := [];
    for i := 0 to |items|
      invariant merged == Merged(items[..i])
    {
      assert items[..i + 1][..i] == items[..i];
      merged := Upsert(merged, items[i]);
    }
    assert items[..|items|] == items;
  }

  method BuildMatches(persisted: seq<Match>, semantic: seq<Match>, lexical: seq<Match>) returns (matches: seq<Match>)
    ensures matches == Top(Ranked(Merged(persisted + semantic + Ranked(lexical))))
    ensures BestMatches(matches, persisted + semantic + lexical)
  {
    hide BestMatches, BestByKey, Key;
    var sorted := Ranked(lexical);
    var merged := MergeMatches(persisted + semantic + sorted);
    matches := Top(Ranked(merged));
    BestAreReturned(persisted + semantic + sorted);
    RankedSorts(lexical);
    forall m ensures m in persisted + semantic + sorted <==> m in persisted + semantic + lexical {
      assert m in sorted <==> m in multiset(sorted);
    }
    SameMembers(matches, persisted + semantic + sorted, persisted + semantic + lexical);
    AlikeByKey(matches, persisted + semantic + lexical);
  }

  // ----- Merging

  /** Every item is represented by one with its key that scores no lower. */
  ghost predicate Represents(ms: seq<Match>, items: seq<Match>) {
    && DistinctKeys(ms)
    && (forall m :: m in ms ==> m in items)
    && (forall x :: x in items ==> Represented(ms, x))
  }

  ghost predicate Represented(ms: seq<Match>, x: Match) {
    exists m :: m in ms && Key(m) == Key(x) && x.score <= m.score
  }

  lemma InHeadOrTail(ms: seq<Match>)
    requires ms != []
    ensures forall m :: m in ms <==> m == ms[0] || m in ms[1..]
  {
    HeadAndTail(ms);
  }

  lemma {:induction false} UpsertKeys(ms: seq<Match>, m: Match)
    ensures forall y :: y in Upsert(ms, m) ==> y in ms || y == m
  {
    if ms != [] {
      InHeadOrTail(ms);
      InHeadOrTail(Upsert(ms, m));
      if Key(ms[0]) != Key(m) {
        UpsertKeys(ms[1..], m);
        assert Upsert(ms, m)[1..] == Upsert(ms[1..], m);
      } else {
        assert Upsert(ms, m)[1..] == ms[1..];
      }
    }
  }

  lemma {:induction false} UpsertRepresents(ms: seq<Match>, m: Match, y: Match)
    requires y in ms || y == m
    ensures Represented(Upsert(ms, m), y)
  {
    var after := Upsert(ms, m);
    if ms == [] {
      assert after[0] in after;
    } else {
      InHeadOrTail(ms);
      InHeadOrTail(after);
      if Key(ms[0]) != Key(m) {
        assert after[1..] == Upsert(ms[1..], m);
        if y != ms[0] {
          UpsertRepresents(ms[1..], m, y);
        }
      } else {
        assert after[1..] == ms[1..];
      }
    }
  }

  lemma TailIsDistinct(ms: seq<Match>)
    requires ms != [] && DistinctKeys(ms)
    ensures DistinctKeys(ms[1..])
  {
    forall i, j | 0 <= i < j < |ms[1..]| ensures Key(ms[1..][i]) != Key(ms[1..][j]) {
      assert ms[1..][i] == ms[i + 1] && ms[1..][j] == ms[j + 1];
    }
  }

  lemma {:induction false} UpsertKeepsKeysDistinct(ms: seq<Match>, m: Match)
    requires DistinctKeys(ms)
    ensures DistinctKeys(Upsert(ms, m))
  {
    if ms != [] {
      var after := Upsert(ms, m);
      assert forall i :: 0 < i < |ms| ==> Key(ms[i]) != Key(ms[0]);
      TailIsDistinct(ms);
      if Key(ms[0]) != Key(m) {
        UpsertKeepsKeysDistinct(ms[1..], m);
        UpsertKeys(ms[1..], m);
        assert forall i :: 0 < i < |after| ==> after[i] in after[1..];
        assert forall y :: y in after[1..] ==> y in ms[1..] || y == m;
      }
    }
  }

  lemma {:induction false} MergedRepresents(items: seq<Match>)
    ensures Represents(Merged(items), items)
  {
    if items != [] {
      var n := |items| - 1;
      MergedRepresents(items[..n]);
      OneMoreRepresented(Merged(items[..n]), items[..n], items[n]);
      assert items == items[..n] + [items[n]];
    }
  }

  lemma OneMoreRepresented(ms: seq<Match>, items: seq<Match>, m: Match)
    requires Represents(ms, items)
    ensures Represents(Upsert(ms, m), items + [m])
  {
    UpsertKeys(ms, m);
    UpsertKeepsKeysDistinct(ms, m);
    UpsertRepresents(ms, m, m);
    forall x | x in items ensures Represented(Upsert(ms, m), x) {
      assert Represented(ms, x);
      var y :| y in ms && Key(y) == Key(x) && x.score <= y.score;
      UpsertRepresents(ms, m, y);
    }
  }

  lemma {:induction false} UpsertReplaces(ms: seq<Match>, m: Match, y: Match)
    requires DistinctKeys(ms) && y in Upsert(ms, m)
    ensures y in ms || (y == m && forall z :: z in ms && Key(z) == Key(m) ==> z.score < m.score)
  {
    if ms != [] {
      InHeadOrTail(ms);
      InHeadOrTail(Upsert(ms, m));
      TailIsDistinct(ms);
      if Key(ms[0]) != Key(m) {
        assert Upsert(ms, m)[1..] == Upsert(ms[1..], m);
        if y != ms[0] {
          UpsertReplaces(ms[1..], m, y);
        }
      } else {
        assert Upsert(ms, m)[1..] == ms[1..];
        forall z | z in ms && Key(z) == Key(m) ensures z == ms[0] {
          OnePerKey(ms, z, ms[0]);
        }
      }
    }
  }

  /** Of several best items with one key the first is kept. */
  lemma {:induction false} FirstBestIsKept(items: seq<Match>, m: Match)
    requires m in Merged(items)
    ensures exists i :: 0 <= i < |items| && items[i] == m
                        && forall j :: 0 <= j < i && Key(items[j]) == Key(m) ==> items[j].score < m.score
  {
    var n := |items| - 1;
    var front, last := items[..n], items[n];
    MergedRepresents(front);
    UpsertReplaces(Merged(front), last, m);
    if m in Merged(front) {
      FirstBestIsKept(front, m);
      var i :| 0 <= i < n && front[i] == m &&
                     forall j :: 0 <= j < i && Key(front[j]) == Key(m) ==> front[j].score < m.score;
      assert items[i] == m && forall j :: 0 <= j < i ==> items[j] == front[j];
    } else {
      assert items[n] == m;
      forall j | 0 <= j < n && Key(items[j]) == Key(m) ensures items[j].score < m.score {
        assert front[j] == items[j] && Represented(Merged(front), front[j]);
      }
    }
  }

  // ----- Ranking

  lemma {:induction false} PlaceKeepsMembers(m: Match, ranked: seq<Match>)
    ensures multiset(Place(m, ranked)) == multiset(ranked) + multiset{m}
    ensures forall x :: x in Place(m, ranked) ==> x in ranked || x == m
  {
    if !(ranked == [] || ranked[0].score <= m.score) {
      PlaceKeepsMembers(m, ranked[1..]);
      HeadAndTail(ranked);
      HeadAndTail(Place(m, ranked));
      InHeadOrTail(ranked);
      InHeadOrTail(Place(m, ranked));
      assert Place(m, ranked)[1..] == Place(m, ranked[1..]);
    }
  }

  lemma {:induction false} PlaceKeepsOrder(m: Match, ranked: seq<Match>)
    requires Descending(ranked)
    ensures Descending(Place(m, ranked))
  {
    if !(ranked == [] || ranked[0].score <= m.score) {
      var after := Place(m, ranked[1..]);
      PlaceKeepsOrder(m, ranked[1..]);
      PlaceKeepsMembers(m, ranked[1..]);
      forall i | 0 <= i < |after| ensures after[i].score <= ranked[0].score {
        assert after[i] in after;
      }
      assert Place(m, ranked) == [ranked[0]] + after;
    }
  }

  lemma {:induction false} RankedSorts(ms: seq<Match>)
    ensures Descending(Ranked(ms)) && multiset(Ranked(ms)) == multiset(ms)
  {
    if ms != [] {
      RankedSorts(ms[1..]);
      PlaceKeepsOrder(ms[0], Ranked(ms[1..]));
      PlaceKeepsMembers(ms[0], Ranked(ms[1..]));
      HeadAndTail(ms);
    }
  }

  function OfScore(ms: seq<Match>, score: real): seq<Match> {
    if ms == [] then []
    else if ms[0].score == score then [ms[0]] + OfScore(ms[1..], score)
    else OfScore(ms[1..], score)
  }

  lemma {:induction false} PlaceIsStable(m: Match, ranked: seq<Match>, score: real)
    ensures OfScore(Place(m, ranked), score) ==
            if m.score == score then [m] + OfScore(ranked, score) else OfScore(ranked, score)
  {
    if ranked == [] || ranked[0].score <= m.score {
      assert Place(m, ranked)[1..] == ranked;
    } else {
      PlaceIsStable(m, ranked[1..], score);
      assert Place(m, ranked)[1..] == Place(m, ranked[1..]);
    }
  }

  /** Among matches of equal score the order is kept. */
  lemma {:induction false} RankingIsStable(ms: seq<Match>, score: real)
    ensures OfScore(Ranked(ms), score) == OfScore(ms, score)
  {
    if ms != [] {
      RankingIsStable(ms[1..], score);
      PlaceIsStable(ms[0], Ranked(ms[1..]), score);
    }
  }

  lemma PermutationKeepsKeysDistinct(a: seq<Match>, b: seq<Match>)
    requires DistinctKeys(a) && multiset(a) == multiset(b)
    ensures DistinctKeys(b)
  {
    forall i, j | 0 <= i < j < |b| ensures Key(b[i]) != Key(b[j]) {
      assert b[i] in multiset(a) && b[j] in multiset(a);
      if b[i] == b[j] {
        Twice(b, i, j);
        NotTwice(a, b[i]);
      }
    }
  }

  lemma Twice(b: seq<Match>, i: nat, j: nat)
    requires i < j < |b| && b[i] == b[j]
    ensures multiset(b)[b[i]] >= 2
  {
    assert b == b[..j] + [b[j]] + b[j + 1..];
    assert b[..j][i] in multiset(b[..j]);
  }

  lemma {:induction false} NotTwice(a: seq<Match>, m: Match)
    requires DistinctKeys(a)
    ensures multiset(a)[m] <= 1
  {
    if a != [] {
      HeadAndTail(a);
      TailIsDistinct(a);
      HeadIsNotInTail(a);
      NotTwice(a[1..], m);
      assert multiset(a) == multiset{a[0]} + multiset(a[1..]);
    }
  }

  lemma HeadIsNotInTail(a: seq<Match>)
    requires a != [] && DistinctKeys(a)
    ensures a[0] !in a[1..]
  {
    assert forall i :: 0 <= i < |a[1..]| ==> a[1..][i] == a[i + 1] && Key(a[i + 1]) != Key(a[0]);
  }

  /** What is returned: at most five items, by descending score, one for each key and the best of it; no
      item that is left out scores higher than a returned one. */
  lemma BestAreReturned(items: seq<Match>)
    ensures BestByKey(Top(Ranked(Merged(items))), items)
  {
    var ranked := Ranked(Merged(items));
    RankedRepresents(items);
    TopOfRanked(ranked);
    forall m, x | m in Top(ranked) && x in items && Key(x) == Key(m) ensures x.score <= m.score {
      RepresentedByBest(ranked, items, x, m);
    }
    forall x | x in items && Key(x) !in Keys(Top(ranked))
      ensures |Top(ranked)| == MAX_MATCHES && forall m :: m in Top(ranked) ==> x.score <= m.score
    {
      LeftOut(ranked, items, x);
    }
  }

  lemma TopOfRanked(ranked: seq<Match>)
    requires Descending(ranked) && DistinctKeys(ranked)
    ensures Descending(Top(ranked)) && DistinctKeys(Top(ranked)) && forall m :: m in Top(ranked) ==> m in ranked
  {
  }

  lemma OnePerKey(ms: seq<Match>, a: Match, b: Match)
    requires DistinctKeys(ms) && a in ms && b in ms && Key(a) == Key(b)
    ensures a == b
  {
    var i :| 0 <= i < |ms| && ms[i] == a;
    var j :| 0 <= j < |ms| && ms[j] == b;
    assert i == j;
  }

  lemma RankedRepresents(items: seq<Match>)
    ensures Represents(Ranked(Merged(items)), items) && Descending(Ranked(Merged(items)))
  {
    var merged, ranked := Merged(items), Ranked(Merged(items));
    MergedRepresents(items);
    RankedSorts(merged);
    PermutationKeepsKeysDistinct(merged, ranked);
    forall m ensures m in ranked <==> m in merged {
      assert m in multiset(ranked) <==> m in multiset(merged);
    }
    forall x | x in items ensures Represented(ranked, x) {
      assert Represented(merged, x);
    }
  }

  lemma RepresentedByBest(ms: seq<Match>, items: seq<Match>, x: Match, m: Match)
    requires Represents(ms, items) && x in items && m in ms && Key(x) == Key(m)
    ensures x.score <= m.score
  {
    assert Represented(ms, x);
    var y :| y in ms && Key(y) == Key(x) && x.score <= y.score;
    OnePerKey(ms, y, m);
  }

  lemma LeftOut(ms: seq<Match>, items: seq<Match>, x: Match)
    requires Represents(ms, items) && Descending(ms) && x in items && Key(x) !in Keys(Top(ms))
    ensures |Top(ms)| == MAX_MATCHES && forall m :: m in Top(ms) ==> x.score <= m.score
  {
    assert Represented(ms, x);
    var y :| y in ms && Key(y) == Key(x) && x.score <= y.score;
    var i: nat :| i < |ms| && ms[i] == y;
    if i < |Top(ms)| {
      KeyOfTop(ms, i);
    }
  }

  lemma KeyOfTop(ms: seq<Match>, k: nat)
    requires k < |Top(ms)|
    ensures Key(ms[k]) in Keys(Top(ms))
  {
    assert Top(ms)[k] == ms[k] && Top(ms)[k] in Top(ms);
  }
}
