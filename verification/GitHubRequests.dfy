/** Retries and pagination of `agents/github_client.py`. */
module GitHubRequests {
  import opened Basics

  // ----- Retries

  /** What one attempt comes to.  A reply carries its status, whether its body is JSON, whether a 403
      stands for a rate limit, and the delay it asks for, if any can be read. */
  datatype Attempt =
    | TransportFailure
    | Reply(status: int, json: bool, rateLimited: bool, retryAfter: Option<real>)

  datatype Result = Payload | NoContent | NotJson | ApiError(status: int) | TransportError

  predicate Success(a: Attempt) {
    a.Reply? && 200 <= a.status < 300
  }

  predicate Retryable(a: Attempt) {
    || a.TransportFailure?
    || (!Success(a) && (a.status == 429 || a.status >= 500 || (a.status == 403 && a.rateLimited)))
  }

  function Judge(a: Attempt): Result {
    if a.TransportFailure? then TransportError
    else if !Success(a) then ApiError(a.status)
    else if a.status == 204 then NoContent
    else if a.json then Payload else NotJson
  }

  /** The delay doubled n times: b * 2^n. */
  function Doubled(b: real, n: nat): real {
    if n == 0 then b else 2.0 * Doubled(b, n - 1)
  }

  function Max(a: real, b: real): real {
    if a < b then b else a
  }

  /** The delay before the retry with the given number, from 1. */
  function ResolveBackoff(backoff: real, attempt: nat, a: Attempt): real {
    var own := Doubled(backoff, if attempt == 0 then 0 else attempt - 1);
    if a.TransportFailure? || a.retryAfter.None? then own else Max(own, Max(0.0, a.retryAfter.value))
  }

  /** The time slept before k retries. */
  function Slept(backoff: real, answers: nat -> Attempt, k: nat): real {
    if k == 0 then 0.0 else Slept(backoff, answers, k - 1) + ResolveBackoff(backoff, k, answers(k - 1))
  }

  /** The answers are those the attempts will get, in turn. */
  method Request(answers: nat -> Attempt, maxRetries: nat, backoff: real)
    returns (r: Result, attempts: nat, slept: real)
    requires backoff >= 0.0
    ensures 1 <= attempts <= maxRetries + 1
    ensures
      var failsForNow := (a: Attempt) =>
          a.TransportFailure? || a.status == 429 || a.status >= 500 || (a.status == 403 && a.rateLimited);
      && (forall k :: 0 <= k < attempts - 1 ==> failsForNow(answers(k)))
      && (failsForNow(answers(attempts - 1)) ==> attempts == maxRetries + 1)
    ensures match answers(attempts - 1)
            case TransportFailure => r == TransportError
            case Reply(status, json, _, _) =>
              r == if status < 200 || status >= 300 then ApiError(status)
                   else if status == 204 then NoContent
                   else if json then Payload
                   else NotJson
    ensures slept == Slept(backoff, answers, attempts - 1)
  {
    var retriesDone := 0;
    slept := 0.0;
    while true
      invariant 0 <= retriesDone <= maxRetries
      invariant forall k :: 0 <= k < retriesDone ==> Retryable(answers(k))
      invariant slept == Slept(backoff, answers, retriesDone)
      decreases maxRetries - retriesDone
    {
      var answer := answers(retriesDone);
      if answer.TransportFailure? {
        if retriesDone < maxRetries {
          retriesDone := retriesDone + 1;
          DelaysAreNotNegative(backoff, retriesDone - 1);
          slept := Sleep(slept, ResolveBackoff(backoff, retriesDone, answer));
          continue;
        }
        return TransportError, retriesDone + 1, slept;
      }
      if Success(answer) {
        return Judge(answer), retriesDone + 1, slept;
      }
      if Retryable(answer) && retriesDone < maxRetries {
        retriesDone := retriesDone + 1;
        DelaysAreNotNegative(backoff, retriesDone - 1);
        slept := Sleep(slept, ResolveBackoff(backoff, retriesDone, answer));
        continue;
      }
      return ApiError(answer.status), retriesDone + 1, slept;
    }
  }

  method Sleep(slept: real, time: real) returns (total: real)
    requires time >= 0.0
    ensures total == slept + time
  {
    total := slept;
    if time > 0.0 {
      total := total + time;
    }
  }

  /** The delay before a retry is the longer one of two: the first delay, doubled for every retry before, and
      what the reply asks for. */
  lemma DelayIsTheLonger(backoff: real, attempt: nat, a: Attempt)
    requires backoff >= 0.0 && attempt >= 1
    ensures
      var delay, own := ResolveBackoff(backoff, attempt, a), Doubled(backoff, attempt - 1);
      if a.TransportFailure? || a.retryAfter.None? then delay == own
      else delay >= own && delay >= a.retryAfter.value && (delay == own || delay == a.retryAfter.value)
  {
    DelaysAreNotNegative(backoff, attempt - 1);
  }

  /** The reply to attempt i, from 0, does not ask for more than the delay that is due anyway. */
  predicate Patient(backoff: real, i: nat, a: Attempt) {
    a.TransportFailure? || a.retryAfter.None? || a.retryAfter.value <= Doubled(backoff, i)
  }

  /** After k retries the client has slept for at least b * 2^k - b, and for exactly that long if and only
      if no reply asked for more. */
  lemma {:induction false} SleepsExponentially(backoff: real, answers: nat -> Attempt, k: nat)
    requires backoff >= 0.0
    ensures Slept(backoff, answers, k) >= Doubled(backoff, k) - backoff
    ensures Slept(backoff, answers, k) == Doubled(backoff, k) - backoff <==>
            forall i :: 0 <= i < k ==> Patient(backoff, i, answers(i))
  {
    if k > 0 {
      SleepsExponentially(backoff, answers, k - 1);
      DelaysAreNotNegative(backoff, k - 1);
      assert ResolveBackoff(backoff, k, answers(k - 1)) >= Doubled(backoff, k - 1);
    }
  }

  lemma {:induction false} DelaysAreNotNegative(b: real, n: nat)
    requires b >= 0.0
    ensures Doubled(b, n) >= b
  {
    if n > 0 {
      DelaysAreNotNegative(b, n - 1);
    }
  }

  // ----- Pagination

  const PER_PAGE := 100

  /** What comes of asking for a page: its items, whether it announces another page, and whether an
      exception escapes.  The announcement comes with a second, unretried request for the same page; a
      failing reply to that one announces nothing. */
  datatype Page = Page(items: seq<int>, hasNext: bool, raises: bool)

  /** An unchanging server; beyond its pages everything is empty. */
  type Server = seq<Page>

  function PageAt(s: Server, p: nat): Page {
    if 1 <= p <= |s| then s[p - 1] else Page([], false, false)
  }

  /** The items of the first k pages. */
  function FirstPages(s: Server, k: nat): seq<int> {
    if k == 0 then [] else FirstPages(s, k - 1) + PageAt(s, k).items
  }

  /** The loop goes on to page p + 1: the page had items and announced another one, and neither the number
      of pages nor the number of items is used up. */
  predicate GoesOn(s: Server, maxPages: int, p: nat) {
    && PageAt(s, p).items != [] && PageAt(s, p).hasNext
    && p + 1 <= maxPages && |FirstPages(s, p)| < maxPages * PER_PAGE
  }

  /** The page is asked for, unless an exception stops the loop before. */
  predicate Reached(s: Server, maxPages: int, p: nat) {
    if p <= 1 then p == 1 && maxPages >= 1 else Reached(s, maxPages, p - 1) && GoesOn(s, maxPages, p - 1)
  }

  /** Page k is the last one asked for; with k = 0 there is none. */
  predicate EndsAfter(s: Server, maxPages: int, k: nat) {
    (k > 0 ==> Reached(s, maxPages, k)) && !Reached(s, maxPages, k + 1)
  }

  lemma {:induction false} ReachedInTurn(s: Server, maxPages: int, p: nat, q: nat)
    requires 1 <= q <= p && Reached(s, maxPages, p)
    ensures Reached(s, maxPages, q)
    decreases p
  {
    if q < p {
      ReachedInTurn(s, maxPages, p - 1, q);
    }
  }

  /** A page is reached at which an exception escapes. */
  ghost predicate Escapes(s: Server, maxPages: int) {
    exists p: nat :: Reached(s, maxPages, p) && PageAt(s, p).raises
  }

  /** The items of the pages up to the last one asked for. */
  ghost predicate IsPrefixOfPages(s: Server, maxPages: int, all: seq<int>) {
    exists k: nat :: EndsAfter(s, maxPages, k) && all == FirstPages(s, k)
  }

  /** The loop is about to ask for the page, or to end because the limits are used up. */
  ghost predicate Underway(s: Server, maxPages: int, page: nat, all: seq<int>) {
    && page >= 1 && all == FirstPages(s, page - 1)
    && (forall p :: 1 <= p < page ==> Reached(s, maxPages, p) && !PageAt(s, p).raises)
    && (page > 1 ==> page <= maxPages && PageAt(s, page - 1).items != [] && PageAt(s, page - 1).hasNext)
  }

  lemma NextPage(s: Server, maxPages: int, page: nat, all: seq<int>)
    requires Underway(s, maxPages, page, all)
    ensures
      var more := all + PageAt(s, page).items;
      if |all| >= maxPages * PER_PAGE then EndsAfter(s, maxPages, page - 1)
      else
        && Reached(s, maxPages, page) && more == FirstPages(s, page)
        && (PageAt(s, page).raises
            || if PageAt(s, page).items == [] || !PageAt(s, page).hasNext || page + 1 > maxPages
               then EndsAfter(s, maxPages, page)
               else Underway(s, maxPages, page + 1, more))
  {
  }

  method GetAllIssues(s: Server, maxPages: int) returns (r: Option<seq<int>>)
    ensures r.None? ==> Escapes(s, maxPages)
    ensures r.Some? ==> !Escapes(s, maxPages) && IsPrefixOfPages(s, maxPages, r.value)
    ensures r.Some? && PagesFit(s) ==> (r.value == FirstPages(s, |s|) <==> Complete(s, maxPages))
  {
    hide Reached, EndsAfter;
    var page: nat := 1;
    var all: seq<int> := [];
    while |all| < maxPages * PER_PAGE
      invariant Underway(s, maxPages, page, all)
      decreases maxPages - page
    {
      NextPage(s, maxPages, page, all);
      var answer := PageAt(s, page);
      if answer.raises {
        return None;
      }
      if answer.items == [] {
        assert all + [] == all;
        LastPage(s, maxPages, page);
        return Some(all);
      }
      all := all + answer.items;
      if !answer.hasNext {
        LastPage(s, maxPages, page);
        return Some(all);
      }
      page := page + 1;
      if page > maxPages {
        LastPage(s, maxPages, page - 1);
        return Some(all);
      }
    }
    NextPage(s, maxPages, page, all);
    LastPage(s, maxPages, page - 1);
    return Some(all);
  }

  lemma LastPage(s: Server, maxPages: int, k: nat)
    requires EndsAfter(s, maxPages, k) && forall p :: 1 <= p <= k ==> !PageAt(s, p).raises
    ensures !Escapes(s, maxPages) && IsPrefixOfPages(s, maxPages, FirstPages(s, k))
    ensures PagesFit(s) ==> (FirstPages(s, k) == FirstPages(s, |s|) <==> Complete(s, maxPages))
  {
    if PagesFit(s) {
      AllOrCutShort(s, maxPages, k);
    }
    forall p: nat | Reached(s, maxPages, p) ensures !PageAt(s, p).raises {
      if p > k {
        ReachedInTurn(s, maxPages, p, k + 1);
      }
    }
  }

  // ----- What pagination guarantees

  /** GitHub's pages have at most the number of items asked for. */
  predicate PagesFit(s: Server) {
    forall i :: 0 <= i < |s| ==> |s[i].items| <= 100
  }

  lemma {:induction false} FirstPagesFit(s: Server, k: nat)
    requires PagesFit(s)
    ensures |FirstPages(s, k)| <= k * PER_PAGE
  {
    if k > 0 {
      FirstPagesFit(s, k - 1);
    }
  }

  /** The number of items never ends the loop where the number of pages would not. */
  lemma ItemGuardIsIdle(s: Server, maxPages: int, p: nat)
    requires PagesFit(s) && p + 1 <= maxPages
    ensures |FirstPages(s, p)| < maxPages * PER_PAGE
  {
    FirstPagesFit(s, p);
  }

  /** With larger pages it can: here after the first of two pages. */
  lemma ItemGuardCanFire(page: seq<int>)
    requires |page| == 200
    ensures !Reached([Page(page, true, false), Page(page, false, false)], 2, 2)
  {
    var s := [Page(page, true, false), Page(page, false, false)];
    assert FirstPages(s, 1) == FirstPages(s, 0) + PageAt(s, 1).items;
  }

  /** Every page before p has items and announces another page. */
  predicate Announced(s: Server, p: nat) {
    forall q :: 1 <= q < p ==> PageAt(s, q).items != [] && PageAt(s, q).hasNext
  }

  lemma {:induction false} ReachedExactly(s: Server, maxPages: int, p: nat)
    requires PagesFit(s)
    ensures Reached(s, maxPages, p) <==> 1 <= p <= maxPages && Announced(s, p)
  {
    if p > 1 {
      ReachedExactly(s, maxPages, p - 1);
      if p <= maxPages {
        ItemGuardIsIdle(s, maxPages, p - 1);
      }
    }
  }

  /** No item lies beyond the page limit or behind a page that is empty or announces nothing. */
  predicate Complete(s: Server, maxPages: int) {
    forall p :: 1 <= p <= |s| && PageAt(s, p).items != [] ==> p <= maxPages && Announced(s, p)
  }

  lemma {:induction false} LaterPages(s: Server, k: nat, n: nat)
    requires k <= n
    ensures FirstPages(s, k) <= FirstPages(s, n)
    ensures FirstPages(s, k) == FirstPages(s, n) <==> forall p :: k < p <= n ==> PageAt(s, p).items == []
    decreases n
  {
    if k < n {
      LaterPages(s, k, n - 1);
      assert |FirstPages(s, n)| == |FirstPages(s, n - 1)| + |PageAt(s, n).items|;
    }
  }

  /** The whole collection is returned exactly when it is complete in that sense; otherwise the result is a
      proper beginning of it, without an error. */
  lemma AllOrCutShort(s: Server, maxPages: int, k: nat)
    requires PagesFit(s) && EndsAfter(s, maxPages, k)
    ensures FirstPages(s, k) <= FirstPages(s, |s|)
    ensures FirstPages(s, k) == FirstPages(s, |s|) <==> Complete(s, maxPages)
  {
    ReachedExactly(s, maxPages, k);
    ReachedExactly(s, maxPages, k + 1);
    if k <= |s| {
      LaterPages(s, k, |s|);
    } else {
      LaterPages(s, |s|, k);
    }
    CompleteExactly(s, maxPages, k);
  }

  lemma CompleteExactly(s: Server, maxPages: int, k: nat)
    requires k > 0 ==> k <= maxPages && Announced(s, k)
    requires !(k + 1 <= maxPages && Announced(s, k + 1))
    ensures Complete(s, maxPages) <==> forall p :: k < p <= |s| ==> PageAt(s, p).items == []
  {
    forall p: nat | k < p && p <= maxPages && Announced(s, p) ensures Announced(s, k + 1) {
    }
    if forall p :: k < p <= |s| ==> PageAt(s, p).items == [] {
      forall p | 1 <= p <= |s| && PageAt(s, p).items != [] ensures p <= maxPages && Announced(s, p) {
      }
    }
  }

  /** Two pages with an issue each, and the header request for the first one fails: only the first issue is
      returned, without an error. */
  lemma LostAnnouncement()
    ensures
      var s := [Page([1], false, false), Page([2], false, false)];
      && EndsAfter(s, 10, 1) && !Escapes(s, 10)
      && FirstPages(s, 1) == [1] && FirstPages(s, |s|) == [1, 2]
  {
    var s := [Page([1], false, false), Page([2], false, false)];
    assert FirstPages(s, 0) == [];
    assert FirstPages(s, 1) == FirstPages(s, 0) + [1];
    assert FirstPages(s, 2) == FirstPages(s, 1) + [2];
    LastPage(s, 10, 1);
  }
}
