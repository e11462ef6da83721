/** The message limit of a connection, a token bucket over real seconds. */
module RateLimit {

  const MESSAGES_PER_SECOND := 20.0

  function Least(a: real, b: real): real { if a <= b then a else b }

  function Refilled(tokens: real, elapsedMs: int): real {
    Least(MESSAGES_PER_SECOND, tokens + elapsedMs as real / 1000.0 * MESSAGES_PER_SECOND)
  }

  class MessageBudget {
    var tokens: real
    var refilledAt: int

    constructor (now: int)
      ensures tokens == MESSAGES_PER_SECOND && refilledAt == now
    {
      tokens, refilledAt := MESSAGES_PER_SECOND, now;
    }

    method Take(now: int) returns (accepted: bool)
      modifies this
      ensures refilledAt == now
      ensures accepted == (Refilled(old(tokens), now - old(refilledAt)) >= 1.0)
      ensures tokens == Refilled(old(tokens), now - old(refilledAt)) - (if accepted then 1.0 else 0.0)
    {
      var elapsed := (now - refilledAt) as real / 1000.0;
      refilledAt := now;
      tokens := Least(MESSAGES_PER_SECOND, tokens + elapsed * MESSAGES_PER_SECOND);
      if tokens < 1.0 {
        return false;
      }
      tokens := tokens - 1.0;
      return true;
    }
  }

  // ---------------------------------------------------------------- call sequences

  predicate NonDecreasing(start: int, times: seq<int>) {
    forall i, j :: 0 <= i <= j < |times| ==> start <= times[i] <= times[j]
  }

  /** The time of the call before call k, or of the construction. */
  function Previous(start: int, times: seq<int>, k: nat): int
    requires k <= |times|
  {
    if k == 0 then start else times[k - 1]
  }

  /** The tokens left after the first k calls. */
  function TokensAfter(start: int, times: seq<int>, k: nat): real
    requires k <= |times|
  {
    if k == 0 then MESSAGES_PER_SECOND
    else
      var full := Refilled(TokensAfter(start, times, k - 1), times[k - 1] - Previous(start, times, k - 1));
      if full >= 1.0 then full - 1.0 else full
  }

  predicate Accepted(start: int, times: seq<int>, k: nat)
    requires k < |times|
  {
    Refilled(TokensAfter(start, times, k), times[k] - Previous(start, times, k)) >= 1.0
  }

  /** How many of the calls from i up to but not including j are accepted. */
  function AcceptedBetween(start: int, times: seq<int>, i: nat, j: nat): nat
    requires i <= j <= |times|
  {
    if i == j then 0 else AcceptedBetween(start, times, i, j - 1) + (if Accepted(start, times, j - 1) then 1 else 0)
  }

  /** The calls of a connection, one after the other: the budget answers them as Accepted says. */
  method Serve(start: int, times: seq<int>) returns (answers: seq<bool>)
    ensures |answers| == |times| && forall k :: 0 <= k < |times| ==> answers[k] == Accepted(start, times, k)
  {
    var budget := new MessageBudget(start);
    answers := [];
    for k := 0 to |times|
      invariant fresh(budget)
      invariant budget.tokens == TokensAfter(start, times, k) && budget.refilledAt == Previous(start, times, k)
      invariant |answers| == k && forall i :: 0 <= i < k ==> answers[i] == Accepted(start, times, i)
    {
      var accepted := budget.Take(times[k]);
      answers := answers + [accepted];
    }
  }

  lemma {:induction false} TokensStayPositive(start: int, times: seq<int>, k: nat)
    requires NonDecreasing(start, times) && k <= |times|
    ensures 0.0 <= TokensAfter(start, times, k) <= MESSAGES_PER_SECOND
  {
    if k > 0 {
      TokensStayPositive(start, times, k - 1);
      assert times[k - 1] >= Previous(start, times, k - 1);
    }
  }

  /** What is spent and what is left is covered by the full bucket and the refill. */
  lemma {:induction false} SpentAndLeft(start: int, times: seq<int>, i: nat, j: nat)
    requires NonDecreasing(start, times) && i < j <= |times|
    ensures AcceptedBetween(start, times, i, j) as real + TokensAfter(start, times, j)
         <= MESSAGES_PER_SECOND + MESSAGES_PER_SECOND * (times[j - 1] - times[i]) as real / 1000.0
    decreases j
  {
    if i + 1 < j {
      SpentAndLeft(start, times, i, j - 1);
      assert Previous(start, times, j - 1) == times[j - 2];
    } else {
      assert AcceptedBetween(start, times, i, i) == 0;
    }
  }

  /** Of any calls i to j, both included, at most 20 plus 20 times the elapsed seconds are accepted. */
  lemma RateIsBounded(start: int, times: seq<int>, i: nat, j: nat)
    requires NonDecreasing(start, times) && i <= j < |times|
    ensures AcceptedBetween(start, times, i, j + 1) as real <= 20.0 + 20.0 * ((times[j] - times[i]) as real / 1000.0)
  {
    SpentAndLeft(start, times, i, j + 1);
    TokensStayPositive(start, times, j + 1);
  }

  /** A sender that keeps 50 ms between its messages never loses one. */
  lemma SteadySenderIsAccepted(start: int, times: seq<int>, k: nat)
    requires NonDecreasing(start, times) && k < |times|
    requires forall i :: 0 < i < |times| ==> times[i] - times[i - 1] >= 50
    ensures Accepted(start, times, k)
  {
    TokensStayPositive(start, times, k);
    if k > 0 {
      assert times[k] - Previous(start, times, k) >= 50;
    }
  }

  // ---------------------------------------------------------------- exactly which calls are accepted

  /** What calls i up to but not including k leave of a bucket that was full at call i. */
  function LeftSince(start: int, times: seq<int>, i: nat, k: nat): real
    requires i <= k < |times|
  {
    20.0 + 20.0 * ((times[k] - times[i]) as real / 1000.0) - AcceptedBetween(start, times, i, k) as real
  }

  /** The tokens at call k are what is left since the worst of the calls before it. */
  lemma {:induction false} TokensAreLeast(start: int, times: seq<int>, k: nat)
    requires NonDecreasing(start, times) && k < |times|
    ensures var tokens := Refilled(TokensAfter(start, times, k), times[k] - Previous(start, times, k));
            && (forall i :: 0 <= i <= k ==> tokens <= LeftSince(start, times, i, k))
            && (exists i :: 0 <= i <= k && tokens == LeftSince(start, times, i, k))
  {
    var tokens := Refilled(TokensAfter(start, times, k), times[k] - Previous(start, times, k));
    assert LeftSince(start, times, k, k) == 20.0;
    if k > 0 {
      TokensAreLeast(start, times, k - 1);
      var step := 20.0 * ((times[k] - times[k - 1]) as real / 1000.0);
      var spent := if Accepted(start, times, k - 1) then 1.0 else 0.0;
      forall i | 0 <= i < k
        ensures LeftSince(start, times, i, k) == LeftSince(start, times, i, k - 1) - spent + step
      {
      }
      var before := Refilled(TokensAfter(start, times, k - 1), times[k - 1] - Previous(start, times, k - 1));
      var i :| 0 <= i <= k - 1 && before == LeftSince(start, times, i, k - 1);
      assert tokens == 20.0 || tokens == LeftSince(start, times, i, k);
    }
  }

  /** A call is accepted exactly when it would not exceed 20 messages plus 20 a second since any
      earlier call, itself included. */
  lemma AcceptedExactly(start: int, times: seq<int>, k: nat)
    requires NonDecreasing(start, times) && k < |times|
    ensures Accepted(start, times, k)
       <==> forall i :: 0 <= i <= k ==>
              AcceptedBetween(start, times, i, k) as real + 1.0
              <= 20.0 + 20.0 * ((times[k] - times[i]) as real / 1000.0)
  {
    TokensAreLeast(start, times, k);
    hide TokensAfter, Refilled, AcceptedBetween;
    assert forall i :: 0 <= i <= k ==>
      (LeftSince(start, times, i, k) >= 1.0
       <==> AcceptedBetween(start, times, i, k) as real + 1.0
            <= 20.0 + 20.0 * ((times[k] - times[i]) as real / 1000.0));
  }
}
