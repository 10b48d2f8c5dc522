/**
 * The send loop of the gateway: up to four attempts with exponential backoff on
 * rate limiting, one fallback without the context token, and exactly one record
 * in the circuit breaker per call that gets past it.
 */
module ResilientSending {
  import opened Wrappers
  import opened CircuitBreaking

  const ATTEMPTS := 4
  const RATE_LIMITED := -2
  const SESSION_EXPIRED := -14

  /** What the server answers to an attempt; a missing errcode counts as 0. */
  datatype Response = Reply(errcode: int, msgId: Option<string>) | NetworkError

  datatype SendResult =
    | Sent(msgId: Option<string>)
    | CircuitOpen
    | Rejected(errcode: int)
    | Unreachable
    | RetriesExhausted

  type Token = Option<string>

  /** `responses(i)` is the answer to attempt `i`, should it be made. */
  type Server = nat -> Response

  predicate Code(responses: Server, i: nat, code: int) {
    responses(i).Reply? && responses(i).errcode == code
  }

  /** Some attempt before `i` was answered with an expired session. */
  predicate ExpiredBefore(responses: Server, i: nat) {
    exists j: nat :: j < i && Code(responses, j, SESSION_EXPIRED)
  }

  /** The context token attempt `i` carries: the caller's, until a session expires under it. */
  function TokenAt(responses: Server, token: Token, i: nat): Token {
    if ExpiredBefore(responses, i) then None else token
  }

  /** The answer to attempt `i` leads to another attempt. */
  predicate Retries(responses: Server, token: Token, i: nat) {
    || Code(responses, i, RATE_LIMITED)
    || (Code(responses, i, SESSION_EXPIRED) && TokenAt(responses, token, i).Some?)
  }

  /** The first attempt from `i` on whose answer settles the call, or `ATTEMPTS`. */
  function SettledFrom(responses: Server, token: Token, i: nat): (n: nat)
    requires i <= ATTEMPTS
    ensures i <= n <= ATTEMPTS
    ensures forall j: nat :: i <= j < n ==> Retries(responses, token, j)
    ensures n < ATTEMPTS ==> !Retries(responses, token, n)
    decreases ATTEMPTS - i
  {
    if i < ATTEMPTS && Retries(responses, token, i) then SettledFrom(responses, token, i + 1) else i
  }

  function Settled(responses: Server, token: Token): nat {
    SettledFrom(responses, token, 0)
  }

  /** `1 << i` */
  function Pow2(i: nat): (p: nat)
    ensures p >= 1
  {
    if i == 0 then 1 else 2 * Pow2(i - 1)
  }

  /** Seconds slept after the first `n` attempts. */
  function Backoff(responses: Server, n: nat): nat {
    if n == 0 then 0
    else Backoff(responses, n - 1) + (if Code(responses, n - 1, RATE_LIMITED) then Pow2(n - 1) else 0)
  }

  function ResultAt(responses: Server, n: nat): SendResult {
    if n >= ATTEMPTS then RetriesExhausted
    else match responses(n)
      case NetworkError => Unreachable
      case Reply(errcode, msgId) => if errcode == 0 then Sent(msgId) else Rejected(errcode)
  }

  function TokensSent(responses: Server, token: Token, n: nat): (sent: seq<Token>)
    ensures |sent| == n && forall i :: 0 <= i < n ==> sent[i] == TokenAt(responses, token, i)
  {
    seq(n, i requires 0 <= i < n => TokenAt(responses, token, i))
  }

  /** Result, requests and backoff of a call past the gate. */
  function Outcome(responses: Server, token: Token): (SendResult, seq<Token>, nat) {
    var n := Settled(responses, token);
    (ResultAt(responses, n), TokensSent(responses, token, if n < ATTEMPTS then n + 1 else ATTEMPTS), Backoff(responses, n))
  }

  /** Outcomes recorded one after the other between two readings of a clock that does not run backwards. */
  ghost predicate During(others: seq<CircuitBreaking.Outcome>, start: int, end: int) {
    forall i :: 0 <= i < |others| && others[i].Failed? ==>
      start <= others[i].at <= end && forall j :: i < j < |others| && others[j].Failed? ==> others[i].at <= others[j].at
  }

  /** Other calls record their outcomes while this one waits for answers. */
  method OthersRecord(breaker: CircuitBreaker, others: seq<CircuitBreaking.Outcome>, ghost start: int, ghost end: int)
    requires breaker.Valid() && breaker.ClockAt(start) && start <= end && During(others, start, end)
    modifies breaker
    ensures breaker.Valid() && breaker.history == old(breaker.history) + others && breaker.ClockAt(end)
  {
    assert forall t: int :: start <= t ==> breaker.ClockAt(t);
    hide CircuitBreaker.Valid, CircuitBreaker.ClockAt;
    for i := 0 to |others|
      invariant breaker.Valid() && breaker.history == old(breaker.history) + others[..i] && breaker.ClockAt(end)
      invariant forall j :: i <= j < |others| && others[j].Failed? ==> breaker.ClockAt(others[j].at)
    {
      assert others[..i + 1] == others[..i] + [others[i]];
      match others[i]
      case Succeeded => breaker.RecordSuccess();
      case Failed(at) => breaker.RecordFailure(at);
    }
    assert others[..|others|] == others;
  }

  /**
   * The whole call.  `startNow` and `endNow` are clock readings when the gate is
   * checked and when the outcome is recorded, and `others` is what other calls
   * record into the shared breaker in between.  `sent` are the tokens of the
   * requests made and `slept` the seconds of backoff.
   */
  method ResilientSend(
    breaker: CircuitBreaker, token: Token, responses: Server, startNow: int, others: seq<CircuitBreaking.Outcome>, endNow: int)
    returns (result: SendResult, sent: seq<Token>, slept: nat)
    requires breaker.Valid() && breaker.ClockAt(startNow) && startNow <= endNow && During(others, startNow, endNow)
    modifies breaker
    ensures breaker.Valid()
    ensures old(ShouldBeOpen(breaker.history, breaker.cfg, startNow)) ==>
      result == CircuitOpen && sent == [] && slept == 0 && breaker.history == old(breaker.history)
    ensures old(!ShouldBeOpen(breaker.history, breaker.cfg, startNow)) ==>
      && (result, sent, slept) == Outcome(responses, token)
      && breaker.history == old(breaker.history) + others + [if result.Sent? then Succeeded else Failed(endNow)]
  {
    hide ShouldBeOpen, Replay, SinceSuccess, TokensSent, SettledFrom, Backoff;
    sent, slept := [], 0;
    var isOpen := breaker.IsOpen(startNow);
    if isOpen {
      return CircuitOpen, sent, slept;
    }
    OthersRecord(breaker, others, startNow, endNow);
    var current := token;
    NothingYet(responses, token);
    for attempt := 0 to ATTEMPTS
      invariant breaker.Valid() && breaker.history == old(breaker.history) + others && breaker.ClockAt(endNow)
      invariant current == TokenAt(responses, token, attempt)
      invariant SettledFrom(responses, token, attempt) == Settled(responses, token)
      invariant sent == TokensSent(responses, token, attempt)
      invariant slept == Backoff(responses, attempt)
    {
      AttemptMade(responses, token, attempt);
      sent := sent + [current];
      match responses(attempt)
      case NetworkError =>
        breaker.RecordFailure(endNow);
        return Unreachable, sent, slept;
      case Reply(errcode, msgId) =>
        if errcode == 0 {
          breaker.RecordSuccess();
          return Sent(msgId), sent, slept;
        }
        if errcode == RATE_LIMITED {
          slept := slept + Pow2(attempt);
          continue;
        }
        if errcode == SESSION_EXPIRED && current.Some? {
          current := None;
          continue;
        }
        breaker.RecordFailure(endNow);
        return Rejected(errcode), sent, slept;
    }
    breaker.RecordFailure(endNow);
    result := RetriesExhausted;
  }

  lemma NothingYet(responses: Server, token: Token)
    ensures TokenAt(responses, token, 0) == token
    ensures TokensSent(responses, token, 0) == [] && Backoff(responses, 0) == 0
  {
  }

  /** What one attempt adds: the request, the token for the next one, and where the search for the outcome stands. */
  lemma AttemptMade(responses: Server, token: Token, i: nat)
    requires i < ATTEMPTS
    ensures TokensSent(responses, token, i) + [TokenAt(responses, token, i)] == TokensSent(responses, token, i + 1)
    ensures Retries(responses, token, i) ==> SettledFrom(responses, token, i + 1) == SettledFrom(responses, token, i)
    ensures !Retries(responses, token, i) ==> SettledFrom(responses, token, i) == i
    ensures Backoff(responses, i + 1) ==
      Backoff(responses, i) + (if Code(responses, i, RATE_LIMITED) then Pow2(i) else 0)
    ensures TokenAt(responses, token, i + 1) ==
      if Code(responses, i, SESSION_EXPIRED) then None else TokenAt(responses, token, i)
  {
  }

  // ----- The contract of the loop, for every sequence of answers -----

  /** A call past the gate sends at least one request and at most four, the first with the caller's token. */
  lemma AtMostFourSends(responses: Server, token: Token)
    ensures 1 <= |Outcome(responses, token).1| <= 4
    ensures Outcome(responses, token).1[0] == token
  {
  }

  lemma {:induction false} BackoffBelow(responses: Server, n: nat)
    ensures Backoff(responses, n) <= Pow2(n) - 1
    ensures Backoff(responses, n) == Pow2(n) - 1 <==> forall i: nat :: i < n ==> Code(responses, i, RATE_LIMITED)
  {
    if n == 0 {
    } else {
      BackoffBelow(responses, n - 1);
      if Backoff(responses, n) == Pow2(n) - 1 {
        forall i: nat | i < n
          ensures Code(responses, i, RATE_LIMITED)
        {
        }
      }
    }
  }

  lemma {:induction false} Pow2Monotone(a: nat, b: nat)
    requires a <= b
    ensures Pow2(a) <= Pow2(b) && (a < b ==> Pow2(a) < Pow2(b))
  {
    if a < b {
      Pow2Monotone(a, b - 1);
    }
  }

  /** The backoff of a call is at most 15 s, and reaches that exactly when all four attempts are rate limited. */
  lemma BackoffAtMost15(responses: Server, token: Token)
    ensures var slept := Outcome(responses, token).2;
      && slept <= 15
      && (slept == 15 <==> forall i: nat :: i < 4 ==> Code(responses, i, RATE_LIMITED))
  {
    var n := Settled(responses, token);
    assert Pow2(2) == 4 && Pow2(4) == 16;
    hide Backoff, Pow2;
    BackoffBelow(responses, n);
    Pow2Monotone(n, 4);
    if forall i: nat :: i < 4 ==> Code(responses, i, RATE_LIMITED) {
      assert forall i: nat :: i < ATTEMPTS ==> Retries(responses, token, i);
      assert n == ATTEMPTS;
    }
  }

  /** The first `k` requests carry `token`, the others none. */
  ghost predicate CarriedUntil(sent: seq<Token>, token: Token, k: nat) {
    forall i :: 0 <= i < |sent| ==> sent[i] == if i < k then token else None
  }

  /** The token is dropped at most once and never restored: the requests carry it up to a point, and none after. */
  lemma TokenDroppedOnce(responses: Server, token: Token)
    ensures exists k: nat :: 0 < k <= |Outcome(responses, token).1| && CarriedUntil(Outcome(responses, token).1, token, k)
  {
    var n := |Outcome(responses, token).1|;
    var k := FirstDrop(responses, n);
    forall i: nat | i < n
      ensures Outcome(responses, token).1[i] == if i < k then token else None
    {
      assert ExpiredBefore(responses, i) <==> i >= k;
    }
    assert !ExpiredBefore(responses, 0);
    assert CarriedUntil(Outcome(responses, token).1, token, k);
  }

  lemma {:induction false} FirstDrop(responses: Server, n: nat) returns (k: nat)
    ensures k <= n && forall i: nat :: i < n ==> (ExpiredBefore(responses, i) <==> i >= k)
  {
    if n == 0 {
      k := 0;
    } else {
      k := FirstDrop(responses, n - 1);
      if k == n - 1 && !ExpiredBefore(responses, n - 1) {
        k := n;
      }
      forall i: nat | i < n
        ensures ExpiredBefore(responses, i) <==> i >= k
      {
        if i == n - 1 && k < n - 1 {
          assert ExpiredBefore(responses, k);
          var j: nat :| j < k && Code(responses, j, SESSION_EXPIRED);
          assert j < i;
        }
      }
    }
  }

  /** A call succeeds exactly when some attempt is accepted and every earlier answer asks for another attempt. */
  lemma SucceedsExactlyWhen(responses: Server, token: Token)
    ensures Outcome(responses, token).0.Sent? <==>
      exists n: nat :: n < 4 && Code(responses, n, 0) && forall i: nat :: i < n ==> Retries(responses, token, i)
  {
    var m := Settled(responses, token);
    if n: nat :| n < 4 && Code(responses, n, 0) && forall i: nat :: i < n ==> Retries(responses, token, i) {
      assert !Retries(responses, token, n);
      assert m == n;
    }
    if ResultAt(responses, m).Sent? {
      assert m < 4 && Code(responses, m, 0);
    }
  }

  /** Retrying stops after two expired sessions in a row: the second one has no token left to drop. */
  lemma SecondExpiryIsFinal(responses: Server, token: Token, n: nat)
    requires ExpiredBefore(responses, n) && Code(responses, n, SESSION_EXPIRED)
    ensures !Retries(responses, token, n) && Settled(responses, token) <= n
  {
  }

  // ----- The outcome in terms of the answers alone -----

  /**
   * The answer to attempt `i` asks for another one: rate limited (-2), or a
   * session expired (-14) while the request still carried the caller's token,
   * which it does until a session has expired before.
   */
  predicate AsksAgain(responses: Server, token: Token, i: nat) {
    responses(i).Reply? &&
    (responses(i).errcode == -2
     || (responses(i).errcode == -14 && token.Some? &&
         !exists j: nat :: j < i && responses(j).Reply? && responses(j).errcode == -14))
  }

  lemma RetriesIsAsksAgain(responses: Server, token: Token, i: nat)
    ensures Retries(responses, token, i) <==> AsksAgain(responses, token, i)
  {
    if j: nat :| j < i && responses(j).Reply? && responses(j).errcode == -14 {
      assert Code(responses, j, SESSION_EXPIRED);
    }
  }

  /** Attempt `n` is the one that settles the call. */
  predicate SettledBy(responses: Server, token: Token, n: nat) {
    n < 4 && !AsksAgain(responses, token, n) && forall i: nat :: i < n ==> AsksAgain(responses, token, i)
  }

  lemma SettledExactlyBy(responses: Server, token: Token)
    ensures forall n: nat :: SettledBy(responses, token, n) <==> n < 4 && n == Settled(responses, token)
    ensures Settled(responses, token) >= 4 <==> forall i: nat :: i < 4 ==> AsksAgain(responses, token, i)
  {
    var m: nat := Settled(responses, token);
    forall i: nat
      ensures Retries(responses, token, i) <==> AsksAgain(responses, token, i)
    {
      RetriesIsAsksAgain(responses, token, i);
    }
    forall n: nat
      ensures SettledBy(responses, token, n) <==> n < 4 && n == m
    {
      if SettledBy(responses, token, n) {
        assert AsksAgain(responses, token, m) <==> Retries(responses, token, m);
      }
    }
  }

  /**
   * The result of a call past the gate, for every sequence of answers: the answer
   * that settles it decides.  Errcode 0 gives the id that came with it, any other
   * errcode a rejection with that code, a network error is passed on, and without
   * a settling answer among the first four the retries are exhausted.
   */
  lemma ResultExactlyWhen(responses: Server, token: Token)
    ensures var result := Outcome(responses, token).0;
      && (forall id :: result == Sent(id) <==>
        exists n: nat :: SettledBy(responses, token, n) && responses(n) == Reply(0, id))
      && (forall e :: result == Rejected(e) <==>
        exists n: nat :: SettledBy(responses, token, n) && responses(n).Reply? && responses(n).errcode == e && e != 0)
      && (result == Unreachable <==> exists n: nat :: SettledBy(responses, token, n) && responses(n) == NetworkError)
      && (result == RetriesExhausted <==> forall i: nat :: i < 4 ==> AsksAgain(responses, token, i))
      && result != CircuitOpen
  {
    SettledExactlyBy(responses, token);
    var n := Settled(responses, token);
    assert n < 4 ==> SettledBy(responses, token, n);
  }

  /** An accepted attempt settles the call: if every answer before it asks again, its id is the result. */
  lemma AcceptedIdIsReturned(responses: Server, token: Token, n: nat, id: Option<string>)
    requires n < 4 && responses(n) == Reply(0, id) && forall i: nat :: i < n ==> AsksAgain(responses, token, i)
    ensures Outcome(responses, token).0 == Sent(id)
  {
    assert SettledBy(responses, token, n);
    ResultExactlyWhen(responses, token);
  }

  /** What is slept after attempt `i`, in seconds. */
  function SleptAfter(responses: Server, i: nat): nat {
    if !(responses(i).Reply? && responses(i).errcode == -2) then 0
    else if i == 0 then 1
    else if i == 1 then 2
    else if i == 2 then 4
    else 8
  }

  /** Requests, tokens and sleeps of a call past the gate, attempt by attempt. */
  lemma AttemptsAre(responses: Server, token: Token)
    ensures var (result, sent, slept) := Outcome(responses, token);
      && (forall n: nat :: SettledBy(responses, token, n) ==> |sent| == n + 1)
      && (result == RetriesExhausted ==> |sent| == 4)
      && (forall i :: 0 <= i < |sent| ==>
        sent[i] == if exists j: nat :: j < i && responses(j).Reply? && responses(j).errcode == -14 then None else token)
      && (|sent| >= 1)
      && slept == SleptAfter(responses, 0)
        + (if |sent| > 1 then SleptAfter(responses, 1) else 0)
        + (if |sent| > 2 then SleptAfter(responses, 2) else 0)
        + (if |sent| > 3 then SleptAfter(responses, 3) else 0)
  {
    SettledExactlyBy(responses, token);
    ResultExactlyWhen(responses, token);
    var sent := Outcome(responses, token).1;
    forall i | 0 <= i < |sent|
      ensures sent[i] == if exists j: nat :: j < i && responses(j).Reply? && responses(j).errcode == -14 then None else token
    {
      if j: nat :| j < i && responses(j).Reply? && responses(j).errcode == -14 {
        assert Code(responses, j, SESSION_EXPIRED);
      }
    }
    var n := Settled(responses, token);
    SleepSum(responses, n);
    if n < 4 {
      assert SettledBy(responses, token, n);
      assert SleptAfter(responses, n) == 0;
    }
  }

  lemma SleepSum(responses: Server, n: nat)
    requires n <= 4
    ensures Backoff(responses, n) == (if n > 0 then SleptAfter(responses, 0) else 0)
      + (if n > 1 then SleptAfter(responses, 1) else 0)
      + (if n > 2 then SleptAfter(responses, 2) else 0)
      + (if n > 3 then SleptAfter(responses, 3) else 0)
  {
    assert Pow2(0) == 1 && Pow2(1) == 2 && Pow2(2) == 4 && Pow2(3) == 8;
    if n > 0 {
      SleepSum(responses, n - 1);
    }
  }
}
