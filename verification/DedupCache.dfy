/**
 * The cache that drops messages the server delivers again.  It keeps one time
 * per key and prunes on every call; the laws compare it with the whole history
 * of calls under a clock that never runs backwards.
 */
module Deduplication {

  datatype Call = Call(key: string, at: int)

  /** `retain`: the entries less than `ttl` old. */
  function Retain(seen: map<string, int>, now: int, ttl: nat): map<string, int> {
    map k | k in seen && now - seen[k] < ttl :: seen[k]
  }

  predicate IsNew(seen: map<string, int>, c: Call, ttl: nat) {
    c.key !in Retain(seen, c.at, ttl)
  }

  function AfterCall(seen: map<string, int>, c: Call, ttl: nat): map<string, int> {
    var kept := Retain(seen, c.at, ttl);
    if c.key in kept then kept else kept[c.key := c.at]
  }

  function Replay(calls: seq<Call>, ttl: nat): map<string, int> {
    if calls == [] then map[]
    else AfterCall(Replay(calls[..|calls| - 1], ttl), calls[|calls| - 1], ttl)
  }

  predicate Ordered(calls: seq<Call>) {
    forall i, j :: 0 <= i < j < |calls| ==> calls[i].at <= calls[j].at
  }

  /** Call `i` is to be accepted: no earlier accepted call with its key is less than `ttl` old. */
  ghost predicate Accepted(calls: seq<Call>, i: nat, ttl: nat)
    requires i < |calls|
    decreases i
  {
    !exists j: nat :: j < i && calls[j].key == calls[i].key && calls[i].at - calls[j].at < ttl && Accepted(calls, j, ttl)
  }

  class DedupCache {
    const ttl: nat
    var seen: map<string, int>
    ghost var calls: seq<Call>

    ghost predicate Valid()
      reads this
    {
      seen == Replay(calls, ttl) && Ordered(calls)
    }

    constructor (ttl: nat)
      ensures Valid() && calls == [] && this.ttl == ttl
    {
      this.ttl := ttl;
      seen := map[];
      calls := [];
    }

    method CheckAndRecord(key: string, now: int) returns (isNew: bool)
      requires Valid() && (calls != [] ==> calls[|calls| - 1].at <= now)
      modifies this
      ensures Valid() && calls == old(calls) + [Call(key, now)]
      ensures isNew <==> Accepted(calls, |old(calls)|, ttl)
    {
      ghost var c := Call(key, now);
      assert (calls + [c])[..|calls|] == calls;
      calls := calls + [c];
      DedupRefinesHistory(calls, ttl);
      seen := Retain(seen, now, ttl);
      if key in seen {
        return false;
      }
      seen := seen[key := now];
      return true;
    }
  }

  // ----- Refinement -----

  lemma {:induction false} AcceptedPrefix(calls: seq<Call>, n: nat, i: nat, ttl: nat)
    requires i < n <= |calls|
    ensures Accepted(calls[..n], i, ttl) <==> Accepted(calls, i, ttl)
    decreases i
  {
    forall j: nat | j < i
      ensures Accepted(calls[..n], j, ttl) <==> Accepted(calls, j, ttl)
    {
      AcceptedPrefix(calls, n, j, ttl);
    }
  }

  /** Accepted call `j` is the one entry `k` of the map stands for. */
  ghost predicate StandsFor(calls: seq<Call>, j: nat, k: string, at: int, ttl: nat) {
    j < |calls| && calls[j].key == k && calls[j].at == at && Accepted(calls, j, ttl)
  }

  /** Every entry is the time of an accepted call of its key, which is younger than `ttl` or the latest call. */
  ghost predicate EntriesStand(seen: map<string, int>, calls: seq<Call>, ttl: nat) {
    forall k :: k in seen ==> exists j: nat ::
      StandsFor(calls, j, k, seen[k], ttl) && (calls[|calls| - 1].at - seen[k] < ttl || j == |calls| - 1)
  }

  /** Every accepted call that is younger than `ttl` at the latest call has an entry no older than itself. */
  ghost predicate AcceptedKept(seen: map<string, int>, calls: seq<Call>, ttl: nat) {
    forall j: nat :: j < |calls| && Accepted(calls, j, ttl) && calls[|calls| - 1].at - calls[j].at < ttl ==>
      calls[j].key in seen && seen[calls[j].key] >= calls[j].at
  }

  ghost predicate Summarises(seen: map<string, int>, calls: seq<Call>, ttl: nat) {
    EntriesStand(seen, calls, ttl) && AcceptedKept(seen, calls, ttl)
  }

  /** Accepted call `j` makes a call of key `k` at `now` a repetition. */
  ghost predicate Repeats(calls: seq<Call>, j: nat, k: string, now: int, ttl: nat) {
    j < |calls| && calls[j].key == k && now - calls[j].at < ttl && Accepted(calls, j, ttl)
  }

  lemma PrefixAgrees(calls: seq<Call>, n: nat, ttl: nat)
    requires n <= |calls|
    ensures forall j: nat :: j < n ==> calls[..n][j] == calls[j] && (Accepted(calls[..n], j, ttl) <==> Accepted(calls, j, ttl))
  {
    forall j: nat | j < n
      ensures Accepted(calls[..n], j, ttl) <==> Accepted(calls, j, ttl)
    {
      AcceptedPrefix(calls, n, j, ttl);
    }
  }

  /** Before a call, the entries that survive its pruning are the keys with an accepted call less than `ttl` old. */
  lemma KeptKeys(seen: map<string, int>, before: seq<Call>, c: Call, ttl: nat)
    requires Summarises(seen, before, ttl) && (before != [] ==> before[|before| - 1].at <= c.at)
    ensures c.key in Retain(seen, c.at, ttl) <==> exists j: nat :: Repeats(before, j, c.key, c.at, ttl)
  {
    if c.key in Retain(seen, c.at, ttl) {
      var j: nat :| StandsFor(before, j, c.key, seen[c.key], ttl);
      assert Repeats(before, j, c.key, c.at, ttl);
    }
    if j: nat :| Repeats(before, j, c.key, c.at, ttl) {
      assert before[|before| - 1].at - before[j].at < ttl;
      assert seen[c.key] >= before[j].at;
    }
  }

  lemma CallDecided(seen: map<string, int>, calls: seq<Call>, ttl: nat)
    requires calls != [] && Ordered(calls) && Summarises(seen, calls[..|calls| - 1], ttl)
    ensures IsNew(seen, calls[|calls| - 1], ttl) <==> Accepted(calls, |calls| - 1, ttl)
  {
    var n := |calls| - 1;
    var before, c := calls[..n], calls[n];
    PrefixAgrees(calls, n, ttl);
    KeptKeys(seen, before, c, ttl);
    if j: nat :| Repeats(before, j, c.key, c.at, ttl) {
      assert calls[j].key == c.key && Accepted(calls, j, ttl);
    }
    if !Accepted(calls, n, ttl) {
      var j: nat :| j < n && calls[j].key == calls[n].key && calls[n].at - calls[j].at < ttl && Accepted(calls, j, ttl);
      assert Repeats(before, j, c.key, c.at, ttl);
    }
  }

  lemma CallEntriesStand(seen: map<string, int>, calls: seq<Call>, ttl: nat)
    requires calls != [] && Ordered(calls) && Summarises(seen, calls[..|calls| - 1], ttl)
    ensures EntriesStand(AfterCall(seen, calls[|calls| - 1], ttl), calls, ttl)
  {
    var n := |calls| - 1;
    var c := calls[n];
    var kept, r := Retain(seen, c.at, ttl), AfterCall(seen, c, ttl);
    forall k | k in r
      ensures exists j: nat :: StandsFor(calls, j, k, r[k], ttl) && (c.at - r[k] < ttl || j == n)
    {
      if k == c.key && c.key !in kept {
        CallDecided(seen, calls, ttl);
        assert StandsFor(calls, n, k, r[k], ttl);
      } else {
        assert k in seen;
        var j: nat :| StandsFor(calls[..n], j, k, seen[k], ttl);
        AcceptedPrefix(calls, n, j, ttl);
        assert StandsFor(calls, j, k, r[k], ttl);
      }
    }
  }

  /** An accepted call that is still young at the next call keeps its entry. */
  lemma EarlierKept(seen: map<string, int>, before: seq<Call>, c: Call, ttl: nat, j: nat)
    requires AcceptedKept(seen, before, ttl) && j < |before| && Accepted(before, j, ttl)
    requires before[|before| - 1].at <= c.at && c.at - before[j].at < ttl
    ensures var r := AfterCall(seen, c, ttl); before[j].key in r && r[before[j].key] >= before[j].at
  {
  }

  lemma CallAcceptedKept(seen: map<string, int>, calls: seq<Call>, ttl: nat)
    requires calls != [] && Ordered(calls) && Summarises(seen, calls[..|calls| - 1], ttl)
    ensures AcceptedKept(AfterCall(seen, calls[|calls| - 1], ttl), calls, ttl)
  {
    hide Accepted, EntriesStand, IsNew;
    var n := |calls| - 1;
    var before, c := calls[..n], calls[n];
    var r := AfterCall(seen, c, ttl);
    forall j: nat | j < |calls| && Accepted(calls, j, ttl) && c.at - calls[j].at < ttl
      ensures calls[j].key in r && r[calls[j].key] >= calls[j].at
    {
      if j < n {
        AcceptedPrefix(calls, n, j, ttl);
        assert before[j] == calls[j] && before[|before| - 1] == calls[n - 1];
        EarlierKept(seen, before, c, ttl, j);
      } else {
        CallDecided(seen, calls, ttl);
        NewCallKept(seen, c, ttl);
      }
    }
  }

  lemma NewCallKept(seen: map<string, int>, c: Call, ttl: nat)
    ensures IsNew(seen, c, ttl) ==> c.key in AfterCall(seen, c, ttl) && AfterCall(seen, c, ttl)[c.key] == c.at
  {
  }

  lemma {:induction false} ReplaySummarises(calls: seq<Call>, ttl: nat)
    requires Ordered(calls)
    ensures Summarises(Replay(calls, ttl), calls, ttl)
  {
    if calls == [] {
    } else {
      ReplaySummarises(calls[..|calls| - 1], ttl);
      CallEntriesStand(Replay(calls[..|calls| - 1], ttl), calls, ttl);
      CallAcceptedKept(Replay(calls[..|calls| - 1], ttl), calls, ttl);
    }
  }

  /** The cache accepts a call exactly when no earlier accepted call of its key is less than `ttl` old. */
  lemma DedupRefinesHistory(calls: seq<Call>, ttl: nat)
    requires calls != [] && Ordered(calls)
    ensures IsNew(Replay(calls[..|calls| - 1], ttl), calls[|calls| - 1], ttl) <==> Accepted(calls, |calls| - 1, ttl)
  {
    ReplaySummarises(calls[..|calls| - 1], ttl);
    CallDecided(Replay(calls[..|calls| - 1], ttl), calls, ttl);
  }

  /** What the cache answers to call `i` of a run. */
  predicate Answer(calls: seq<Call>, i: nat, ttl: nat)
    requires i < |calls|
  {
    IsNew(Replay(calls[..i], ttl), calls[i], ttl)
  }

  lemma AnswerIsAccepted(calls: seq<Call>, i: nat, ttl: nat)
    requires i < |calls| && Ordered(calls)
    ensures Answer(calls, i, ttl) <==> Accepted(calls, i, ttl)
  {
    assert calls[..i + 1][..i] == calls[..i];
    DedupRefinesHistory(calls[..i + 1], ttl);
    AcceptedPrefix(calls, i + 1, i, ttl);
  }

  /** Two calls of one key that are both let through are at least `ttl` apart. */
  lemma AcceptedCallsAreApart(calls: seq<Call>, i: nat, j: nat, ttl: nat)
    requires i < j < |calls| && Ordered(calls) && calls[i].key == calls[j].key
    requires Answer(calls, i, ttl) && Answer(calls, j, ttl)
    ensures calls[j].at - calls[i].at >= ttl
  {
    AnswerIsAccepted(calls, i, ttl);
    AnswerIsAccepted(calls, j, ttl);
  }

  /** A call that is dropped repeats one that was let through less than `ttl` before. */
  lemma DroppedCallsRepeat(calls: seq<Call>, i: nat, ttl: nat)
    requires i < |calls| && Ordered(calls) && !Answer(calls, i, ttl)
    ensures exists j: nat ::
      j < i && calls[j].key == calls[i].key && calls[i].at - calls[j].at < ttl && Answer(calls, j, ttl)
  {
    AnswerIsAccepted(calls, i, ttl);
    var j: nat :| j < i && calls[j].key == calls[i].key && calls[i].at - calls[j].at < ttl && Accepted(calls, j, ttl);
    AnswerIsAccepted(calls, j, ttl);
  }

  /** The map holds only keys accepted less than `ttl` ago, and the key of the latest call. */
  lemma MapHoldsRecentKeys(calls: seq<Call>, ttl: nat, k: string)
    requires calls != [] && Ordered(calls) && k in Replay(calls, ttl)
    ensures exists j: nat ::
      StandsFor(calls, j, k, Replay(calls, ttl)[k], ttl)
      && (calls[|calls| - 1].at - calls[j].at < ttl || j == |calls| - 1)
  {
    ReplaySummarises(calls, ttl);
  }
}
