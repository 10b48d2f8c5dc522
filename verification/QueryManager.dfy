/**
 * The table of running sessions, keyed by user and then by workspace, with the
 * pending tool approval and the message queue of each.
 *
 * JavaScript objects that several holders share are rows of a table here, and a
 * reference is the row's index: `queries` for running queries, `approvals` for
 * approval promises with their timers.
 */
module QueryManagement {
  import opened Wrappers

  type User = string
  type Cwd = string

  datatype Message = Message(id: nat, user: User)

  /** A session runs until it ends; then its queue is drained from the front, `next` being the position reached. */
  datatype Phase = Live | Draining(next: nat)

  datatype Query = Query(
    user: User, cwd: Cwd, prompt: Message, queue: seq<Message>, phase: Phase,
    aborted: bool, pending: Option<nat>)

  /** An approval promise: who asks, whether its timer is armed, and the calls made to its resolver. */
  datatype Approval = Approval(asker: nat, armed: bool, decisions: seq<bool>)

  type Store = map<User, map<Cwd, nat>>

  datatype Manager = Manager(store: Store, queries: seq<Query>, approvals: seq<Approval>)

  const EMPTY := Manager(map[], [], [])

  function Lookup(store: Store, u: User, c: Cwd): Option<nat> {
    if u in store && c in store[u] then Some(store[u][c]) else None
  }

  function Put(store: Store, u: User, c: Cwd, q: nat): (r: Store)
    ensures forall u', c' :: Lookup(r, u', c') == if u' == u && c' == c then Some(q) else Lookup(store, u', c')
  {
    store[u := (if u in store then store[u] else map[])[c := q]]
  }

  function Erase(store: Store, u: User, c: Cwd): (r: Store)
    ensures forall u', c' :: Lookup(r, u', c') == if u' == u && c' == c then None else Lookup(store, u', c')
  {
    if Lookup(store, u, c) == None then store
    else
      var inner := store[u] - {c};
      assert forall c' :: c' in inner <==> c' in store[u] && c' != c;
      if inner == map[] then store - {u} else store[u := inner]
  }

  // ----- The operations as functions of the table -----

  function SetQuery(m: Manager, q: nat, query: Query): Manager
    requires q < |m.queries|
  {
    m.(queries := m.queries[q := query])
  }

  /** `clearTimeout` on the pending approval of a query, if it has one. */
  function Disarm(m: Manager, pending: Option<nat>): Manager {
    if pending.Some? && pending.value < |m.approvals| then
      m.(approvals := m.approvals[pending.value := m.approvals[pending.value].(armed := false)])
    else m
  }

  function Resolve(m: Manager, a: nat, allow: bool): Manager
    requires a < |m.approvals|
  {
    m.(approvals := m.approvals[a := m.approvals[a].(decisions := m.approvals[a].decisions + [allow])])
  }

  /** Every stored reference is a row of the table that carries its own key. */
  ghost predicate Linked(m: Manager) {
    forall u, c :: Lookup(m.store, u, c).Some? ==>
      var q := Lookup(m.store, u, c).value;
      q < |m.queries| && m.queries[q].user == u && m.queries[q].cwd == c
  }

  function Start(m: Manager, u: User, c: Cwd, prompt: Message): Manager {
    var existing := Lookup(m.store, u, c);
    var m1 :=
      if existing.Some? && existing.value < |m.queries| then
        var prior := m.queries[existing.value];
        SetQuery(Disarm(m, prior.pending), existing.value, prior.(aborted := true))
      else m;
    m1.(store := Put(m1.store, u, c, |m1.queries|),
        queries := m1.queries + [Query(u, c, prompt, [], Live, false, None)])
  }

  function ClearPendingApproval(m: Manager, u: User, c: Cwd): Manager {
    var found := Lookup(m.store, u, c);
    if found.Some? && found.value < |m.queries| then
      var query := m.queries[found.value];
      SetQuery(Disarm(m, query.pending), found.value, query.(pending := None))
    else m
  }

  function Remove(m: Manager, u: User, c: Cwd): Manager {
    var m1 := ClearPendingApproval(m, u, c);
    m1.(store := Erase(m1.store, u, c))
  }

  function Abort(m: Manager, u: User, c: Cwd): Manager {
    var found := Lookup(m.store, u, c);
    if found.Some? && found.value < |m.queries| then
      Remove(SetQuery(m, found.value, m.queries[found.value].(aborted := true)), u, c)
    else m
  }

  function SetPendingApproval(m: Manager, u: User, c: Cwd, a: nat): Manager {
    var found := Lookup(m.store, u, c);
    if found.Some? && found.value < |m.queries| then
      var query := m.queries[found.value];
      SetQuery(Disarm(m, query.pending), found.value, query.(pending := Some(a)))
    else m
  }

  ghost predicate Stored(m: Manager, q: int) {
    0 <= q < |m.queries| && Lookup(m.store, m.queries[q].user, m.queries[q].cwd) == Some(q)
  }

  /** Approval `a` is what some stored query waits for. */
  ghost predicate Awaited(m: Manager, a: nat) {
    exists q :: Stored(m, q) && m.queries[q].pending == Some(a)
  }

  ghost function AbortAll(m: Manager): Manager {
    Manager(map[],
      seq(|m.queries|, q requires 0 <= q < |m.queries| =>
        if Stored(m, q) then m.queries[q].(aborted := true) else m.queries[q]),
      seq(|m.approvals|, a requires 0 <= a < |m.approvals| =>
        if Awaited(m, a) then m.approvals[a].(armed := false, decisions := m.approvals[a].decisions + [false])
        else m.approvals[a]))
  }

  // ----- What every operation keeps -----

  /** The approval a stored query waits for is armed and was asked under the query's own key. */
  ghost predicate PendingIsArmed(m: Manager) {
    forall q :: Stored(m, q) && m.queries[q].pending.Some? ==> PendingArmedAt(m, q)
  }

  predicate PendingArmedAt(m: Manager, q: nat)
    requires q < |m.queries| && m.queries[q].pending.Some?
  {
    var a := m.queries[q].pending.value;
    && a < |m.approvals|
    && m.approvals[a].armed
    && m.approvals[a].asker < |m.queries|
    && m.queries[m.approvals[a].asker].user == m.queries[q].user
    && m.queries[m.approvals[a].asker].cwd == m.queries[q].cwd
  }

  /** No resolver is called twice, and none is called while its timer is armed. */
  ghost predicate DecidedOnce(m: Manager) {
    forall a :: 0 <= a < |m.approvals| ==>
      && m.approvals[a].asker < |m.queries|
      && |m.approvals[a].decisions| <= 1
      && (m.approvals[a].armed ==> m.approvals[a].decisions == [])
  }

  /** Users without a session have no entry of their own. */
  ghost predicate NoEmptyUsers(m: Manager) {
    forall u :: u in m.store ==> m.store[u] != map[]
  }

  ghost predicate Valid(m: Manager) {
    Linked(m) && PendingIsArmed(m) && DecidedOnce(m) && NoEmptyUsers(m)
  }

  /** Disarming the approval the query under (u, c) waits for leaves every other stored query as it was. */
  lemma OthersStayArmed(m: Manager, u: User, c: Cwd, q: nat)
    requires Valid(m) && Stored(m, q) && !(m.queries[q].user == u && m.queries[q].cwd == c)
    requires m.queries[q].pending.Some?
    ensures var found := Lookup(m.store, u, c);
      found.Some? ==> m.queries[found.value].pending != m.queries[q].pending
  {
  }

  /**
   * Starting a session under a key replaces the one stored there, if any: that
   * one is aborted and the timer of the approval it waits for disarmed, without
   * deciding it.  Nothing else changes.
   */
  lemma StartReplaces(m: Manager, u: User, c: Cwd, prompt: Message)
    requires Valid(m)
    ensures var r, n, found := Start(m, u, c, prompt), |m.queries|, Lookup(m.store, u, c);
      && |r.queries| == n + 1 && r.queries[n] == Query(u, c, prompt, [], Live, false, None)
      && Lookup(r.store, u, c) == Some(n)
      && (forall q :: 0 <= q < n ==> r.queries[q] == if found == Some(q) then m.queries[q].(aborted := true) else m.queries[q])
      && |r.approvals| == |m.approvals|
      && (forall a :: 0 <= a < |m.approvals| ==>
        r.approvals[a] ==
          if found.Some? && m.queries[found.value].pending == Some(a) then m.approvals[a].(armed := false)
          else m.approvals[a])
  {
  }

  lemma StartKeepsPending(m: Manager, u: User, c: Cwd, prompt: Message)
    requires Valid(m)
    ensures PendingIsArmed(Start(m, u, c, prompt))
  {
    hide DecidedOnce, NoEmptyUsers;
    var r := Start(m, u, c, prompt);
    forall q | Stored(r, q) && r.queries[q].pending.Some?
      ensures PendingArmedAt(r, q)
    {
      assert Stored(m, q) && r.queries[q] == m.queries[q];
      assert PendingArmedAt(m, q);
      OthersStayArmed(m, u, c, q);
    }
  }

  lemma StartKeepsLinks(m: Manager, u: User, c: Cwd, prompt: Message)
    requires Valid(m)
    ensures Linked(Start(m, u, c, prompt)) && NoEmptyUsers(Start(m, u, c, prompt))
  {
    hide DecidedOnce, PendingIsArmed;
  }

  lemma StartKeepsDecisions(m: Manager, u: User, c: Cwd, prompt: Message)
    requires Valid(m)
    ensures DecidedOnce(Start(m, u, c, prompt))
  {
    hide PendingIsArmed, NoEmptyUsers;
  }

  lemma StartKeeps(m: Manager, u: User, c: Cwd, prompt: Message)
    requires Valid(m)
    ensures Valid(Start(m, u, c, prompt))
  {
    hide Start, Linked, PendingIsArmed, DecidedOnce, NoEmptyUsers;
    StartKeepsPending(m, u, c, prompt);
    StartKeepsLinks(m, u, c, prompt);
    StartKeepsDecisions(m, u, c, prompt);
  }

  /** Two stored queries never wait for the same approval. */
  lemma OnePending(m: Manager)
    requires Valid(m)
    ensures forall p, q | Stored(m, p) && Stored(m, q) && m.queries[p].pending.Some? ::
      m.queries[p].pending == m.queries[q].pending ==> p == q
  {
  }

  lemma ClearPendingKeeps(m: Manager, u: User, c: Cwd)
    requires Valid(m)
    ensures Valid(ClearPendingApproval(m, u, c))
  {
  }

  lemma RemoveKeeps(m: Manager, u: User, c: Cwd)
    requires Valid(m)
    ensures Valid(Remove(m, u, c))
  {
    var m1 := ClearPendingApproval(m, u, c);
    ClearPendingKeeps(m, u, c);
    var r := Remove(m, u, c);
    forall q | Stored(r, q)
      ensures Stored(m1, q)
    {
    }
  }

  lemma AbortKeeps(m: Manager, u: User, c: Cwd)
    requires Valid(m)
    ensures Valid(Abort(m, u, c))
  {
    var found := Lookup(m.store, u, c);
    if found.Some? {
      var m1 := SetQuery(m, found.value, m.queries[found.value].(aborted := true));
      forall q | Stored(m1, q)
        ensures Stored(m, q)
      {
      }
      RemoveKeeps(m1, u, c);
    }
  }

  /** Approval `a` was just asked under key (u, c), and nothing waits for it yet. */
  ghost predicate Askable(m: Manager, u: User, c: Cwd, a: nat) {
    && a < |m.approvals| && m.approvals[a].armed && !Awaited(m, a)
    && m.approvals[a].asker < |m.queries|
    && m.queries[m.approvals[a].asker].user == u && m.queries[m.approvals[a].asker].cwd == c
  }

  lemma SetPendingArmed(m: Manager, u: User, c: Cwd, a: nat)
    requires Valid(m) && Askable(m, u, c, a)
    ensures PendingIsArmed(SetPendingApproval(m, u, c, a))
  {
    hide DecidedOnce, NoEmptyUsers;
    var r := SetPendingApproval(m, u, c, a);
    forall q | Stored(r, q) && r.queries[q].pending.Some?
      ensures PendingArmedAt(r, q)
    {
      assert Stored(m, q);
      if !(m.queries[q].user == u && m.queries[q].cwd == c) {
        assert PendingArmedAt(m, q);
        OthersStayArmed(m, u, c, q);
      }
    }
  }

  lemma SetPendingLinked(m: Manager, u: User, c: Cwd, a: nat)
    requires Valid(m) && Askable(m, u, c, a)
    ensures var r := SetPendingApproval(m, u, c, a); Linked(r) && NoEmptyUsers(r) && DecidedOnce(r)
  {
    hide PendingIsArmed;
  }

  lemma SetPendingKeeps(m: Manager, u: User, c: Cwd, a: nat)
    requires Valid(m) && Askable(m, u, c, a)
    ensures Valid(SetPendingApproval(m, u, c, a))
  {
    hide SetPendingApproval, Linked, PendingIsArmed, DecidedOnce, NoEmptyUsers;
    SetPendingArmed(m, u, c, a);
    SetPendingLinked(m, u, c, a);
  }

  lemma AbortAllKeeps(m: Manager)
    requires Valid(m)
    ensures Valid(AbortAll(m))
  {
  }

  class QueryManager {
    var store: Store
    var queries: seq<Query>
    var approvals: seq<Approval>

    ghost function Abs(): Manager
      reads this
    {
      Manager(store, queries, approvals)
    }

    constructor ()
      ensures Abs() == EMPTY && Valid(Abs())
    {
      store, queries, approvals := map[], [], [];
    }

    method Get(u: User, c: Cwd) returns (q: Option<nat>)
      ensures q == Lookup(store, u, c)
    {
      if u in store {
        var cwdMap := store[u];
        if c in cwdMap {
          return Some(cwdMap[c]);
        }
      }
      return None;
    }

    method ClearTimer(pending: Option<nat>)
      modifies this`approvals
      ensures Abs() == Disarm(old(Abs()), pending)
    {
      if pending.Some? && pending.value < |approvals| {
        approvals := approvals[pending.value := approvals[pending.value].(armed := false)];
      }
    }

    method StartQuery(u: User, c: Cwd, prompt: Message) returns (q: nat)
      requires Valid(Abs())
      modifies this
      ensures Abs() == Start(old(Abs()), u, c, prompt) && Valid(Abs())
      ensures q == |old(queries)|
    {
      StartKeeps(Abs(), u, c, prompt);
      var existing := Get(u, c);
      if existing.Some? {
        ClearTimer(queries[existing.value].pending);
        queries := queries[existing.value := queries[existing.value].(aborted := true)];
      }
      var cwdMap := if u in store then store[u] else map[];
      q := |queries|;
      queries := queries + [Query(u, c, prompt, [], Live, false, None)];
      store := store[u := cwdMap[c := q]];
    }

    method RemoveQuery(u: User, c: Cwd) returns (removed: bool)
      requires Valid(Abs())
      modifies this
      ensures Abs() == Remove(old(Abs()), u, c) && Valid(Abs())
      ensures removed == Lookup(old(store), u, c).Some?
    {
      RemoveKeeps(Abs(), u, c);
      var found := Get(u, c);
      if found == None {
        return false;
      }
      ClearTimer(queries[found.value].pending);
      queries := queries[found.value := queries[found.value].(pending := None)];
      var cwdMap := store[u] - {c};
      if |cwdMap| == 0 {
        store := store - {u};
      } else {
        store := store[u := cwdMap];
      }
      return true;
    }

    method AbortQuery(u: User, c: Cwd) returns (aborted: bool)
      requires Valid(Abs())
      modifies this
      ensures Abs() == Abort(old(Abs()), u, c) && Valid(Abs())
      ensures aborted == Lookup(old(store), u, c).Some?
    {
      AbortKeeps(Abs(), u, c);
      var found := Get(u, c);
      if found == None {
        return false;
      }
      ghost var before := Abs();
      queries := queries[found.value := queries[found.value].(aborted := true)];
      AbortMarkKeeps(before, found.value);
      var removed := RemoveQuery(u, c);
      return true;
    }

    method SetPending(u: User, c: Cwd, a: nat)
      requires Valid(Abs())
      modifies this
      ensures Abs() == SetPendingApproval(old(Abs()), u, c, a)
      ensures old(Askable(Abs(), u, c, a)) ==> Valid(Abs())
    {
      if Askable(Abs(), u, c, a) {
        SetPendingKeeps(Abs(), u, c, a);
      }
      var found := Get(u, c);
      if found == None {
        return;
      }
      ClearTimer(queries[found.value].pending);
      queries := queries[found.value := queries[found.value].(pending := Some(a))];
    }

    /** Also called halfway through a decision, when the approval is decided or its timer has fired. */
    method ClearPending(u: User, c: Cwd)
      requires Linked(Abs())
      modifies this
      ensures Abs() == ClearPendingApproval(old(Abs()), u, c)
    {
      var found := Get(u, c);
      if found == None {
        return;
      }
      ClearTimer(queries[found.value].pending);
      queries := queries[found.value := queries[found.value].(pending := None)];
    }

    /** Deny the approval a query waits for, if any, and abort the query. */
    method AbortRow(q: nat)
      requires q < |queries| && (queries[q].pending.Some? ==> queries[q].pending.value < |approvals|)
      modifies this`queries, this`approvals
      ensures Abs() == AbortedRow(old(Abs()), q)
    {
      var prev := queries[q].pending;
      if prev.Some? {
        ClearTimer(prev);
        approvals := approvals[prev.value :=
          approvals[prev.value].(decisions := approvals[prev.value].decisions + [false])];
      }
      queries := queries[q := queries[q].(aborted := true)];
    }

    /** The inner loop of `abortAll`: all workspaces of one user. */
    method AbortUser(u: User, ghost m: Manager, ghost done: iset<nat>)
      requires Valid(m) && store == m.store && u in store
      requires PartlyAborted(m, Abs(), done) && forall p :: p in done ==> Stored(m, p)
      requires forall c :: c in store[u] ==> store[u][c] !in done
      modifies this`queries, this`approvals
      ensures PartlyAborted(m, Abs(), done + EntriesOf(m, u))
    {
      hide Valid, PartlyAborted, AbortedRow;
      var cwds := store[u].Keys;
      ghost var seen := done;
      while cwds != {}
        invariant cwds <= store[u].Keys
        invariant seen == done + iset c | c in store[u].Keys - cwds :: store[u][c]
        invariant PartlyAborted(m, Abs(), seen) && forall p :: p in seen ==> Stored(m, p)
        decreases cwds
      {
        var c :| c in cwds;
        var q := store[u][c];
        EntryIsStored(m, u, c);
        assert q !in seen by {
          forall d | d in store[u].Keys - cwds
            ensures store[u][d] != q
          {
            EntryIsStored(m, u, d);
          }
        }
        AbortRowStep(m, Abs(), seen, q);
        AbortRow(q);
        seen := seen + iset{q};
        cwds := cwds - {c};
      }
      assert seen == done + EntriesOf(m, u);
    }

    /** Deny every awaited approval and abort every stored query, one entry of the two-level map at a time. */
    method AbortEverything()
      requires Valid(Abs())
      modifies this
      ensures Abs() == AbortAll(old(Abs())) && Valid(Abs())
    {
      hide Valid, PartlyAborted, AbortAll, EntriesOf, UpTo;
      ghost var m := Abs();
      AbortAllKeeps(m);
      NothingAborted(m, store.Keys);
      var users := store.Keys;
      ghost var done: iset<nat> := iset{};
      while users != {}
        invariant store == m.store && users <= store.Keys
        invariant PartlyAborted(m, Abs(), done) && UpTo(m, done, users)
        decreases users
      {
        var u :| u in users;
        UserIsNext(m, done, users, u);
        AbortUser(u, m, done);
        done := done + EntriesOf(m, u);
        users := users - {u};
      }
      EverythingAborted(m, Abs(), done);
      store := map[];
    }
  }

  /** The queries stored for a user. */
  ghost function EntriesOf(m: Manager, u: User): iset<nat>
    requires u in m.store
  {
    iset c | c in m.store[u] :: m.store[u][c]
  }

  /** `done` are the stored queries of all users but `users`. */
  ghost predicate UpTo(m: Manager, done: iset<nat>, users: set<User>) {
    forall q: nat :: q in done <==> Stored(m, q) && m.queries[q].user !in users
  }

  lemma NothingAborted(m: Manager, users: set<User>)
    requires users == m.store.Keys
    ensures PartlyAborted(m, m, iset{}) && UpTo(m, iset{}, users)
  {
  }

  lemma UserIsNext(m: Manager, done: iset<nat>, users: set<User>, u: User)
    requires Valid(m) && u in m.store && u in users && UpTo(m, done, users)
    ensures forall p :: p in done ==> Stored(m, p)
    ensures forall c :: c in m.store[u] ==> m.store[u][c] !in done
    ensures UpTo(m, done + EntriesOf(m, u), users - {u})
  {
    forall c | c in m.store[u]
      ensures Stored(m, m.store[u][c]) && m.queries[m.store[u][c]].user == u
    {
      EntryIsStored(m, u, c);
    }
    hide Valid;
    forall q: nat
      ensures q in done + EntriesOf(m, u) <==> Stored(m, q) && m.queries[q].user !in users - {u}
    {
    }
  }

  lemma EverythingAborted(m: Manager, r: Manager, done: iset<nat>)
    requires PartlyAborted(m, r, done) && UpTo(m, done, {})
    ensures r.(store := map[]) == AbortAll(m)
  {
    var all := AbortAll(m);
    assert r.queries == all.queries;
    forall a: nat | a < |m.approvals|
      ensures (exists q :: q in done && q < |m.queries| && m.queries[q].pending == Some(a)) <==> Awaited(m, a)
    {
      if Awaited(m, a) {
        var q :| Stored(m, q) && m.queries[q].pending == Some(a);
        assert q in done;
      }
    }
    assert r.approvals == all.approvals;
  }

  ghost function AbortedRow(m: Manager, q: nat): Manager
    requires q < |m.queries|
  {
    var pending := m.queries[q].pending;
    var m1 := if pending.Some? && pending.value < |m.approvals| then Resolve(Disarm(m, pending), pending.value, false) else m;
    SetQuery(m1, q, m1.queries[q].(aborted := true))
  }

  lemma EntryIsStored(m: Manager, u: User, c: Cwd)
    requires Valid(m) && Lookup(m.store, u, c).Some?
    ensures Stored(m, m.store[u][c]) && m.queries[m.store[u][c]].user == u && m.queries[m.store[u][c]].cwd == c
  {
  }

  lemma AbortRowStep(m: Manager, r: Manager, done: iset<nat>, q: nat)
    requires Valid(m) && PartlyAborted(m, r, done)
    requires Stored(m, q) && q !in done && forall p :: p in done ==> Stored(m, p)
    ensures q < |r.queries| && (r.queries[q].pending.Some? ==> r.queries[q].pending.value < |r.approvals|)
    ensures PartlyAborted(m, AbortedRow(r, q), done + iset{q})
  {
  }

  lemma AbortMarkKeeps(m: Manager, q: nat)
    requires Valid(m) && q < |m.queries|
    ensures Valid(SetQuery(m, q, m.queries[q].(aborted := true)))
  {
  }

  /** `r` is `m` with the queries in `done` aborted and the approvals they wait for denied. */
  ghost predicate PartlyAborted(m: Manager, r: Manager, done: iset<nat>) {
    && |r.queries| == |m.queries| && |r.approvals| == |m.approvals|
    && (forall q: nat :: q < |m.queries| ==>
      r.queries[q] == if q in done then m.queries[q].(aborted := true) else m.queries[q])
    && (forall a: nat :: a < |m.approvals| ==>
      r.approvals[a] ==
        if exists q :: q in done && q < |m.queries| && m.queries[q].pending == Some(a)
        then m.approvals[a].(armed := false, decisions := m.approvals[a].decisions + [false])
        else m.approvals[a])
  }
}
