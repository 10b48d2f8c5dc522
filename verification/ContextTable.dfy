/**
 * The bounded table from sent message ids to agent contexts.  A save replaces
 * the row of its id, takes the next rowid, and from 200 rows on deletes the row
 * that comes first by (created_at, rowid).
 */
module ContextTable {
  import opened Wrappers

  type MsgId = string
  type Context = string

  const MAX_ROWS := 200

  datatype Row = Row(id: MsgId, context: Context, createdAt: int, rowid: nat)

  /** The rows in no particular order; `Save` happens to append. */
  type Table = seq<Row>

  function Find(rows: Table, id: MsgId): Option<Context> {
    if rows == [] then None
    else if rows[|rows| - 1].id == id then Some(rows[|rows| - 1].context)
    else Find(rows[..|rows| - 1], id)
  }

  function Without(rows: Table, id: MsgId): Table {
    if rows == [] then []
    else Without(rows[..|rows| - 1], id) + (if rows[|rows| - 1].id == id then [] else [rows[|rows| - 1]])
  }

  function MaxRowid(rows: Table): nat {
    if rows == [] then 0
    else
      var m := MaxRowid(rows[..|rows| - 1]);
      if rows[|rows| - 1].rowid > m then rows[|rows| - 1].rowid else m
  }

  /** The order of `ORDER BY created_at ASC, rowid ASC`. */
  predicate Before(a: Row, b: Row) {
    a.createdAt < b.createdAt || (a.createdAt == b.createdAt && a.rowid < b.rowid)
  }

  /** The index of the row that comes first in that order. */
  function Oldest(rows: Table): (i: nat)
    requires rows != []
    ensures i < |rows|
  {
    if |rows| == 1 then 0
    else
      var i := Oldest(rows[..|rows| - 1]);
      if Before(rows[|rows| - 1], rows[i]) then |rows| - 1 else i
  }

  /** The new row takes the rowid after the largest, which is chosen before the row it replaces is deleted. */
  function InsertOrReplace(rows: Table, id: MsgId, context: Context, now: int): Table {
    Without(rows, id) + [Row(id, context, now, MaxRowid(rows) + 1)]
  }

  function DeleteAt(rows: Table, i: nat): Table
    requires i < |rows|
  {
    rows[..i] + rows[i + 1..]
  }

  /** From `MAX_ROWS` rows on, delete the oldest. */
  function Trim(rows: Table): Table {
    if |rows| >= MAX_ROWS then DeleteAt(rows, Oldest(rows)) else rows
  }

  function Save(rows: Table, id: MsgId, context: Context, now: int): Table {
    Trim(InsertOrReplace(rows, id, context, now))
  }

  // ----- Histories of saves -----

  datatype SaveCall = SaveCall(id: MsgId, context: Context, at: int)

  function Replay(saves: seq<SaveCall>): Table {
    if saves == [] then []
    else
      var last := saves[|saves| - 1];
      Save(Replay(saves[..|saves| - 1]), last.id, last.context, last.at)
  }

  predicate Ordered(saves: seq<SaveCall>) {
    forall i, j :: 0 <= i < j < |saves| ==> saves[i].at <= saves[j].at
  }

  /** The context `id` was last saved with, as an unbounded map would have it. */
  function LastContext(saves: seq<SaveCall>, id: MsgId): Option<Context> {
    if saves == [] then None
    else if saves[|saves| - 1].id == id then Some(saves[|saves| - 1].context)
    else LastContext(saves[..|saves| - 1], id)
  }

  /** The other ids saved since `id` was last saved. */
  function OthersSince(saves: seq<SaveCall>, id: MsgId): set<MsgId> {
    if saves == [] || saves[|saves| - 1].id == id then {}
    else OthersSince(saves[..|saves| - 1], id) + {saves[|saves| - 1].id}
  }

  class SqliteStore {
    var rows: Table
    ghost var saves: seq<SaveCall>

    ghost predicate Valid()
      reads this
    {
      rows == Replay(saves)
    }

    constructor ()
      ensures Valid() && saves == []
    {
      rows := [];
      saves := [];
    }

    method SaveMsgAgentContext(id: MsgId, context: Context, now: int)
      requires Valid()
      modifies this
      ensures Valid() && saves == old(saves) + [SaveCall(id, context, now)]
      ensures |rows| <= MAX_ROWS - 1
    {
      ghost var call := SaveCall(id, context, now);
      ReplaySnoc(saves, call);
      ReplaySmall(saves + [call]);
      saves := saves + [call];
      rows := InsertOrReplace(rows, id, context, now);
      var count := |rows|;
      if count >= MAX_ROWS {
        rows := DeleteAt(rows, Oldest(rows));
      }
    }

    method GetMsgAgentContext(id: MsgId) returns (context: Option<Context>)
      requires Valid()
      ensures context == Find(rows, id)
      ensures context == if EvictedSince(saves, id) then None else LastContext(saves, id)
      ensures Ordered(saves) ==>
        context == if |OthersSince(saves, id)| < MAX_ROWS - 1 then LastContext(saves, id) else None
    {
      context := Find(rows, id);
      FoundExactlyWhen(saves, id);
      if Ordered(saves) {
        TableAgreesWithMap(saves, id);
      }
    }
  }

  lemma ReplaySnoc(saves: seq<SaveCall>, call: SaveCall)
    ensures Replay(saves + [call]) == Save(Replay(saves), call.id, call.context, call.at)
  {
  }

  // ----- The table never outgrows its bound -----

  lemma {:induction false} WithoutShorter(rows: Table, id: MsgId)
    ensures |Without(rows, id)| <= |rows|
  {
    if rows == [] {
    } else {
      WithoutShorter(rows[..|rows| - 1], id);
    }
  }

  /** Whatever the clock does, at most 199 rows are left after a save. */
  lemma {:induction false} ReplaySmall(saves: seq<SaveCall>)
    ensures |Replay(saves)| <= MAX_ROWS - 1
  {
    if saves == [] {
    } else {
      var before := Replay(saves[..|saves| - 1]);
      ReplaySmall(saves[..|saves| - 1]);
      WithoutShorter(before, saves[|saves| - 1].id);
    }
  }

  // ----- The unbounded map, in order of the last save of each id -----

  function Drop(calls: seq<SaveCall>, id: MsgId): seq<SaveCall> {
    if calls == [] then []
    else Drop(calls[..|calls| - 1], id) + (if calls[|calls| - 1].id == id then [] else [calls[|calls| - 1]])
  }

  /** The last save of every id, in the order of these saves. */
  function Latest(saves: seq<SaveCall>): seq<SaveCall> {
    if saves == [] then []
    else Drop(Latest(saves[..|saves| - 1]), saves[|saves| - 1].id) + [saves[|saves| - 1]]
  }

  function Calls(rows: Table): (calls: seq<SaveCall>)
    ensures |calls| == |rows|
    ensures forall i :: 0 <= i < |rows| ==> calls[i] == SaveCall(rows[i].id, rows[i].context, rows[i].createdAt)
  {
    seq(|rows|, i requires 0 <= i < |rows| => SaveCall(rows[i].id, rows[i].context, rows[i].createdAt))
  }

  ghost predicate DistinctIds(calls: seq<SaveCall>) {
    forall i, j :: 0 <= i < j < |calls| ==> calls[i].id != calls[j].id
  }

  /** Rows stand in the order of their rowids and of their times. */
  ghost predicate InOrder(rows: Table) {
    forall i, j :: 0 <= i < j < |rows| ==> rows[i].rowid < rows[j].rowid && rows[i].createdAt <= rows[j].createdAt
  }

  function LastOf(calls: seq<SaveCall>, n: nat): seq<SaveCall> {
    if n <= |calls| then calls[|calls| - n..] else calls
  }

  lemma {:induction false} DropAppend(a: seq<SaveCall>, b: seq<SaveCall>, id: MsgId)
    ensures Drop(a + b, id) == Drop(a, id) + Drop(b, id)
  {
    if b == [] {
      assert a + b == a;
    } else {
      assert (a + b)[..|a + b| - 1] == a + b[..|b| - 1];
      DropAppend(a, b[..|b| - 1], id);
    }
  }

  lemma {:induction false} DropMembers(calls: seq<SaveCall>, id: MsgId, c: SaveCall)
    ensures c in Drop(calls, id) <==> c in calls && c.id != id
  {
    if calls == [] {
    } else {
      var n := |calls| - 1;
      DropMembers(calls[..n], id, c);
      assert calls == calls[..n] + [calls[n]];
    }
  }

  lemma {:induction false} DropAbsent(calls: seq<SaveCall>, id: MsgId)
    requires forall i :: 0 <= i < |calls| ==> calls[i].id != id
    ensures Drop(calls, id) == calls
  {
    if calls == [] {
    } else {
      var n := |calls| - 1;
      DropAbsent(calls[..n], id);
      assert calls == calls[..n] + [calls[n]];
    }
  }

  lemma {:induction false} DropDistinct(calls: seq<SaveCall>, id: MsgId)
    requires DistinctIds(calls)
    ensures DistinctIds(Drop(calls, id))
  {
    if calls == [] {
    } else {
      var n := |calls| - 1;
      var front := Drop(calls[..n], id);
      DropDistinct(calls[..n], id);
      forall i | 0 <= i < |front|
        ensures front[i].id != calls[n].id
      {
        DropMembers(calls[..n], id, front[i]);
      }
    }
  }

  /** Among distinct ids exactly one entry is dropped. */
  lemma DropOne(a: seq<SaveCall>, x: SaveCall, b: seq<SaveCall>)
    requires DistinctIds(a + [x] + b)
    ensures Drop(a + [x] + b, x.id) == a + b
  {
    var all := a + [x] + b;
    forall i | 0 <= i < |a|
      ensures a[i].id != x.id
    {
      assert all[i] == a[i] && all[|a|] == x;
    }
    forall i | 0 <= i < |b|
      ensures b[i].id != x.id
    {
      assert all[|a| + 1 + i] == b[i] && all[|a|] == x;
    }
    DropAppend(a + [x], b, x.id);
    DropSnoc(a, x, x.id);
    DropAbsent(a, x.id);
    DropAbsent(b, x.id);
    assert a + [] == a;
  }

  lemma {:induction false} LatestDistinct(saves: seq<SaveCall>)
    ensures DistinctIds(Latest(saves))
  {
    if saves == [] {
    } else {
      var before, last := Latest(saves[..|saves| - 1]), saves[|saves| - 1];
      LatestDistinct(saves[..|saves| - 1]);
      DropDistinct(before, last.id);
      forall i | 0 <= i < |Drop(before, last.id)|
        ensures Drop(before, last.id)[i].id != last.id
      {
        DropMembers(before, last.id, Drop(before, last.id)[i]);
      }
    }
  }

  lemma {:induction false} WithoutIsDrop(rows: Table, id: MsgId)
    ensures Calls(Without(rows, id)) == Drop(Calls(rows), id)
  {
    if rows == [] {
    } else {
      var n := |rows| - 1;
      WithoutIsDrop(rows[..n], id);
      assert Calls(rows)[..n] == Calls(rows[..n]);
    }
  }

  lemma {:induction false} WithoutMembers(rows: Table, id: MsgId)
    ensures forall r :: r in Without(rows, id) ==> r in rows && r.id != id
  {
    if rows == [] {
    } else {
      var n := |rows| - 1;
      WithoutMembers(rows[..n], id);
      forall r | r in Without(rows, id)
        ensures r in rows && r.id != id
      {
        assert r in Without(rows[..n], id) || r == rows[n];
      }
    }
  }

  lemma {:induction false} WithoutKeepsOrder(rows: Table, id: MsgId)
    requires InOrder(rows)
    ensures InOrder(Without(rows, id))
  {
    if rows == [] {
    } else {
      var n := |rows| - 1;
      WithoutKeepsOrder(rows[..n], id);
      WithoutMembers(rows[..n], id);
      var front := Without(rows[..n], id);
      forall i | 0 <= i < |front|
        ensures front[i].rowid < rows[n].rowid && front[i].createdAt <= rows[n].createdAt
      {
        assert front[i] in rows[..n];
        var j :| 0 <= j < n && rows[j] == front[i];
      }
    }
  }

  lemma {:induction false} MaxRowidBounds(rows: Table)
    ensures forall i :: 0 <= i < |rows| ==> rows[i].rowid <= MaxRowid(rows)
  {
    if rows == [] {
    } else {
      MaxRowidBounds(rows[..|rows| - 1]);
    }
  }

  /** In an ordered table the oldest row is the first one. */
  lemma {:induction false} OldestIsFirst(rows: Table)
    requires rows != [] && InOrder(rows)
    ensures Oldest(rows) == 0
  {
    if |rows| > 1 {
      OldestIsFirst(rows[..|rows| - 1]);
    }
  }

  /** Rows that stay have smaller rowids than the new one, and are no younger if the clock has not run backwards. */
  lemma OthersPrecede(rows: Table, id: MsgId, now: int)
    ensures forall i :: 0 <= i < |Without(rows, id)| ==> Without(rows, id)[i].rowid < MaxRowid(rows) + 1
    ensures (forall i :: 0 <= i < |rows| ==> rows[i].createdAt <= now) ==>
      forall i :: 0 <= i < |Without(rows, id)| ==> Without(rows, id)[i].createdAt <= now
  {
    var others := Without(rows, id);
    WithoutMembers(rows, id);
    MaxRowidBounds(rows);
    forall i | 0 <= i < |others|
      ensures others[i] in rows
    {
      assert others[i] in others;
    }
  }

  lemma InsertInOrder(rows: Table, id: MsgId, context: Context, now: int)
    requires InOrder(rows) && forall i :: 0 <= i < |rows| ==> rows[i].createdAt <= now
    ensures InOrder(InsertOrReplace(rows, id, context, now))
    ensures Calls(InsertOrReplace(rows, id, context, now)) == Drop(Calls(rows), id) + [SaveCall(id, context, now)]
  {
    WithoutKeepsOrder(rows, id);
    WithoutIsDrop(rows, id);
    OthersPrecede(rows, id, now);
    var others, row := Without(rows, id), Row(id, context, now, MaxRowid(rows) + 1);
    hide Without, MaxRowid, Drop;
    assert Calls(others + [row]) == Calls(others) + [SaveCall(id, context, now)];
  }

  lemma LastOfJoined(front: seq<SaveCall>, kept: seq<SaveCall>, n: nat)
    requires |kept| >= n || front == []
    ensures LastOf(front + kept, n) == LastOf(kept, n)
  {
  }

  lemma DistinctParts(a: seq<SaveCall>, b: seq<SaveCall>)
    requires DistinctIds(a + b)
    ensures DistinctIds(b) && forall i, j :: 0 <= i < |a| && 0 <= j < |b| ==> a[i].id != b[j].id
  {
    forall i, j | 0 <= i < |a| && 0 <= j < |b|
      ensures a[i].id != b[j].id
    {
      assert (a + b)[i] == a[i] && (a + b)[|a| + j] == b[j];
    }
    forall i, j | 0 <= i < j < |b|
      ensures b[i].id != b[j].id
    {
      assert (a + b)[|a| + i] == b[i] && (a + b)[|a| + j] == b[j];
    }
  }

  lemma DropAtMostOne(calls: seq<SaveCall>, id: MsgId)
    requires DistinctIds(calls)
    ensures |calls| - 1 <= |Drop(calls, id)| <= |calls|
  {
    if p :| 0 <= p < |calls| && calls[p].id == id {
      var x := calls[p];
      assert calls == calls[..p] + [x] + calls[p + 1..];
      DropOne(calls[..p], x, calls[p + 1..]);
    } else {
      DropAbsent(calls, id);
    }
  }

  lemma DropFront(front: seq<SaveCall>, tail: seq<SaveCall>, last: SaveCall) returns (dropped: seq<SaveCall>)
    ensures Drop(front + tail, last.id) + [last] == dropped + (Drop(tail, last.id) + [last])
    ensures front == [] ==> dropped == []
  {
    dropped := Drop(front, last.id);
    DropAppend(front, tail, last.id);
  }

  /** Dropping an id and appending commutes with cutting the list to its last `n` entries. */
  lemma LastOfStep(calls: seq<SaveCall>, last: SaveCall, n: nat)
    requires DistinctIds(calls) && n >= 1
    ensures var kept := Drop(LastOf(calls, n), last.id) + [last];
      LastOf(Drop(calls, last.id) + [last], n) == LastOf(kept, n) && |kept| <= n + 1
  {
    var tail := LastOf(calls, n);
    var front := calls[..|calls| - |tail|];
    assert calls == front + tail;
    DistinctParts(front, tail);
    DropAtMostOne(tail, last.id);
    var dropped := DropFront(front, tail, last);
    LastOfJoined(dropped, Drop(tail, last.id) + [last], n);
  }

  ghost predicate TableIs(rows: Table, saves: seq<SaveCall>) {
    && InOrder(rows)
    && Calls(rows) == LastOf(Latest(saves), MAX_ROWS - 1)
    && forall i :: 0 <= i < |rows| ==> saves != [] && rows[i].createdAt <= saves[|saves| - 1].at
  }

  lemma InsertTimes(rows: Table, id: MsgId, context: Context, now: int)
    requires forall i :: 0 <= i < |rows| ==> rows[i].createdAt <= now
    ensures forall i :: 0 <= i < |Save(rows, id, context, now)| ==> Save(rows, id, context, now)[i].createdAt <= now
  {
    OthersPrecede(rows, id, now);
  }

  lemma DeleteFirst(t: Table)
    requires t != [] && InOrder(t)
    ensures InOrder(DeleteAt(t, 0)) && Calls(DeleteAt(t, 0)) == LastOf(Calls(t), |t| - 1)
  {
  }

  /** Trimming an ordered table keeps its last 199 rows. */
  lemma TrimKeepsLast(t: Table)
    requires InOrder(t) && |t| <= MAX_ROWS
    ensures InOrder(Trim(t)) && Calls(Trim(t)) == LastOf(Calls(t), MAX_ROWS - 1)
  {
    if |t| == MAX_ROWS {
      OldestIsFirst(t);
      DeleteFirst(t);
    }
  }

  lemma SaveCalls(rows: Table, latest: seq<SaveCall>, last: SaveCall)
    requires InOrder(rows) && DistinctIds(latest) && Calls(rows) == LastOf(latest, MAX_ROWS - 1)
    requires forall i :: 0 <= i < |rows| ==> rows[i].createdAt <= last.at
    ensures var r := Save(rows, last.id, last.context, last.at);
      InOrder(r) && Calls(r) == LastOf(Drop(latest, last.id) + [last], MAX_ROWS - 1)
  {
    InsertInOrder(rows, last.id, last.context, last.at);
    LastOfStep(latest, last, MAX_ROWS - 1);
    TrimKeepsLast(InsertOrReplace(rows, last.id, last.context, last.at));
  }

  lemma LatestSnoc(saves: seq<SaveCall>, last: SaveCall)
    ensures Latest(saves + [last]) == Drop(Latest(saves), last.id) + [last]
  {
  }

  lemma SaveStep(rows: Table, saves: seq<SaveCall>, last: SaveCall)
    requires TableIs(rows, saves) && (saves != [] ==> saves[|saves| - 1].at <= last.at)
    ensures TableIs(Save(rows, last.id, last.context, last.at), saves + [last])
  {
    LatestSnoc(saves, last);
    LatestDistinct(saves);
    SaveCalls(rows, Latest(saves), last);
    InsertTimes(rows, last.id, last.context, last.at);
  }

  /** Under a clock that never runs backwards the table is the last 199 entries of the unbounded map. */
  lemma {:induction false} ReplayIsLatest(saves: seq<SaveCall>)
    requires Ordered(saves)
    ensures TableIs(Replay(saves), saves)
  {
    if saves == [] {
    } else {
      var n := |saves| - 1;
      ReplayIsLatest(saves[..n]);
      assert saves == saves[..n] + [saves[n]];
      SaveStep(Replay(saves[..n]), saves[..n], saves[n]);
    }
  }

  // ----- Looking up -----

  /** The entries after that of `id`. */
  function After(calls: seq<SaveCall>, id: MsgId): seq<SaveCall> {
    if calls == [] || calls[|calls| - 1].id == id then []
    else After(calls[..|calls| - 1], id) + [calls[|calls| - 1]]
  }

  function FindCall(calls: seq<SaveCall>, id: MsgId): Option<Context> {
    if calls == [] then None
    else if calls[|calls| - 1].id == id then Some(calls[|calls| - 1].context)
    else FindCall(calls[..|calls| - 1], id)
  }

  lemma {:induction false} FindIsFindCall(rows: Table, id: MsgId)
    ensures Find(rows, id) == FindCall(Calls(rows), id)
  {
    if rows == [] {
    } else {
      assert Calls(rows)[..|rows| - 1] == Calls(rows[..|rows| - 1]);
      FindIsFindCall(rows[..|rows| - 1], id);
    }
  }

  lemma LastOfSnoc(calls: seq<SaveCall>, n: nat)
    requires calls != [] && n >= 1
    ensures LastOf(calls, n) == LastOf(calls[..|calls| - 1], n - 1) + [calls[|calls| - 1]]
  {
  }

  lemma FindCallSnoc(calls: seq<SaveCall>, c: SaveCall, id: MsgId)
    ensures FindCall(calls + [c], id) == if c.id == id then Some(c.context) else FindCall(calls, id)
  {
  }

  /** Looking in the last `n` entries finds what looking in all finds, unless `n` entries follow it. */
  lemma {:induction false} FindInLast(calls: seq<SaveCall>, id: MsgId, n: nat)
    ensures FindCall(LastOf(calls, n), id) == if |After(calls, id)| < n then FindCall(calls, id) else None
  {
    if calls == [] || n == 0 {
      assert LastOf(calls, 0) == [];
    } else {
      var k := |calls| - 1;
      FindInLast(calls[..k], id, n - 1);
      LastOfSnoc(calls, n);
      FindCallSnoc(LastOf(calls[..k], n - 1), calls[k], id);
    }
  }

  lemma AfterSnoc(calls: seq<SaveCall>, last: SaveCall, k: MsgId)
    ensures After(calls + [last], k) == if last.id == k then [] else After(calls, k) + [last]
  {
    assert (calls + [last])[..|calls|] == calls;
  }

  lemma {:induction false} DropKeepsOthers(calls: seq<SaveCall>, id: MsgId, k: MsgId)
    requires id != k
    ensures After(Drop(calls, id), k) == Drop(After(calls, k), id)
    ensures FindCall(Drop(calls, id), k) == FindCall(calls, k)
    decreases |calls|
  {
    if calls == [] {
    } else {
      var init, last := calls[..|calls| - 1], calls[|calls| - 1];
      assert calls == init + [last];
      assert Drop([], id) == [];
      hide After, Drop, FindCall;
      DropKeepsOthers(init, id, k);
      DropSnoc(init, last, id);
      FindCallSnoc(init, last, k);
      AfterSnoc(init, last, k);
      if last.id == id {
        assert Drop(calls, id) == Drop(init, id);
        DropSnoc(After(init, k), last, id);
      } else {
        assert Drop(calls, id) == Drop(init, id) + [last];
        FindCallSnoc(Drop(init, id), last, k);
        AfterSnoc(Drop(init, id), last, k);
        if last.id != k {
          DropSnoc(After(init, k), last, id);
        }
      }
    }
  }

  lemma DropSnoc(calls: seq<SaveCall>, last: SaveCall, id: MsgId)
    ensures Drop(calls + [last], id) == Drop(calls, id) + (if last.id == id then [] else [last])
  {
  }

  ghost function Ids(calls: seq<SaveCall>): set<MsgId> {
    set c | c in calls :: c.id
  }

  lemma {:induction false} IdsCount(calls: seq<SaveCall>)
    requires DistinctIds(calls)
    ensures |Ids(calls)| == |calls|
  {
    if calls == [] {
    } else {
      var n := |calls| - 1;
      IdsCount(calls[..n]);
      assert calls == calls[..n] + [calls[n]];
      assert Ids(calls) == Ids(calls[..n]) + {calls[n].id};
      assert calls[n].id !in Ids(calls[..n]);
    }
  }

  lemma {:induction false} AfterDistinct(calls: seq<SaveCall>, id: MsgId)
    requires DistinctIds(calls)
    ensures DistinctIds(After(calls, id))
    ensures forall c :: c in After(calls, id) ==> c in calls
  {
    if calls != [] && calls[|calls| - 1].id != id {
      var n := |calls| - 1;
      AfterDistinct(calls[..n], id);
      var front := After(calls[..n], id);
      forall i | 0 <= i < |front|
        ensures front[i].id != calls[n].id
      {
        assert front[i] in calls[..n];
      }
    }
  }

  lemma IdsOfDropped(calls: seq<SaveCall>, last: SaveCall)
    ensures Ids(Drop(calls, last.id) + [last]) == Ids(calls) + {last.id}
  {
    var r := Drop(calls, last.id) + [last];
    assert last in r;
    forall c | c in calls
      ensures c.id in Ids(r)
    {
      DropMembers(calls, last.id, c);
      assert c.id != last.id ==> c in r;
    }
    forall c | c in r
      ensures c.id in Ids(calls) + {last.id}
    {
      DropMembers(calls, last.id, c);
    }
  }

  /** The entries after that of a saved id are the other ids saved since. */
  lemma {:induction false} AfterIsOthersSince(saves: seq<SaveCall>, id: MsgId)
    requires LastContext(saves, id).Some?
    ensures Ids(After(Latest(saves), id)) == OthersSince(saves, id)
    ensures FindCall(Latest(saves), id) == LastContext(saves, id)
  {
    var n := |saves| - 1;
    var before, last := Latest(saves[..n]), saves[n];
    var front := Drop(before, last.id);
    assert (front + [last])[..|front|] == front;
    if last.id != id {
      AfterIsOthersSince(saves[..n], id);
      DropKeepsOthers(before, last.id, id);
      IdsOfDropped(After(before, id), last);
    }
  }

  lemma {:induction false} NeverSaved(saves: seq<SaveCall>, id: MsgId)
    requires LastContext(saves, id).None?
    ensures FindCall(Latest(saves), id) == None
  {
    if saves == [] {
    } else {
      var n := |saves| - 1;
      var before, last := Latest(saves[..n]), saves[n];
      var front := Drop(before, last.id);
      assert (front + [last])[..|front|] == front;
      NeverSaved(saves[..n], id);
      DropKeepsOthers(before, last.id, id);
    }
  }

  /**
   * Under a clock that never runs backwards, a lookup of `id` returns its last
   * saved context when fewer than 199 distinct other ids were saved since, and
   * nothing otherwise.
   */
  lemma TableAgreesWithMap(saves: seq<SaveCall>, id: MsgId)
    requires Ordered(saves)
    ensures Find(Replay(saves), id) == if |OthersSince(saves, id)| < MAX_ROWS - 1 then LastContext(saves, id) else None
  {
    ReplayIsLatest(saves);
    FindIsFindCall(Replay(saves), id);
    FindInLast(Latest(saves), id, MAX_ROWS - 1);
    if LastContext(saves, id).Some? {
      AfterIsOthersSince(saves, id);
      LatestDistinct(saves);
      AfterDistinct(Latest(saves), id);
      IdsCount(After(Latest(saves), id));
    } else {
      NeverSaved(saves, id);
    }
  }

  // ----- When the clock runs backwards -----

  lemma {:induction false} OldestComesFirst(rows: Table)
    requires rows != []
    ensures forall j :: 0 <= j < |rows| ==> !Before(rows[j], rows[Oldest(rows)])
  {
    if |rows| > 1 {
      OldestComesFirst(rows[..|rows| - 1]);
    }
  }

  lemma {:induction false} FindWithout(rows: Table, id: MsgId)
    ensures Find(Without(rows, id), id) == None
  {
    if rows == [] {
    } else {
      var front := Without(rows[..|rows| - 1], id);
      FindWithout(rows[..|rows| - 1], id);
      if rows[|rows| - 1].id != id {
        assert (front + [rows[|rows| - 1]])[..|front|] == front;
      } else {
        assert front + [] == front;
      }
    }
  }

  /** Deleting any row but the one just inserted keeps that one. */
  lemma InsertedStays(others: Table, row: Row, o: nat)
    requires o < |others|
    ensures Find(DeleteAt(others + [row], o), row.id) == Some(row.context)
  {
  }

  /**
   * A save is forgotten at once exactly when the table holds 199 rows of other
   * ids or more and the clock is behind all of them.
   */
  lemma WhenSaveIsForgotten(rows: Table, id: MsgId, context: Context, now: int)
    ensures Find(Save(rows, id, context, now), id) == None <==>
      var others := Without(rows, id);
      |others| >= MAX_ROWS - 1 && forall i :: 0 <= i < |others| ==> now < others[i].createdAt
  {
    var others := Without(rows, id);
    FindWithout(rows, id);
    OthersPrecede(rows, id, now);
    TrimOfInserted(others, Row(id, context, now, MaxRowid(rows) + 1));
  }

  lemma TrimOfInserted(others: Table, row: Row)
    requires Find(others, row.id) == None && forall i :: 0 <= i < |others| ==> others[i].rowid < row.rowid
    ensures Find(Trim(others + [row]), row.id) == None <==>
      |others| >= MAX_ROWS - 1 && forall i :: 0 <= i < |others| ==> row.createdAt < others[i].createdAt
  {
    var t := others + [row];
    OldestOfInserted(others, row);
    DeletedInserted(others, row, Oldest(t));
    LastIsFound(others, row);
    hide Find, Oldest, DeleteAt;
    assert Trim(t) == if |t| >= MAX_ROWS then DeleteAt(t, Oldest(t)) else t;
  }

  lemma LastIsFound(others: Table, row: Row)
    ensures Find(others + [row], row.id) == Some(row.context)
  {
  }

  lemma DeletedInserted(others: Table, row: Row, o: nat)
    requires o <= |others| && Find(others, row.id) == None
    ensures Find(DeleteAt(others + [row], o), row.id) == None <==> o == |others|
  {
    if o == |others| {
      assert DeleteAt(others + [row], o) == others;
    } else {
      InsertedStays(others, row, o);
    }
  }

  /** The row just inserted comes first exactly when its time is before all others. */
  lemma OldestOfInserted(others: Table, row: Row)
    requires forall i :: 0 <= i < |others| ==> others[i].rowid < row.rowid
    ensures Oldest(others + [row]) == |others| <==> forall i :: 0 <= i < |others| ==> row.createdAt < others[i].createdAt
  {
    var t := others + [row];
    OldestComesFirst(t);
    var o := Oldest(t);
    if o == |others| {
      forall i | 0 <= i < |others|
        ensures row.createdAt < others[i].createdAt
      {
        assert t[i] == others[i] && !Before(t[i], t[o]);
      }
    } else {
      assert t[o] == others[o] && !Before(t[|others|], t[o]);
    }
  }

  // ----- Losing an id, whatever the clock does -----

  ghost predicate UniqueIds(rows: Table) {
    forall i, j :: 0 <= i < j < |rows| ==> rows[i].id != rows[j].id
  }

  lemma {:induction false} FindAppend(a: Table, b: Table, id: MsgId)
    ensures Find(a + b, id) == if Find(b, id).Some? then Find(b, id) else Find(a, id)
    decreases |b|
  {
    if b == [] {
      assert a + b == a;
    } else {
      var init, last := b[..|b| - 1], b[|b| - 1];
      assert (a + b)[..|a + b| - 1] == a + init;
      FindAppend(a, init, id);
    }
  }

  lemma {:induction false} FindAbsent(rows: Table, id: MsgId)
    requires forall i :: 0 <= i < |rows| ==> rows[i].id != id
    ensures Find(rows, id) == None
    decreases |rows|
  {
    if rows == [] {
    } else {
      FindAbsent(rows[..|rows| - 1], id);
    }
  }

  /** Deleting a row loses its id and no other. */
  lemma FindDeleted(rows: Table, o: nat, id: MsgId)
    requires o < |rows| && UniqueIds(rows)
    ensures Find(DeleteAt(rows, o), id) == if rows[o].id == id then None else Find(rows, id)
  {
    var a, row, b := rows[..o], rows[o], rows[o + 1..];
    assert rows == a + [row] + b;
    if row.id == id {
      FindAbsent(a, id);
      FindAbsent(b, id);
    }
    hide Find;
    FindAppend(a, b, id);
    FindAppend(a + [row], b, id);
    FindAppend(a, [row], id);
    FindOne(row, id);
  }

  lemma FindOne(row: Row, id: MsgId)
    ensures Find([row], id) == if row.id == id then Some(row.context) else None
  {
    assert [row][..0] == [];
  }

  lemma {:induction false} WithoutUnique(rows: Table, id: MsgId)
    requires UniqueIds(rows)
    ensures UniqueIds(Without(rows, id))
    ensures forall k :: k != id ==> Find(Without(rows, id), k) == Find(rows, k)
    decreases |rows|
  {
    if rows == [] {
    } else {
      var init, last := rows[..|rows| - 1], rows[|rows| - 1];
      var front := Without(init, id);
      WithoutUnique(init, id);
      WithoutMembers(init, id);
      forall i | 0 <= i < |front|
        ensures front[i].id != last.id
      {
        assert front[i] in init;
      }
      forall k | k != id
        ensures Find(Without(rows, id), k) == Find(rows, k)
      {
        FindAppend(front, if last.id == id then [] else [last], k);
        FindOne(last, k);
      }
    }
  }

  /** The table right after the insertion, before it is trimmed. */
  lemma InsertFinds(rows: Table, call: SaveCall, id: MsgId)
    requires UniqueIds(rows)
    ensures var t := InsertOrReplace(rows, call.id, call.context, call.at);
      UniqueIds(t) && Find(t, id) == if call.id == id then Some(call.context) else Find(rows, id)
  {
    var others := Without(rows, call.id);
    var row := Row(call.id, call.context, call.at, MaxRowid(rows) + 1);
    WithoutUnique(rows, call.id);
    WithoutMembers(rows, call.id);
    forall i | 0 <= i < |others|
      ensures others[i].id != call.id
    {
      assert others[i] in others;
    }
    hide Find, Without, MaxRowid;
    FindAppend(others, [row], id);
    FindOne(row, id);
  }

  /** The save finds 200 rows, itself included, and the row of `id` comes first among them. */
  predicate Evicts(rows: Table, call: SaveCall, id: MsgId) {
    var t := InsertOrReplace(rows, call.id, call.context, call.at);
    |t| >= MAX_ROWS && t[Oldest(t)].id == id
  }

  lemma SaveFinds(rows: Table, call: SaveCall, id: MsgId)
    requires UniqueIds(rows)
    ensures var r := Save(rows, call.id, call.context, call.at);
      && UniqueIds(r)
      && Find(r, id) ==
        if Evicts(rows, call, id) then None else if call.id == id then Some(call.context) else Find(rows, id)
  {
    var t := InsertOrReplace(rows, call.id, call.context, call.at);
    InsertFinds(rows, call, id);
    hide InsertOrReplace, Find;
    if |t| >= MAX_ROWS {
      FindDeleted(t, Oldest(t), id);
    }
  }

  /** The last save of `id` or some save after it evicted the row of `id`. */
  predicate EvictedSince(saves: seq<SaveCall>, id: MsgId)
    decreases |saves|
  {
    saves != [] &&
    var before, last := saves[..|saves| - 1], saves[|saves| - 1];
    Evicts(Replay(before), last, id) || (last.id != id && EvictedSince(before, id))
  }

  /**
   * Whatever the clock does: a lookup of `id` returns its last saved context,
   * exactly unless its last save or a later one found 200 rows of which the row
   * of `id` came first.
   */
  lemma {:induction false} FoundExactlyWhen(saves: seq<SaveCall>, id: MsgId)
    ensures UniqueIds(Replay(saves))
    ensures Find(Replay(saves), id) == if EvictedSince(saves, id) then None else LastContext(saves, id)
    decreases |saves|
  {
    if saves == [] {
    } else {
      var before, last := saves[..|saves| - 1], saves[|saves| - 1];
      FoundExactlyWhen(before, id);
      SaveFinds(Replay(before), last, id);
      hide Save, Evicts, Find;
      assert Replay(saves) == Save(Replay(before), last.id, last.context, last.at);
    }
  }

  /** Under a clock that never runs backwards a saved id is evicted exactly when 199 other ids have been saved since. */
  lemma EvictedUnderClock(saves: seq<SaveCall>, id: MsgId)
    requires Ordered(saves) && LastContext(saves, id).Some?
    ensures EvictedSince(saves, id) <==> |OthersSince(saves, id)| >= MAX_ROWS - 1
  {
    FoundExactlyWhen(saves, id);
    TableAgreesWithMap(saves, id);
  }

  // ----- A reachable table that forgets a save -----

  /** An id of `k` letters. */
  function LongId(k: nat): (id: MsgId)
    ensures |id| == k
  {
    seq(k, _ => 'm')
  }

  /** `n` saves of different ids, all at time 1. */
  function SavesAtOne(n: nat, context: Context): (saves: seq<SaveCall>)
    ensures |saves| == n && forall i :: 0 <= i < n ==> saves[i] == SaveCall(LongId(i), context, 1)
  {
    seq(n, i requires 0 <= i < n => SaveCall(LongId(i), context, 1))
  }

  lemma {:induction false} LatestOfDistinct(saves: seq<SaveCall>)
    requires DistinctIds(saves)
    ensures Latest(saves) == saves
  {
    if saves == [] {
    } else {
      var n := |saves| - 1;
      LatestOfDistinct(saves[..n]);
      DropAbsent(saves[..n], saves[n].id);
      assert saves == saves[..n] + [saves[n]];
    }
  }

  lemma {:induction false} WithoutAbsent(rows: Table, id: MsgId)
    requires forall i :: 0 <= i < |rows| ==> rows[i].id != id
    ensures Without(rows, id) == rows
    decreases |rows|
  {
    if rows == [] {
    } else {
      var init, last := rows[..|rows| - 1], rows[|rows| - 1];
      assert rows == init + [last];
      assert Without(rows, id) == Without(init, id) + [last];
      hide Without;
      WithoutAbsent(init, id);
    }
  }

  /** Few saves of different ids are all in the table. */
  lemma DistinctSavesStay(saves: seq<SaveCall>)
    requires Ordered(saves) && DistinctIds(saves) && |saves| <= MAX_ROWS - 1
    ensures Calls(Replay(saves)) == saves
  {
    ReplayIsLatest(saves);
    LatestOfDistinct(saves);
  }

  lemma SavesAtOneDiffer(n: nat, context: Context)
    ensures Ordered(SavesAtOne(n, context)) && DistinctIds(SavesAtOne(n, context))
  {
    var saves := SavesAtOne(n, context);
    forall i, j | 0 <= i < j < n
      ensures saves[i].id != saves[j].id
    {
      assert |saves[i].id| == i && |saves[j].id| == j;
    }
  }

  /** A full table of rows from time 1 forgets a save of another id at time 0. */
  lemma FullTableForgets(rows: Table, id: MsgId, context: Context)
    requires |rows| == MAX_ROWS - 1 && forall i :: 0 <= i < |rows| ==> rows[i].id != id && rows[i].createdAt == 1
    ensures Find(Save(rows, id, context, 0), id) == None
  {
    WithoutAbsent(rows, id);
    WhenSaveIsForgotten(rows, id, context, 0);
  }

  /** 199 saves at time 1 and one more, of another id, at time 0: the last one is not found. */
  lemma ForgottenSaveExample(context: Context)
    ensures var saves := SavesAtOne(199, context) + [SaveCall(LongId(199), context, 0)];
      LastContext(saves, LongId(199)) == Some(context) && Find(Replay(saves), LongId(199)) == None
  {
    hide Replay, Save, LongId;
    var saves, id := SavesAtOne(199, context), LongId(199);
    var rows := Replay(saves);
    SavesAtOneDiffer(199, context);
    DistinctSavesStay(saves);
    forall i | 0 <= i < |rows|
      ensures rows[i].id != id && rows[i].createdAt == 1
    {
      assert Calls(rows)[i] == saves[i] && |saves[i].id| == i;
    }
    ReplaySnoc(saves, SaveCall(id, context, 0));
    FullTableForgets(rows, id, context);
  }
}
