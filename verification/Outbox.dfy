/** The `outbox` and `dead_letter` tables: rows, single-statement updates as functions,
    and the repository methods that perform them on a shared database object. */
module Outbox {
  import opened Wrappers
  import opened Prelude

  type Id = string

  datatype Status = Pending | Sending | Sent | Retrying | DeadLetter

  datatype Entry = Entry(
    id: Id,
    routeKey: string,
    payload: string,
    status: Status,
    retryCount: nat,
    nextRetryAt: Option<int>,
    lastError: Option<string>,
    createdAt: int)

  /** A dead-letter row; `attempt` and `error` are the two parts of its reason text. */
  datatype DeadEntry = DeadEntry(payload: string, attempt: nat, error: string)

  type Table = map<Id, Entry>
  type DeadTable = map<Id, DeadEntry>

  function NewEntry(id: Id, routeKey: string, payload: string, now: int): Entry {
    Entry(id, routeKey, payload, Pending, 0, None, None, now)
  }

  ghost predicate Keyed(t: Table) {
    forall id :: id in t ==> t[id].id == id
  }

  predicate Terminal(e: Entry) {
    e.status == Sent || e.status == DeadLetter
  }

  predicate InFlight(e: Entry) {
    e.status == Sending || e.status == Retrying
  }

  // ---- single SQL statements ----

  /** INSERT OR IGNORE. */
  function InsertRow(t: Table, e: Entry): Table {
    if e.id in t then t else t[e.id := e]
  }

  /** UPDATE of status and last_error only: retry_count and next_retry_at stay. */
  function SetStatus(t: Table, id: Id, status: Status, error: Option<string>): Table {
    if id in t then t[id := t[id].(status := status, lastError := error)] else t
  }

  function SetRetrying(t: Table, id: Id, count: nat, at: int, error: string): Table {
    if id in t
    then t[id := t[id].(status := Retrying, retryCount := count, nextRetryAt := Some(at), lastError := Some(error))]
    else t
  }

  /** The write half of replay: UPDATE when the row exists, INSERT of a stand-in otherwise. */
  function SetReplayed(t: Table, id: Id, payload: string, now: int): Table {
    if id in t
    then t[id := t[id].(status := Pending, retryCount := 0, nextRetryAt := None, lastError := None, payload := payload)]
    else t[id := NewEntry(id, "replayed", payload, now)]
  }

  // ---- SELECT ... ORDER BY ... LIMIT ----

  datatype Query = PendingRows | RetryableRows(now: int) | InFlightRows

  /** The WHERE clause; a NULL next_retry_at compares as false. */
  predicate Selects(q: Query, e: Entry) {
    match q
    case PendingRows => e.status == Pending
    case RetryableRows(now) => e.status == Retrying && e.nextRetryAt.Some? && e.nextRetryAt.value <= now
    case InFlightRows => InFlight(e)
  }

  function Rank(q: Query, e: Entry): int {
    if q.RetryableRows? && e.nextRetryAt.Some? then e.nextRetryAt.value else e.createdAt
  }

  ghost predicate DistinctIds(batch: seq<Entry>) {
    forall i, j :: 0 <= i < j < |batch| ==> batch[i].id != batch[j].id
  }

  ghost function BatchIds(batch: seq<Entry>): set<Id> {
    set i | 0 <= i < |batch| :: batch[i].id
  }

  ghost function Selected(t: Table, q: Query): set<Id> {
    set id | id in t && Selects(q, t[id])
  }

  ghost predicate RowsOf(t: Table, batch: seq<Entry>) {
    forall i :: 0 <= i < |batch| ==> batch[i].id in t && t[batch[i].id] == batch[i]
  }

  ghost predicate SortedBy(q: Query, batch: seq<Entry>) {
    forall i, j :: 0 <= i < j < |batch| ==> Rank(q, batch[i]) <= Rank(q, batch[j])
  }

  /** Every row of the batch ranks no later than every row named by `ids`. */
  ghost predicate RanksBefore(t: Table, q: Query, batch: seq<Entry>, ids: set<Id>)
    requires ids <= t.Keys
  {
    forall i, id :: 0 <= i < |batch| && id in ids ==> Rank(q, batch[i]) <= Rank(q, t[id])
  }

  /** What a sorted, limited SELECT may return: ties are broken in any way. */
  ghost predicate IsFetch(t: Table, q: Query, limit: nat, batch: seq<Entry>) {
    && |batch| <= limit
    && RowsOf(t, batch) && DistinctIds(batch) && SortedBy(q, batch)
    && BatchIds(batch) <= Selected(t, q)
    && RanksBefore(t, q, batch, Selected(t, q) - BatchIds(batch))
    && (|batch| == limit || BatchIds(batch) == Selected(t, q))
  }

  // ---- what the three reads mean, without the helpers above ----

  /** `fetch_pending`: pending rows, oldest first; one is left out only by a full batch of rows no newer. */
  lemma PendingFetchMeans(t: Table, limit: nat, batch: seq<Entry>)
    requires IsFetch(t, PendingRows, limit, batch)
    ensures forall i :: 0 <= i < |batch| ==>
              batch[i].id in t && t[batch[i].id] == batch[i] && batch[i].status == Pending
    ensures forall i, j :: 0 <= i < j < |batch| ==> batch[i].createdAt <= batch[j].createdAt
    ensures forall id :: id in t && t[id].status == Pending && id !in BatchIds(batch) ==>
              |batch| == limit && forall i :: 0 <= i < |batch| ==> batch[i].createdAt <= t[id].createdAt
  {
    forall i | 0 <= i < |batch| ensures batch[i].status == Pending {
      assert batch[i].id in BatchIds(batch);
    }
    forall i, j | 0 <= i < j < |batch| ensures batch[i].createdAt <= batch[j].createdAt {
      assert Rank(PendingRows, batch[i]) <= Rank(PendingRows, batch[j]);
    }
    forall id | id in t && t[id].status == Pending && id !in BatchIds(batch)
      ensures |batch| == limit && forall i :: 0 <= i < |batch| ==> batch[i].createdAt <= t[id].createdAt
    {
      assert id in Selected(t, PendingRows) - BatchIds(batch);
      forall i | 0 <= i < |batch| ensures batch[i].createdAt <= t[id].createdAt {
        assert Rank(PendingRows, batch[i]) <= Rank(PendingRows, t[id]);
      }
    }
  }

  predicate DueAt(e: Entry, now: int) {
    e.status == Retrying && e.nextRetryAt.Some? && e.nextRetryAt.value <= now
  }

  predicate DueNoLater(a: Entry, b: Entry) {
    a.nextRetryAt.Some? && b.nextRetryAt.Some? && a.nextRetryAt.value <= b.nextRetryAt.value
  }

  /** `fetch_retryable`: retrying rows due by now, the earliest first; one is left out only by a
      full batch of rows due no later. */
  lemma RetryableFetchMeans(t: Table, now: int, limit: nat, batch: seq<Entry>)
    requires IsFetch(t, RetryableRows(now), limit, batch)
    ensures forall i :: 0 <= i < |batch| ==> batch[i].id in t && t[batch[i].id] == batch[i] && DueAt(batch[i], now)
    ensures forall i, j :: 0 <= i < j < |batch| ==> DueNoLater(batch[i], batch[j])
    ensures forall id :: id in t && DueAt(t[id], now) && id !in BatchIds(batch) ==>
              |batch| == limit && forall i :: 0 <= i < |batch| ==> DueNoLater(batch[i], t[id])
  {
    var q := RetryableRows(now);
    forall i | 0 <= i < |batch| ensures DueAt(batch[i], now) {
      assert batch[i].id in BatchIds(batch);
    }
    forall i, j | 0 <= i < j < |batch| ensures DueNoLater(batch[i], batch[j]) {
      assert Rank(q, batch[i]) <= Rank(q, batch[j]);
    }
    forall id | id in t && DueAt(t[id], now) && id !in BatchIds(batch)
      ensures |batch| == limit && forall i :: 0 <= i < |batch| ==> DueNoLater(batch[i], t[id])
    {
      assert id in Selected(t, q) - BatchIds(batch);
      forall i | 0 <= i < |batch| ensures DueNoLater(batch[i], t[id]) {
        assert Rank(q, batch[i]) <= Rank(q, t[id]);
      }
    }
  }

  /** `recover_after_crash` lists exactly the sending and retrying rows, oldest first. */
  lemma InFlightFetchMeans(t: Table, batch: seq<Entry>)
    requires IsFetch(t, InFlightRows, |t|, batch)
    ensures forall id :: id in BatchIds(batch) <==> id in t && (t[id].status == Sending || t[id].status == Retrying)
    ensures forall i, j :: 0 <= i < j < |batch| ==> batch[i].createdAt <= batch[j].createdAt
  {
    FetchAllIsComplete(t, batch);
    forall i, j | 0 <= i < j < |batch| ensures batch[i].createdAt <= batch[j].createdAt {
      assert Rank(InFlightRows, batch[i]) <= Rank(InFlightRows, batch[j]);
    }
  }

  lemma BatchIdsAppend(batch: seq<Entry>, e: Entry)
    ensures BatchIds(batch + [e]) == BatchIds(batch) + {e.id}
  {
    var b := batch + [e];
    forall id | id in BatchIds(batch) ensures id in BatchIds(b) {
      var i :| 0 <= i < |batch| && batch[i].id == id;
      assert b[i].id == id;
    }
    assert b[|batch|].id == e.id;
  }

  lemma BatchIdsTail(batch: seq<Entry>)
    requires batch != []
    ensures BatchIds(batch) == {batch[0].id} + BatchIds(batch[1..])
  {
    var tail := batch[1..];
    forall id | id in BatchIds(batch) ensures id in {batch[0].id} + BatchIds(tail) {
      var i :| 0 <= i < |batch| && batch[i].id == id;
      if i > 0 { assert tail[i - 1].id == id; }
    }
    forall id | id in BatchIds(tail) ensures id in BatchIds(batch) {
      var i :| 0 <= i < |tail| && tail[i].id == id;
      assert batch[i + 1].id == id;
    }
    assert batch[0].id in BatchIds(batch);
  }

  /** A selection in progress: `batch` is taken, `ids` is still to come. */
  ghost predicate PartialFetch(t: Table, q: Query, batch: seq<Entry>, ids: set<Id>) {
    && RowsOf(t, batch) && DistinctIds(batch) && SortedBy(q, batch)
    && ids !! BatchIds(batch) && ids + BatchIds(batch) == Selected(t, q)
    && RanksBefore(t, q, batch, ids)
  }

  /** Appending the lowest-ranked remaining row keeps the batch a sorted prefix. */
  lemma FetchStep(t: Table, q: Query, batch: seq<Entry>, ids: set<Id>, best: Id)
    requires Keyed(t) && PartialFetch(t, q, batch, ids)
    requires ids <= t.Keys && IsLeast(ids, RankIn(t, q), best)
    ensures PartialFetch(t, q, batch + [t[best]], ids - {best})
  {
    forall i | 0 <= i < |batch| ensures batch[i].id != best {
      assert batch[i].id in BatchIds(batch);
    }
    BatchIdsAppend(batch, t[best]);
  }

  lemma FetchDone(t: Table, q: Query, limit: nat, batch: seq<Entry>, ids: set<Id>)
    requires PartialFetch(t, q, batch, ids) && |batch| <= limit && (|batch| == limit || ids == {})
    ensures IsFetch(t, q, limit, batch)
  {
    assert ids == Selected(t, q) - BatchIds(batch);
  }

  /** The rank of a row by its id. */
  function RankIn(t: Table, q: Query): Id -> int {
    id => if id in t then Rank(q, t[id]) else 0
  }

  method Select(t: Table, q: Query, limit: nat) returns (batch: seq<Entry>)
    requires Keyed(t)
    ensures IsFetch(t, q, limit, batch)
  {
    batch := [];
    var ids := set id | id in t && Selects(q, t[id]);
    assert PartialFetch(t, q, batch, ids);
    while |batch| < limit && ids != {}
      invariant |batch| <= limit && ids <= t.Keys && PartialFetch(t, q, batch, ids)
      decreases |ids|
    {
      var best := PickLeast(ids, RankIn(t, q));
      FetchStep(t, q, batch, ids, best);
      batch := batch + [t[best]];
      ids := ids - {best};
    }
    FetchDone(t, q, limit, batch, ids);
  }

  // ---- crash recovery as a value ----

  /** Every in-flight row back to pending, everything else untouched. */
  function Recovered(t: Table): Table {
    map id | id in t :: if InFlight(t[id]) then t[id].(status := Pending, lastError := None) else t[id]
  }

  /** Both tables, as a crash would leave them. */
  datatype Store = Store(outbox: Table, dead: DeadTable)

  /** What happens to the outside: the tables after a statement, or a hand-off to the sender. */
  datatype Event = Wrote(store: Store) | Offered(id: Id)

  class Db {
    var outbox: Table
    var deadLetters: DeadTable
    ghost var journal: seq<Event>

    ghost function Snapshot(): Store
      reads this
    {
      Store(outbox, deadLetters)
    }

    constructor ()
      ensures outbox == map[] && deadLetters == map[] && journal == []
    {
      outbox, deadLetters, journal := map[], map[], [];
    }

    method Insert(e: Entry)
      modifies this`outbox, this`journal
      ensures outbox == InsertRow(old(outbox), e) && journal == old(journal) + [Wrote(Snapshot())]
    {
      if e.id !in outbox {
        outbox := outbox[e.id := e];
      }
      journal := journal + [Wrote(Snapshot())];
    }

    method MarkStatus(id: Id, status: Status, error: Option<string>)
      modifies this`outbox, this`journal
      ensures outbox == SetStatus(old(outbox), id, status, error) && journal == old(journal) + [Wrote(Snapshot())]
    {
      if id in outbox {
        outbox := outbox[id := outbox[id].(status := status, lastError := error)];
      }
      journal := journal + [Wrote(Snapshot())];
    }

    method MarkRetrying(id: Id, count: nat, at: int, error: string)
      modifies this`outbox, this`journal
      ensures outbox == SetRetrying(old(outbox), id, count, at, error)
      ensures journal == old(journal) + [Wrote(Snapshot())]
    {
      if id in outbox {
        var e := outbox[id];
        outbox := outbox[id := e.(status := Retrying, retryCount := count,
                                  nextRetryAt := Some(at), lastError := Some(error))];
      }
      journal := journal + [Wrote(Snapshot())];
    }

    method Fetch(q: Query, limit: nat) returns (batch: seq<Entry>)
      requires Keyed(outbox)
      ensures IsFetch(outbox, q, limit, batch)
    {
      batch := Select(outbox, q, limit);
    }

    /** INSERT into dead_letter: a primary-key conflict is an error and changes nothing. */
    method InsertDead(id: Id, d: DeadEntry) returns (ok: bool)
      modifies this`deadLetters, this`journal
      ensures journal == old(journal) + [Wrote(Snapshot())]
      ensures ok == (id !in old(deadLetters))
      ensures deadLetters == if ok then old(deadLetters)[id := d] else old(deadLetters)
    {
      ok := id !in deadLetters;
      if ok {
        deadLetters := deadLetters[id := d];
      }
      journal := journal + [Wrote(Snapshot())];
    }

    /** The moment an entry is given to the sender. */
    ghost method Offer(e: Entry)
      modifies this`journal
      ensures journal == old(journal) + [Offered(e.id)]
    {
      journal := journal + [Offered(e.id)];
    }

    /** Delete the dead-letter row, then put the message back in the outbox: an existing row as
        if newly inserted, otherwise a stand-in. */
    method Replay(id: Id, now: int) returns (r: Result<Entry, string>)
      modifies this
      ensures r.Ok? == (id in old(deadLetters))
      ensures r.Err? ==> outbox == old(outbox) && deadLetters == old(deadLetters) && journal == old(journal)
      ensures r.Ok? ==>
                journal == old(journal) + [Wrote(Store(old(outbox), deadLetters)), Wrote(Snapshot())]
      ensures r.Ok? ==>
                && deadLetters == old(deadLetters) - {id}
                && outbox == SetReplayed(old(outbox), id, old(deadLetters)[id].payload, now)
      ensures r.Ok? ==>
                && outbox.Keys == old(outbox).Keys + {id} && outbox - {id} == old(outbox) - {id}
                && outbox[id] == Entry(
                     if id in old(outbox) then old(outbox)[id].id else id,
                     if id in old(outbox) then old(outbox)[id].routeKey else "replayed",
                     old(deadLetters)[id].payload, Pending, 0, None, None,
                     if id in old(outbox) then old(outbox)[id].createdAt else now)
      ensures r.Ok? ==>
                r.value == Entry(id, outbox[id].routeKey, old(deadLetters)[id].payload, Pending, 0, None, None, now)
    {
      if id !in deadLetters {
        return Err("no such dead letter");
      }
      var dead := deadLetters[id];
      deadLetters := deadLetters - {id};
      journal := journal + [Wrote(Snapshot())];
      if id in outbox {
        var e := outbox[id];
        outbox := outbox[id := e.(status := Pending, retryCount := 0,
                                  nextRetryAt := None, lastError := None, payload := dead.payload)];
        journal := journal + [Wrote(Snapshot())];
        return Ok(NewEntry(id, e.routeKey, dead.payload, now));
      } else {
        outbox := outbox[id := NewEntry(id, "replayed", dead.payload, now)];
        journal := journal + [Wrote(Snapshot())];
        return Ok(NewEntry(id, "replayed", dead.payload, now));
      }
    }

    /** Crash recovery: list the in-flight rows, then reset them one by one. */
    method RecoverAfterCrash() returns (count: nat, ghost entries: seq<Entry>)
      requires Keyed(outbox)
      modifies this`outbox, this`journal
      ensures IsFetch(old(outbox), InFlightRows, |old(outbox)|, entries) && count == |entries|
      ensures journal == old(journal) + ResetJournal(old(outbox), deadLetters, entries)
      ensures outbox == Recovered(old(outbox))
      ensures outbox.Keys == old(outbox).Keys
      ensures forall id :: id in old(outbox) ==>
                var e := old(outbox)[id];
                outbox[id] ==
                if e.status == Sending || e.status == Retrying then e.(status := Pending, lastError := None) else e
      ensures count == |Selected(old(outbox), InFlightRows)|
    {
      var found := Fetch(InFlightRows, |outbox|);
      entries := found;
      FetchAllIsComplete(outbox, entries);
      ResetRowsIsRecovered(outbox, entries);
      count := |found|;
      for k := 0 to |found|
        invariant outbox == ResetRows(old(outbox), found[..k])
        invariant journal == old(journal) + ResetJournal(old(outbox), deadLetters, found[..k])
      {
        MarkStatus(found[k].id, Pending, None);
        assert found[..k + 1][..k] == found[..k];
      }
      assert found[..|found|] == found;
    }
  }

  /** What the recovery loop writes, statement by statement. */
  ghost function ResetJournal(t: Table, dead: DeadTable, batch: seq<Entry>): seq<Event> {
    if batch == [] then []
    else ResetJournal(t, dead, batch[..|batch| - 1]) + [Wrote(Store(ResetRows(t, batch), dead))]
  }

  /** The recovery loop after the rows of `batch`, in order. */
  function ResetRows(t: Table, batch: seq<Entry>): Table {
    if batch == [] then t
    else SetStatus(ResetRows(t, batch[..|batch| - 1]), batch[|batch| - 1].id, Pending, None)
  }

  lemma {:induction false} ResetRowsPointwise(t: Table, batch: seq<Entry>)
    ensures ResetRows(t, batch).Keys == t.Keys
    ensures forall id :: id in t ==>
              ResetRows(t, batch)[id] ==
              if id in BatchIds(batch) then t[id].(status := Pending, lastError := None) else t[id]
  {
    if batch != [] {
      var front := batch[..|batch| - 1];
      ResetRowsPointwise(t, front);
      BatchIdsAppend(front, batch[|batch| - 1]);
      assert front + [batch[|batch| - 1]] == batch;
    }
  }

  lemma ResetRowsIsRecovered(t: Table, batch: seq<Entry>)
    requires BatchIds(batch) == Selected(t, InFlightRows)
    ensures ResetRows(t, batch) == Recovered(t)
  {
    ResetRowsPointwise(t, batch);
  }

  lemma {:induction false} BatchIdsCount(batch: seq<Entry>)
    requires DistinctIds(batch)
    ensures |BatchIds(batch)| == |batch|
  {
    if batch != [] {
      var front := batch[..|batch| - 1];
      BatchIdsCount(front);
      BatchIdsAppend(front, batch[|batch| - 1]);
      assert front + [batch[|batch| - 1]] == batch;
    }
  }

  /** With a limit as large as the table, the fetch returns every selected row. */
  lemma FetchAllIsComplete(t: Table, batch: seq<Entry>)
    requires IsFetch(t, InFlightRows, |t|, batch)
    ensures BatchIds(batch) == Selected(t, InFlightRows) && |batch| == |Selected(t, InFlightRows)|
  {
    BatchIdsCount(batch);
    var rest := Selected(t, InFlightRows) - BatchIds(batch);
    assert Selected(t, InFlightRows) == BatchIds(batch) + rest;
    if rest != {} {
      SubsetCount(Selected(t, InFlightRows), t.Keys);
      assert false;
    }
  }
}
