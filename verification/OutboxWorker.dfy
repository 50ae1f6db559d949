/** The outbox worker as the source runs it, one tick after another, against the shared
    database, and its refinement to the single-write protocol. */
module OutboxWorker {
  import opened Wrappers
  import opened Prelude
  import opened Backoff
  import opened Outbox
  import Delivery

  /** What one hand-off comes back with; `now` is the clock read when a retry is scheduled. */
  datatype Reply = Accepted | Rejected(error: string, now: int)

  /** `next_delay_ms(..) as i64`: the upper half of u64 wraps to negative. */
  function AsI64(x: u64): int {
    if x < 0x8000_0000_0000_0000 then x else x - 0x1_0000_0000_0000_0000
  }

  /** One loop iteration, write by write. */
  function Handle(c: RetryConfig, s: Store, e: Entry, r: Reply): Store {
    var t := SetStatus(s.outbox, e.id, Sending, None);
    match r
    case Accepted => Store(SetStatus(t, e.id, Sent, None), s.dead)
    case Rejected(error, now) =>
      var count := e.retryCount + 1;
      if count >= c.maxRetries then
        Store(SetStatus(t, e.id, DeadLetter, Some(error)),
              if e.id in s.dead then s.dead else s.dead[e.id := DeadEntry(e.payload, count, error)])
      else
        Store(SetRetrying(t, e.id, count, now + AsI64(NextDelayMs(c, count)), error), s.dead)
  }

  /** The store after the first n entries; `sender(i)` answers the i-th hand-off. */
  function HandleUpTo(c: RetryConfig, s: Store, batch: seq<Entry>, sender: nat -> Reply, n: nat): Store
    requires n <= |batch|
  {
    if n == 0 then s
    else Handle(c, HandleUpTo(c, s, batch, sender, n - 1), batch[n - 1], sender(n - 1))
  }

  /** The same iteration as the outside sees it: every write in its order, and the hand-off. */
  ghost function HandleJournal(c: RetryConfig, s: Store, e: Entry, r: Reply): seq<Event> {
    OfferJournal(s, e) + OutcomeJournal(c, s, e, r)
  }

  ghost function OfferJournal(s: Store, e: Entry): seq<Event> {
    [Wrote(Store(SetStatus(s.outbox, e.id, Sending, None), s.dead)), Offered(e.id)]
  }

  ghost function OutcomeJournal(c: RetryConfig, s: Store, e: Entry, r: Reply): seq<Event> {
    var done := Handle(c, s, e, r);
    if r.Rejected? && e.retryCount + 1 >= c.maxRetries
    then [Wrote(Store(done.outbox, s.dead)), Wrote(done)]
    else [Wrote(done)]
  }

  ghost function JournalUpTo(c: RetryConfig, s: Store, batch: seq<Entry>, sender: nat -> Reply, n: nat): seq<Event>
    requires n <= |batch|
  {
    if n == 0 then []
    else
      JournalUpTo(c, s, batch, sender, n - 1)
      + HandleJournal(c, HandleUpTo(c, s, batch, sender, n - 1), batch[n - 1], sender(n - 1))
  }

  method HandleEntry(db: Db, c: RetryConfig, e: Entry, r: Reply)
    modifies db
    ensures db.Snapshot() == Handle(c, old(db.Snapshot()), e, r)
    ensures db.journal == old(db.journal) + HandleJournal(c, old(db.Snapshot()), e, r)
  {
    db.MarkStatus(e.id, Sending, None);
    db.Offer(e);
    match r {
      case Accepted =>
        db.MarkStatus(e.id, Sent, None);
      case Rejected(error, now) =>
        var count := e.retryCount + 1;
        if count >= c.maxRetries {
          db.MarkStatus(e.id, DeadLetter, Some(error));
          var _ := db.InsertDead(e.id, DeadEntry(e.payload, count, error));
        } else {
          db.MarkRetrying(e.id, count, now + AsI64(NextDelayMs(c, count)), error);
        }
    }
  }

  /** The loop shared word for word by `process_pending` and `process_retries`. */
  method HandleEntries(db: Db, c: RetryConfig, batch: seq<Entry>, sender: nat -> Reply)
    modifies db
    ensures db.Snapshot() == HandleUpTo(c, old(db.Snapshot()), batch, sender, |batch|)
    ensures db.journal == old(db.journal) + JournalUpTo(c, old(db.Snapshot()), batch, sender, |batch|)
  {
    for i := 0 to |batch|
      invariant db.Snapshot() == HandleUpTo(c, old(db.Snapshot()), batch, sender, i)
      invariant db.journal == old(db.journal) + JournalUpTo(c, old(db.Snapshot()), batch, sender, i)
    {
      HandleEntry(db, c, batch[i], sender(i));
    }
  }

  /** A pass whose fetch fails is skipped: it is one with no room for any entry. */
  function Room(limit: nat, readOk: bool): nat {
    if readOk then limit else 0
  }

  method ProcessPending(db: Db, c: RetryConfig, sender: nat -> Reply, limit: nat, readOk: bool)
    returns (batch: seq<Entry>)
    requires Keyed(db.outbox)
    modifies db
    ensures IsFetch(old(db.outbox), PendingRows, Room(limit, readOk), batch)
    ensures db.Snapshot() == HandleUpTo(c, old(db.Snapshot()), batch, sender, |batch|)
    ensures db.journal == old(db.journal) + JournalUpTo(c, old(db.Snapshot()), batch, sender, |batch|)
  {
    if !readOk {
      return [];
    }
    batch := db.Fetch(PendingRows, limit);
    HandleEntries(db, c, batch, sender);
  }

  method ProcessRetries(db: Db, c: RetryConfig, sender: nat -> Reply, now: int, limit: nat, readOk: bool)
    returns (batch: seq<Entry>)
    requires Keyed(db.outbox)
    modifies db
    ensures IsFetch(old(db.outbox), RetryableRows(now), Room(limit, readOk), batch)
    ensures db.Snapshot() == HandleUpTo(c, old(db.Snapshot()), batch, sender, |batch|)
    ensures db.journal == old(db.journal) + JournalUpTo(c, old(db.Snapshot()), batch, sender, |batch|)
  {
    if !readOk {
      return [];
    }
    batch := db.Fetch(RetryableRows(now), limit);
    HandleEntries(db, c, batch, sender);
  }

  /** One turn of the worker loop: whether each fetch succeeded, what it gave, and how the
      sender answered. */
  datatype Tick = Tick(
    now: int,
    pendingOk: bool, pending: seq<Entry>, pendingReplies: nat -> Reply,
    dueOk: bool, due: seq<Entry>, dueReplies: nat -> Reply)

  function Midway(c: RetryConfig, s: Store, k: Tick): Store {
    HandleUpTo(c, s, k.pending, k.pendingReplies, |k.pending|)
  }

  ghost function TickJournal(c: RetryConfig, s: Store, k: Tick): seq<Event> {
    JournalUpTo(c, s, k.pending, k.pendingReplies, |k.pending|)
    + JournalUpTo(c, Midway(c, s, k), k.due, k.dueReplies, |k.due|)
  }

  ghost predicate IsTick(c: RetryConfig, limit: nat, s: Store, k: Tick, s': Store) {
    var mid := Midway(c, s, k);
    && IsFetch(s.outbox, PendingRows, Room(limit, k.pendingOk), k.pending)
    && IsFetch(mid.outbox, RetryableRows(k.now), Room(limit, k.dueOk), k.due)
    && s' == HandleUpTo(c, mid, k.due, k.dueReplies, |k.due|)
  }

  method RunTick(db: Db, c: RetryConfig, limit: nat, now: int,
                 pendingOk: bool, forPending: nat -> Reply, dueOk: bool, forDue: nat -> Reply)
    returns (k: Tick)
    requires Keyed(db.outbox)
    modifies db
    ensures IsTick(c, limit, old(db.Snapshot()), k, db.Snapshot())
    ensures db.journal == old(db.journal) + TickJournal(c, old(db.Snapshot()), k)
    ensures k.now == now && k.pendingOk == pendingOk && k.dueOk == dueOk
    ensures k.pendingReplies == forPending && k.dueReplies == forDue
  {
    ghost var s := db.Snapshot();
    var pending := ProcessPending(db, c, forPending, limit, pendingOk);
    BatchEffect(c, s, PendingRows, Room(limit, pendingOk), pending, forPending);
    ghost var first := JournalUpTo(c, s, pending, forPending, |pending|);
    ghost var mid := db.Snapshot();
    var due := ProcessRetries(db, c, forDue, now, limit, dueOk);
    Associate(old(db.journal), first, JournalUpTo(c, mid, due, forDue, |due|));
    k := Tick(now, pendingOk, pending, forPending, dueOk, due, forDue);
  }

  // ---- what a batch does to each row ----

  /** The row a handled entry ends up as. */
  function After(c: RetryConfig, e: Entry, r: Reply): Entry {
    match r
    case Accepted => e.(status := Sent, lastError := None)
    case Rejected(error, now) =>
      var count := e.retryCount + 1;
      if count >= c.maxRetries then e.(status := DeadLetter, lastError := Some(error))
      else e.(status := Retrying, retryCount := count, nextRetryAt := Some(now + AsI64(NextDelayMs(c, count))),
              lastError := Some(error))
  }

  lemma HandleIsUpdate(c: RetryConfig, s: Store, e: Entry, r: Reply)
    requires e.id in s.outbox && s.outbox[e.id] == e
    ensures Handle(c, s, e, r).outbox == s.outbox[e.id := After(c, e, r)]
  {
  }

  const HALF_RANGE: nat := 0x8000_0000_0000_0000

  /** When a refused message is due again: after exactly the computed delay, as long as that
      fits a signed 64-bit integer; otherwise at once. */
  lemma RetryDueExactly(c: RetryConfig, e: Entry, error: string, now: int)
    requires e.retryCount + 1 < c.maxRetries
    ensures
      var row, delay := After(c, e, Rejected(error, now)), NextDelayMs(c, e.retryCount + 1);
      && row.status == Retrying && row.retryCount == e.retryCount + 1 && row.lastError == Some(error)
      && row.nextRetryAt.Some?
      && (delay < HALF_RANGE ==> row.nextRetryAt.value == now + delay)
      && (delay >= HALF_RANGE ==> row.nextRetryAt.value < now)
      && (row.nextRetryAt.value >= now + Capped(c, e.retryCount + 1) <==> delay < HALF_RANGE)
  {
    DelayWithinBounds(c, e.retryCount + 1);
  }

  /** No message is retried early. */
  lemma NoEarlyRetry(c: RetryConfig, e: Entry, error: string, now: int, later: int)
    requires c.maxBackoffMs < HALF_RANGE && e.retryCount + 1 < c.maxRetries
    requires DueAt(After(c, e, Rejected(error, now)), later)
    ensures later >= now + Capped(c, e.retryCount + 1)
  {
    DelayWithinBounds(c, e.retryCount + 1);
    RetryDueExactly(c, e, error, now);
  }

  /** Handled rows become `After`; every other row is untouched. */
  ghost predicate Effect(c: RetryConfig, t: Table, batch: seq<Entry>, sender: nat -> Reply, t': Table) {
    && t'.Keys == t.Keys
    && (forall i :: 0 <= i < |batch| ==> batch[i].id in t' && t'[batch[i].id] == After(c, batch[i], sender(i)))
    && forall id :: id in t && id !in BatchIds(batch) ==> t'[id] == t[id]
  }

  lemma {:induction false} UntouchedRow(
      c: RetryConfig, s: Store, batch: seq<Entry>, sender: nat -> Reply, n: nat, id: Id)
    requires n <= |batch| && forall i :: 0 <= i < n ==> batch[i].id != id
    ensures id in HandleUpTo(c, s, batch, sender, n).outbox <==> id in s.outbox
    ensures id in s.outbox ==> HandleUpTo(c, s, batch, sender, n).outbox[id] == s.outbox[id]
    decreases n
  {
    if n > 0 { UntouchedRow(c, s, batch, sender, n - 1, id); }
  }

  /** The next entry's row is still the one fetched. */
  lemma StillQueued(c: RetryConfig, s: Store, batch: seq<Entry>, sender: nat -> Reply, n: nat)
    requires RowsOf(s.outbox, batch) && DistinctIds(batch) && n < |batch|
    ensures batch[n].id in HandleUpTo(c, s, batch, sender, n).outbox
    ensures HandleUpTo(c, s, batch, sender, n).outbox[batch[n].id] == batch[n]
  {
    UntouchedRow(c, s, batch, sender, n, batch[n].id);
  }

  lemma {:induction false} HandledRow(c: RetryConfig, s: Store, batch: seq<Entry>, sender: nat -> Reply, n: nat, i: nat)
    requires RowsOf(s.outbox, batch) && DistinctIds(batch) && i < n <= |batch|
    ensures batch[i].id in HandleUpTo(c, s, batch, sender, n).outbox
    ensures HandleUpTo(c, s, batch, sender, n).outbox[batch[i].id] == After(c, batch[i], sender(i))
    decreases n
  {
    StillQueued(c, s, batch, sender, n - 1);
    HandleIsUpdate(c, HandleUpTo(c, s, batch, sender, n - 1), batch[n - 1], sender(n - 1));
    if i < n - 1 { HandledRow(c, s, batch, sender, n - 1, i); }
  }

  lemma BatchEffect(c: RetryConfig, s: Store, q: Query, limit: nat, batch: seq<Entry>, sender: nat -> Reply)
    requires Keyed(s.outbox) && IsFetch(s.outbox, q, limit, batch)
    ensures Effect(c, s.outbox, batch, sender, HandleUpTo(c, s, batch, sender, |batch|).outbox)
    ensures Keyed(HandleUpTo(c, s, batch, sender, |batch|).outbox)
  {
    var t' := HandleUpTo(c, s, batch, sender, |batch|).outbox;
    forall i | 0 <= i < |batch| ensures batch[i].id in t' && t'[batch[i].id] == After(c, batch[i], sender(i)) {
      HandledRow(c, s, batch, sender, |batch|, i);
    }
    forall id | id !in BatchIds(batch)
      ensures id in t' <==> id in s.outbox
      ensures id in s.outbox ==> t'[id] == s.outbox[id]
    {
      forall i | 0 <= i < |batch| ensures batch[i].id != id { assert batch[i].id in BatchIds(batch); }
      UntouchedRow(c, s, batch, sender, |batch|, id);
    }
  }

  // ---- refinement: a tick is a run of the single-write protocol ----

  ghost predicate Agrees(d: Delivery.Sys, s: Store, queue: seq<Entry>) {
    d.outbox == s.outbox && d.dead == s.dead && d.worker == Delivery.Ready(queue)
  }

  ghost predicate HandedOver(d: Delivery.Sys, e: Entry, queue: seq<Entry>) {
    d.worker == Delivery.Handling(e, Delivery.InSend, queue)
  }

  /** What a protocol step shows to the outside. */
  ghost function Shown(d: Delivery.Sys, step: Delivery.Step, d': Delivery.Sys): seq<Event> {
    match step
    case HandOff => if d.worker.Handling? then [Offered(d.worker.entry.id)] else []
    case Insert(_, _, _, _) => [Wrote(Store(d'.outbox, d'.dead))]
    case MarkSending => [Wrote(Store(d'.outbox, d'.dead))]
    case MarkSent => [Wrote(Store(d'.outbox, d'.dead))]
    case MarkDead => [Wrote(Store(d'.outbox, d'.dead))]
    case FileDead => [Wrote(Store(d'.outbox, d'.dead))]
    case Reschedule(_) => [Wrote(Store(d'.outbox, d'.dead))]
    case ReplayDelete(_) => [Wrote(Store(d'.outbox, d'.dead))]
    case ReplayWrite(_) => [Wrote(Store(d'.outbox, d'.dead))]
    case RecoverOne => [Wrote(Store(d'.outbox, d'.dead))]
    case _ => []
  }

  ghost function ShownBy(states: seq<Delivery.Sys>, steps: seq<Delivery.Step>, n: nat): seq<Event>
    requires n <= |steps| < |states|
  {
    if n == 0 then []
    else ShownBy(states, steps, n - 1) + Shown(states[n - 1], steps[n - 1], states[n])
  }

  /** A run of the protocol from its start to d that shows exactly this journal. */
  ghost predicate IsTrace(m: nat, states: seq<Delivery.Sys>, steps: seq<Delivery.Step>, d: Delivery.Sys,
                          journal: seq<Event>)
  {
    && Delivery.IsRun(m, states, steps) && states[0] == Delivery.Initial() && states[|steps|] == d
    && ShownBy(states, steps, |steps|) == journal
  }

  ghost predicate Traces(m: nat, d: Delivery.Sys, journal: seq<Event>) {
    exists states: seq<Delivery.Sys>, steps: seq<Delivery.Step> :: IsTrace(m, states, steps, d, journal)
  }

  lemma TracesReach(m: nat, d: Delivery.Sys, journal: seq<Event>)
    requires Traces(m, d, journal)
    ensures Delivery.Reachable(m, d)
  {
    var states, steps :| IsTrace(m, states, steps, d, journal);
  }

  lemma {:induction false} ShownPrefix(
      states: seq<Delivery.Sys>, steps: seq<Delivery.Step>, last: Delivery.Sys, step: Delivery.Step, n: nat)
    requires n <= |steps| < |states|
    ensures ShownBy(states + [last], steps + [step], n) == ShownBy(states, steps, n)
    decreases n
  {
    if n > 0 {
      ShownPrefix(states, steps, last, step, n - 1);
      assert (states + [last])[n - 1] == states[n - 1] && (states + [last])[n] == states[n];
      assert (steps + [step])[n - 1] == steps[n - 1];
    }
  }

  lemma ShownGrows(states: seq<Delivery.Sys>, steps: seq<Delivery.Step>, last: Delivery.Sys, step: Delivery.Step)
    requires |states| == |steps| + 1
    ensures ShownBy(states + [last], steps + [step], |steps| + 1)
         == ShownBy(states, steps, |steps|) + Shown(states[|steps|], step, last)
  {
    ShownPrefix(states, steps, last, step, |steps|);
    assert (states + [last])[|steps|] == states[|steps|] && (states + [last])[|steps| + 1] == last;
    assert (steps + [step])[|steps|] == step;
  }

  lemma TracesNext(m: nat, d: Delivery.Sys, journal: seq<Event>, step: Delivery.Step) returns (d': Delivery.Sys)
    requires Traces(m, d, journal) && Delivery.Enabled(m, d, step)
    ensures d' == Delivery.Apply(m, d, step) && Traces(m, d', journal + Shown(d, step, d'))
  {
    var states, steps :| IsTrace(m, states, steps, d, journal);
    d' := Delivery.Apply(m, d, step);
    Delivery.RunGrows(m, states, steps, step);
    ShownGrows(states, steps, d', step);
    assert IsTrace(m, states + [d'], steps + [step], d', journal + Shown(d, step, d'));
  }

  lemma OfferPath(m: nat, d: Delivery.Sys, pre: seq<Event>, s: Store, queue: seq<Entry>)
      returns (d': Delivery.Sys)
    requires Traces(m, d, pre) && queue != [] && Agrees(d, s, queue)
    ensures Traces(m, d', pre + OfferJournal(s, queue[0])) && HandedOver(d', queue[0], queue[1..])
    ensures d'.outbox == SetStatus(s.outbox, queue[0].id, Sending, None) && d'.dead == s.dead
  {
    var mid := TracesNext(m, d, pre, Delivery.MarkSending);
    var marked, given := [Wrote(Store(mid.outbox, mid.dead))], [Offered(queue[0].id)];
    d' := TracesNext(m, mid, pre + marked, Delivery.HandOff);
    Associate(pre, marked, given);
    assert marked + given == OfferJournal(s, queue[0]);
  }

  lemma AcceptedPath(m: nat, d: Delivery.Sys, pre: seq<Event>, e: Entry, queue: seq<Entry>)
      returns (d': Delivery.Sys)
    requires Traces(m, d, pre) && HandedOver(d, e, queue)
    ensures Agrees(d', Store(SetStatus(d.outbox, e.id, Sent, None), d.dead), queue)
    ensures Traces(m, d', pre + [Wrote(Store(d'.outbox, d'.dead))])
  {
    d' := TracesNext(m, d, pre, Delivery.SendOk);
    assert pre + [] == pre;
    d' := TracesNext(m, d', pre, Delivery.MarkSent);
  }

  lemma RetryPath(m: nat, d: Delivery.Sys, pre: seq<Event>, e: Entry, queue: seq<Entry>, error: string, at: int)
      returns (d': Delivery.Sys)
    requires Traces(m, d, pre) && HandedOver(d, e, queue) && e.retryCount + 1 < m
    ensures Agrees(d', Store(SetRetrying(d.outbox, e.id, e.retryCount + 1, at, error), d.dead), queue)
    ensures Traces(m, d', pre + [Wrote(Store(d'.outbox, d'.dead))])
  {
    d' := TracesNext(m, d, pre, Delivery.SendErr(error));
    assert pre + [] == pre;
    d' := TracesNext(m, d', pre, Delivery.Reschedule(at));
  }

  lemma BuryPath(m: nat, d: Delivery.Sys, pre: seq<Event>, e: Entry, queue: seq<Entry>, error: string)
      returns (d': Delivery.Sys)
    requires Traces(m, d, pre) && HandedOver(d, e, queue) && e.retryCount + 1 >= m
    ensures d'.worker == Delivery.Handling(e, Delivery.Buried(error), queue)
    ensures d'.outbox == SetStatus(d.outbox, e.id, DeadLetter, Some(error)) && d'.dead == d.dead
    ensures Traces(m, d', pre + [Wrote(Store(d'.outbox, d'.dead))])
  {
    d' := TracesNext(m, d, pre, Delivery.SendErr(error));
    assert pre + [] == pre;
    d' := TracesNext(m, d', pre, Delivery.MarkDead);
  }

  lemma FilePath(m: nat, d: Delivery.Sys, pre: seq<Event>, e: Entry, queue: seq<Entry>, error: string)
      returns (d': Delivery.Sys)
    requires Traces(m, d, pre) && d.worker == Delivery.Handling(e, Delivery.Buried(error), queue)
    ensures
      var row := DeadEntry(e.payload, e.retryCount + 1, error);
      Agrees(d', Store(d.outbox, if e.id in d.dead then d.dead else d.dead[e.id := row]), queue)
    ensures Traces(m, d', pre + [Wrote(Store(d'.outbox, d'.dead))])
  {
    d' := TracesNext(m, d, pre, Delivery.FileDead);
  }

  lemma DeadPath(m: nat, d: Delivery.Sys, pre: seq<Event>, e: Entry, queue: seq<Entry>, error: string)
      returns (d': Delivery.Sys)
    requires Traces(m, d, pre) && HandedOver(d, e, queue) && e.retryCount + 1 >= m
    ensures
      var t, row := SetStatus(d.outbox, e.id, DeadLetter, Some(error)), DeadEntry(e.payload, e.retryCount + 1, error);
      && Agrees(d', Store(t, if e.id in d.dead then d.dead else d.dead[e.id := row]), queue)
      && Traces(m, d', pre + [Wrote(Store(t, d.dead)), Wrote(Store(d'.outbox, d'.dead))])
  {
    var mid := BuryPath(m, d, pre, e, queue, error);
    var buried := [Wrote(Store(mid.outbox, mid.dead))];
    d' := FilePath(m, mid, pre + buried, e, queue, error);
    var filed := [Wrote(Store(d'.outbox, d'.dead))];
    Associate(pre, buried, filed);
    assert buried + filed == [Wrote(Store(mid.outbox, mid.dead)), Wrote(Store(d'.outbox, d'.dead))];
  }

  lemma HandleIsPath(c: RetryConfig, d: Delivery.Sys, pre: seq<Event>, s: Store, queue: seq<Entry>, r: Reply)
      returns (d': Delivery.Sys)
    requires Traces(c.maxRetries, d, pre) && queue != [] && Agrees(d, s, queue)
    ensures Agrees(d', Handle(c, s, queue[0], r), queue[1..])
    ensures Traces(c.maxRetries, d', pre + HandleJournal(c, s, queue[0], r))
  {
    var e := queue[0];
    var mid := OfferPath(c.maxRetries, d, pre, s, queue);
    d' := OutcomePath(c, mid, pre + OfferJournal(s, e), s, e, queue[1..], r);
    Associate(pre, OfferJournal(s, e), OutcomeJournal(c, s, e, r));
  }

  lemma OutcomePath(c: RetryConfig, d: Delivery.Sys, pre: seq<Event>, s: Store, e: Entry, queue: seq<Entry>, r: Reply)
      returns (d': Delivery.Sys)
    requires Traces(c.maxRetries, d, pre) && HandedOver(d, e, queue)
    requires d.outbox == SetStatus(s.outbox, e.id, Sending, None) && d.dead == s.dead
    ensures Agrees(d', Handle(c, s, e, r), queue)
    ensures Traces(c.maxRetries, d', pre + OutcomeJournal(c, s, e, r))
  {
    match r {
      case Accepted =>
        d' := AcceptedPath(c.maxRetries, d, pre, e, queue);
      case Rejected(error, now) =>
        var count := e.retryCount + 1;
        if count >= c.maxRetries {
          d' := DeadPath(c.maxRetries, d, pre, e, queue, error);
        } else {
          d' := RetryPath(c.maxRetries, d, pre, e, queue, error, now + AsI64(NextDelayMs(c, count)));
        }
    }
  }

  /** The protocol after the first n entries, and what it has shown. */
  ghost predicate Reached(c: RetryConfig, d: Delivery.Sys, pre: seq<Event>, s: Store, batch: seq<Entry>,
                          sender: nat -> Reply, n: nat)
    requires n <= |batch|
  {
    && Agrees(d, HandleUpTo(c, s, batch, sender, n), batch[n..])
    && Traces(c.maxRetries, d, pre + JournalUpTo(c, s, batch, sender, n))
  }

  lemma BatchStart(c: RetryConfig, d: Delivery.Sys, pre: seq<Event>, s: Store, batch: seq<Entry>, sender: nat -> Reply)
    requires Traces(c.maxRetries, d, pre) && Agrees(d, s, batch)
    ensures Reached(c, d, pre, s, batch, sender, 0)
  {
    assert batch[0..] == batch && pre + [] == pre;
  }

  lemma BatchStep(
      c: RetryConfig, d: Delivery.Sys, pre: seq<Event>, s: Store, batch: seq<Entry>, sender: nat -> Reply, n: nat)
      returns (d': Delivery.Sys)
    requires n < |batch| && Reached(c, d, pre, s, batch, sender, n)
    ensures Reached(c, d', pre, s, batch, sender, n + 1)
  {
    var before, mid := JournalUpTo(c, s, batch, sender, n), HandleUpTo(c, s, batch, sender, n);
    d' := HandleIsPath(c, d, pre + before, mid, batch[n..], sender(n));
    assert batch[n..][1..] == batch[n + 1..];
    Associate(pre, before, HandleJournal(c, mid, batch[n], sender(n)));
  }

  lemma {:induction false} BatchReaches(
      c: RetryConfig, d: Delivery.Sys, pre: seq<Event>, s: Store, batch: seq<Entry>, sender: nat -> Reply, n: nat)
      returns (d': Delivery.Sys)
    requires n <= |batch| && Reached(c, d, pre, s, batch, sender, n)
    ensures Reached(c, d', pre, s, batch, sender, |batch|)
    decreases |batch| - n
  {
    if n == |batch| {
      d' := d;
    } else {
      var mid := BatchStep(c, d, pre, s, batch, sender, n);
      d' := BatchReaches(c, mid, pre, s, batch, sender, n + 1);
    }
  }

  lemma BatchIsPath(
      c: RetryConfig, d: Delivery.Sys, pre: seq<Event>, s: Store, batch: seq<Entry>, sender: nat -> Reply)
      returns (d': Delivery.Sys)
    requires Traces(c.maxRetries, d, pre) && Agrees(d, s, batch)
    ensures Agrees(d', HandleUpTo(c, s, batch, sender, |batch|), [])
    ensures Traces(c.maxRetries, d', pre + JournalUpTo(c, s, batch, sender, |batch|))
  {
    BatchStart(c, d, pre, s, batch, sender);
    d' := BatchReaches(c, d, pre, s, batch, sender, 0);
    assert batch[|batch|..] == [];
  }

  lemma FetchPath(m: nat, d: Delivery.Sys, pre: seq<Event>, s: Store, q: Query, limit: nat, batch: seq<Entry>)
      returns (d': Delivery.Sys)
    requires Traces(m, d, pre) && Agrees(d, s, []) && !q.InFlightRows? && IsFetch(s.outbox, q, limit, batch)
    ensures Traces(m, d', pre) && Agrees(d', s, batch)
  {
    d' := TracesNext(m, d, pre, Delivery.Fetch(q, limit, batch));
    assert pre + [] == pre;
  }

  /** Every tick of the sequential worker from a reachable idle state is a run of the protocol
      that shows the same writes and hand-offs in the same order, so every theorem about runs
      applies to what the worker methods do, at every moment. */
  lemma TickIsRun(c: RetryConfig, limit: nat, d: Delivery.Sys, pre: seq<Event>, s: Store, k: Tick, s': Store)
      returns (d': Delivery.Sys)
    requires Traces(c.maxRetries, d, pre) && Agrees(d, s, []) && IsTick(c, limit, s, k, s')
    ensures Traces(c.maxRetries, d', pre + TickJournal(c, s, k)) && Agrees(d', s', [])
    ensures Delivery.Reachable(c.maxRetries, d')
  {
    var m, mid := c.maxRetries, Midway(c, s, k);
    d' := FetchPath(m, d, pre, s, PendingRows, Room(limit, k.pendingOk), k.pending);
    d' := BatchIsPath(c, d', pre, s, k.pending, k.pendingReplies);
    var first := JournalUpTo(c, s, k.pending, k.pendingReplies, |k.pending|);
    d' := FetchPath(m, d', pre + first, mid, RetryableRows(k.now), Room(limit, k.dueOk), k.due);
    d' := BatchIsPath(c, d', pre + first, mid, k.due, k.dueReplies);
    Associate(pre, first, JournalUpTo(c, mid, k.due, k.dueReplies, |k.due|));
    TracesReach(m, d', pre + TickJournal(c, s, k));
  }

  /** `Db.Replay` is a run too: first the dead-letter row goes, then the outbox row is reset. */
  lemma ReplayIsRun(m: nat, d: Delivery.Sys, pre: seq<Event>, id: Id, now: int) returns (d': Delivery.Sys)
    requires Traces(m, d, pre) && d.replayer == Delivery.Quiet && id in d.dead
    ensures
      var gone := Store(d.outbox, d.dead - {id});
      var back := Store(SetReplayed(d.outbox, id, d.dead[id].payload, now), d.dead - {id});
      && Traces(m, d', pre + [Wrote(gone), Wrote(back)])
      && d'.outbox == back.outbox && d'.dead == back.dead && d'.worker == d.worker && d'.replayer == Delivery.Quiet
  {
    var mid := TracesNext(m, d, pre, Delivery.ReplayDelete(id));
    var gone := [Wrote(Store(mid.outbox, mid.dead))];
    d' := TracesNext(m, mid, pre + gone, Delivery.ReplayWrite(now));
    var back := [Wrote(Store(d'.outbox, d'.dead))];
    Associate(pre, gone, back);
    assert gone + back == [Wrote(Store(mid.outbox, mid.dead)), Wrote(Store(d'.outbox, d'.dead))];
  }

  /** The protocol in the middle of recovery, after the first n rows. */
  ghost predicate Recovering(m: nat, d: Delivery.Sys, pre: seq<Event>, s: Store, entries: seq<Entry>, n: nat)
    requires n <= |entries|
  {
    && d.worker == Delivery.Recovering(entries[n..])
    && d.outbox == ResetRows(s.outbox, entries[..n]) && d.dead == s.dead
    && Traces(m, d, pre + ResetJournal(s.outbox, s.dead, entries[..n]))
  }

  lemma RecoveryStep(m: nat, d: Delivery.Sys, pre: seq<Event>, s: Store, entries: seq<Entry>, n: nat)
      returns (d': Delivery.Sys)
    requires n < |entries| && Recovering(m, d, pre, s, entries, n)
    ensures Recovering(m, d', pre, s, entries, n + 1)
  {
    var before := ResetJournal(s.outbox, s.dead, entries[..n]);
    d' := TracesNext(m, d, pre + before, Delivery.RecoverOne);
    assert entries[..n + 1][..n] == entries[..n] && entries[n..][1..] == entries[n + 1..];
    Associate(pre, before, [Wrote(Store(d'.outbox, d'.dead))]);
  }

  lemma {:induction false} RecoveryReaches(
      m: nat, d: Delivery.Sys, pre: seq<Event>, s: Store, entries: seq<Entry>, n: nat) returns (d': Delivery.Sys)
    requires Traces(m, d, pre) && d.worker == Delivery.Recovering(entries) && n <= |entries|
    requires s == Store(d.outbox, d.dead)
    ensures Recovering(m, d', pre, s, entries, n)
    decreases n
  {
    if n == 0 {
      d' := d;
      assert entries[0..] == entries && entries[..0] == [] && pre + [] == pre;
    } else {
      var mid := RecoveryReaches(m, d, pre, s, entries, n - 1);
      d' := RecoveryStep(m, mid, pre, s, entries, n - 1);
    }
  }

  /** And so is `Db.RecoverAfterCrash`, from the moment the daemon is down to its first tick. */
  lemma RecoveryIsRun(m: nat, d: Delivery.Sys, pre: seq<Event>, entries: seq<Entry>) returns (d': Delivery.Sys)
    requires Traces(m, d, pre) && d.worker.Down? && IsFetch(d.outbox, InFlightRows, |d.outbox|, entries)
    ensures Traces(m, d', pre + ResetJournal(d.outbox, d.dead, entries))
    ensures Agrees(d', Store(Recovered(d.outbox), d.dead), [])
  {
    var s := Store(d.outbox, d.dead);
    d' := TracesNext(m, d, pre, Delivery.Restart(entries));
    assert pre + [] == pre;
    d' := RecoveryReaches(m, d', pre, s, entries, |entries|);
    assert entries[..|entries|] == entries && entries[|entries|..] == [];
    var journal := pre + ResetJournal(s.outbox, s.dead, entries);
    d' := TracesNext(m, d', journal, Delivery.RecoveryDone);
    assert journal + [] == journal;
    FetchAllIsComplete(s.outbox, entries);
    ResetRowsIsRecovered(s.outbox, entries);
  }

  /** The database a run starts from shows an empty journal. */
  lemma TracesInitially(m: nat)
    ensures Traces(m, Delivery.Initial(), [])
  {
    var none: seq<Delivery.Step> := [];
    assert Delivery.IsRun(m, [Delivery.Initial()], none);
    assert IsTrace(m, [Delivery.Initial()], none, Delivery.Initial(), []);
  }
}
