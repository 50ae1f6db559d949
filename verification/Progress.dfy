/** Progress of the outbox worker: it drains what it is given, and it is fair to old rows. */
module Progress {
  import opened Wrappers
  import opened Prelude
  import opened Backoff
  import opened Outbox
  import opened OutboxWorker
  import Delivery

  /** A recovered store: nothing `sending`, every retry scheduled, counters below the cap. */
  predicate RecoveredRow(c: RetryConfig, e: Entry) {
    && e.status != Sending
    && (e.status == Retrying ==> e.nextRetryAt.Some?)
    && e.retryCount < Delivery.Cap(c.maxRetries)
  }

  ghost predicate Settled(c: RetryConfig, t: Table) {
    Keyed(t) && forall id :: id in t ==> RecoveredRow(c, t[id])
  }

  /** Every idle state the protocol can reach is such a store. */
  lemma IdleIsSettled(c: RetryConfig, d: Delivery.Sys)
    requires Delivery.Reachable(c.maxRetries, d) && d.worker == Delivery.Ready([])
    ensures Settled(c, d.outbox)
  {
    Delivery.ReachableInv(c.maxRetries, d);
    forall id | id in d.outbox ensures d.outbox[id].id == id && RecoveredRow(c, d.outbox[id]) {
      assert Delivery.RowOk(c.maxRetries, d, id);
    }
  }

  /** Every message has been sent or given up. */
  ghost predicate AllTerminal(t: Table) {
    forall id :: id in t ==> t[id].status == Sent || t[id].status == DeadLetter
  }

  /** Attempts a row may still cost. */
  function Remaining(c: RetryConfig, e: Entry): nat {
    if Terminal(e) || e.retryCount >= Delivery.Cap(c.maxRetries) then 0
    else Delivery.Cap(c.maxRetries) - e.retryCount
  }

  ghost function Budget(c: RetryConfig, t: Table): nat {
    if t == map[] then 0
    else
      var id :| id in t;
      Remaining(c, t[id]) + Budget(c, t - {id})
  }

  lemma {:induction false} BudgetSplit(c: RetryConfig, t: Table, id: Id)
    requires id in t
    ensures Budget(c, t) == Remaining(c, t[id]) + Budget(c, t - {id})
    decreases |t|
  {
    var k :| k in t && Budget(c, t) == Remaining(c, t[k]) + Budget(c, t - {k});
    if k != id {
      BudgetSplit(c, t - {k}, id);
      BudgetSplit(c, t - {id}, k);
      assert t - {k} - {id} == t - {id} - {k};
    }
  }

  lemma BudgetUpdate(c: RetryConfig, t: Table, id: Id, e: Entry)
    requires id in t
    ensures Budget(c, t[id := e]) == Budget(c, t) - Remaining(c, t[id]) + Remaining(c, e)
  {
    BudgetSplit(c, t, id);
    BudgetSplit(c, t[id := e], id);
    assert t[id := e] - {id} == t - {id};
  }

  lemma {:induction false} NoBudgetNoWork(c: RetryConfig, t: Table)
    requires Settled(c, t) && Budget(c, t) == 0
    ensures AllTerminal(t)
  {
    forall id | id in t ensures Terminal(t[id]) {
      BudgetSplit(c, t, id);
    }
  }

  // ---- every hand-off costs budget ----

  lemma HandleCost(c: RetryConfig, s: Store, e: Entry, r: Reply)
    requires Settled(c, s.outbox) && e.id in s.outbox && s.outbox[e.id] == e && !Terminal(e)
    ensures Settled(c, Handle(c, s, e, r).outbox)
    ensures Budget(c, Handle(c, s, e, r).outbox) + 1 <= Budget(c, s.outbox)
  {
    HandleIsUpdate(c, s, e, r);
    BudgetUpdate(c, s.outbox, e.id, After(c, e, r));
    BudgetSplit(c, s.outbox, e.id);
  }

  /** From `before` to `after` at least n units of budget are gone. */
  ghost predicate Spent(c: RetryConfig, before: Store, after: Store, n: nat) {
    Settled(c, after.outbox) && Budget(c, after.outbox) + n <= Budget(c, before.outbox)
  }

  lemma {:induction false} BatchCost(c: RetryConfig, s: Store, batch: seq<Entry>, sender: nat -> Reply, n: nat)
    requires Settled(c, s.outbox) && Delivery.QueueOk(s.outbox, batch) && n <= |batch|
    ensures Spent(c, s, HandleUpTo(c, s, batch, sender, n), n)
    decreases n
  {
    if n > 0 {
      var mid, e, r := HandleUpTo(c, s, batch, sender, n - 1), batch[n - 1], sender(n - 1);
      BatchCost(c, s, batch, sender, n - 1);
      StillQueued(c, s, batch, sender, n - 1);
      SpendOne(c, s, mid, e, r, n - 1);
    }
  }

  lemma SpendOne(c: RetryConfig, before: Store, s: Store, e: Entry, r: Reply, n: nat)
    requires Spent(c, before, s, n) && e.id in s.outbox && s.outbox[e.id] == e && !Terminal(e)
    ensures Spent(c, before, Handle(c, s, e, r), n + 1)
  {
    HandleCost(c, s, e, r);
  }

  lemma FetchedIsQueue(t: Table, q: Query, limit: nat, batch: seq<Entry>)
    requires IsFetch(t, q, limit, batch) && !q.InFlightRows?
    ensures Delivery.QueueOk(t, batch)
    ensures forall i :: 0 <= i < |batch| ==> Selects(q, batch[i])
  {
    forall i | 0 <= i < |batch| ensures Selects(q, batch[i]) {
      assert batch[i].id in BatchIds(batch);
    }
  }

  /** A tick spends at least one unit of budget per message it hands to the sender. */
  lemma TickCost(c: RetryConfig, limit: nat, s: Store, k: Tick, s': Store)
    requires Settled(c, s.outbox) && IsTick(c, limit, s, k, s')
    ensures Settled(c, s'.outbox)
    ensures Budget(c, s'.outbox) + |k.pending| + |k.due| <= Budget(c, s.outbox)
  {
    FetchedIsQueue(s.outbox, PendingRows, Room(limit, k.pendingOk), k.pending);
    BatchCost(c, s, k.pending, k.pendingReplies, |k.pending|);
    var mid := Midway(c, s, k);
    FetchedIsQueue(mid.outbox, RetryableRows(k.now), Room(limit, k.dueOk), k.due);
    BatchCost(c, mid, k.due, k.dueReplies, |k.due|);
  }

  /** Something to fetch: a pending row, or a retrying one whose time has come. */
  ghost predicate Ripe(t: Table, now: int) {
    exists id :: id in t && (Selects(PendingRows, t[id]) || Selects(RetryableRows(now), t[id]))
  }

  /** Both fetches of the tick succeed. */
  predicate Reads(k: Tick) {
    k.pendingOk && k.dueOk
  }

  lemma NothingPending(c: RetryConfig, limit: nat, s: Store, k: Tick, s': Store)
    requires IsTick(c, limit, s, k, s') && k.pending == []
    ensures Midway(c, s, k) == s && (limit > 0 && k.pendingOk ==> Selected(s.outbox, PendingRows) == {})
  {
    assert BatchIds(k.pending) == {};
  }

  lemma FetchedIsRipe(c: RetryConfig, limit: nat, s: Store, k: Tick, s': Store)
    requires IsTick(c, limit, s, k, s') && |k.pending| + |k.due| > 0
    ensures Ripe(s.outbox, k.now)
  {
    if k.pending != [] {
      FetchedIsQueue(s.outbox, PendingRows, Room(limit, k.pendingOk), k.pending);
      assert k.pending[0].id in s.outbox;
    } else {
      NothingPending(c, limit, s, k, s');
      FetchedIsQueue(s.outbox, RetryableRows(k.now), Room(limit, k.dueOk), k.due);
      assert k.due[0].id in s.outbox;
    }
  }

  /** With room in the batch and both fetches succeeding, a tick hands something over exactly
      when something is ripe. */
  lemma TickFetches(c: RetryConfig, limit: nat, s: Store, k: Tick, s': Store)
    requires IsTick(c, limit, s, k, s') && limit > 0 && Reads(k)
    ensures |k.pending| + |k.due| > 0 <==> Ripe(s.outbox, k.now)
  {
    if k.pending == [] {
      NothingPending(c, limit, s, k, s');
      if id :| id in s.outbox && (Selects(PendingRows, s.outbox[id]) || Selects(RetryableRows(k.now), s.outbox[id])) {
        assert id !in Selected(s.outbox, PendingRows);
        assert id in Selected(s.outbox, RetryableRows(k.now));
        assert k.due != [] by { BatchIdsCount(k.due); }
      }
    }
    if |k.pending| + |k.due| > 0 { FetchedIsRipe(c, limit, s, k, s'); }
  }

  /** And otherwise it changes nothing. */
  lemma UnripeTick(c: RetryConfig, limit: nat, s: Store, k: Tick, s': Store)
    requires IsTick(c, limit, s, k, s') && !Ripe(s.outbox, k.now)
    ensures s' == s
  {
    if |k.pending| + |k.due| > 0 { FetchedIsRipe(c, limit, s, k, s'); }
  }

  // ---- draining ----

  ghost predicate AreTicks(c: RetryConfig, limit: nat, stores: seq<Store>, ticks: seq<Tick>) {
    && |stores| == |ticks| + 1
    && forall i :: 0 <= i < |ticks| ==> IsTick(c, limit, stores[i], ticks[i], stores[i + 1])
  }

  function HandOffs(ticks: seq<Tick>): nat {
    if ticks == [] then 0
    else HandOffs(ticks[..|ticks| - 1]) + |ticks[|ticks| - 1].pending| + |ticks[|ticks| - 1].due|
  }

  lemma {:induction false} TicksCost(c: RetryConfig, limit: nat, stores: seq<Store>, ticks: seq<Tick>, n: nat)
    requires AreTicks(c, limit, stores, ticks) && Settled(c, stores[0].outbox) && n <= |ticks|
    ensures Settled(c, stores[n].outbox)
    ensures Budget(c, stores[n].outbox) + HandOffs(ticks[..n]) <= Budget(c, stores[0].outbox)
    decreases n
  {
    if n > 0 {
      TicksCost(c, limit, stores, ticks, n - 1);
      assert IsTick(c, limit, stores[n - 1], ticks[n - 1], stores[n]);
      TickCost(c, limit, stores[n - 1], ticks[n - 1], stores[n]);
      assert ticks[..n][..n - 1] == ticks[..n - 1];
    } else {
      assert ticks[..0] == [];
    }
  }

  /** The tick has something to do and nothing keeps it from fetching it. */
  ghost predicate Works(s: Store, k: Tick) {
    Ripe(s.outbox, k.now) && Reads(k)
  }

  /** How many of the first n ticks did. */
  ghost function RipeTicks(stores: seq<Store>, ticks: seq<Tick>, n: nat): nat
    requires n <= |ticks| < |stores|
  {
    if n == 0 then 0
    else RipeTicks(stores, ticks, n - 1) + if Works(stores[n - 1], ticks[n - 1]) then 1 else 0
  }

  lemma RipeTickCost(c: RetryConfig, limit: nat, s: Store, k: Tick, s': Store)
    requires Settled(c, s.outbox) && IsTick(c, limit, s, k, s') && limit > 0
    ensures Settled(c, s'.outbox)
    ensures Budget(c, s'.outbox) <= Budget(c, s.outbox)
    ensures Works(s, k) ==> Budget(c, s'.outbox) < Budget(c, s.outbox)
  {
    TickCost(c, limit, s, k, s');
    if Reads(k) { TickFetches(c, limit, s, k, s'); }
  }

  ghost predicate Paid(c: RetryConfig, stores: seq<Store>, ticks: seq<Tick>, n: nat)
    requires n <= |ticks| < |stores|
  {
    && Settled(c, stores[n].outbox)
    && Budget(c, stores[n].outbox) + RipeTicks(stores, ticks, n) <= Budget(c, stores[0].outbox)
  }

  lemma RipeTicksCost(c: RetryConfig, limit: nat, stores: seq<Store>, ticks: seq<Tick>, n: nat)
    requires AreTicks(c, limit, stores, ticks) && Settled(c, stores[0].outbox) && limit > 0 && n <= |ticks|
    ensures Paid(c, stores, ticks, n)
  {
    for i := 0 to n
      invariant Paid(c, stores, ticks, i)
    {
      assert IsTick(c, limit, stores[i], ticks[i], stores[i + 1]);
      RipeTickCost(c, limit, stores[i], ticks[i], stores[i + 1]);
    }
  }

  /** From a recovered store, whatever the clock does: all ticks together hand over at most
      the budget, and once as many ticks as the budget found something ripe, every message
      is finished. */
  lemma Drains(c: RetryConfig, limit: nat, stores: seq<Store>, ticks: seq<Tick>)
    requires AreTicks(c, limit, stores, ticks) && Settled(c, stores[0].outbox) && limit > 0
    ensures HandOffs(ticks) <= Budget(c, stores[0].outbox)
    ensures RipeTicks(stores, ticks, |ticks|) <= Budget(c, stores[0].outbox)
    ensures RipeTicks(stores, ticks, |ticks|) == Budget(c, stores[0].outbox) ==> AllTerminal(stores[|ticks|].outbox)
  {
    RipeTicksCost(c, limit, stores, ticks, |ticks|);
    TicksCost(c, limit, stores, ticks, |ticks|);
    assert ticks[..|ticks|] == ticks;
    if Budget(c, stores[|ticks|].outbox) == 0 { NoBudgetNoWork(c, stores[|ticks|].outbox); }
  }

  // ---- draining by the clock ----

  /** Every retrying row comes due by `bound`. */
  ghost predicate DueBy(t: Table, bound: int) {
    forall id :: id in t && t[id].status == Retrying && t[id].nextRetryAt.Some? ==> t[id].nextRetryAt.value <= bound
  }

  ghost predicate RejectedBy(batch: seq<Entry>, replies: nat -> Reply, bound: int) {
    forall i :: 0 <= i < |batch| ==> (replies(i).Rejected? ==> replies(i).now <= bound)
  }

  /** Fetches succeed, the clock does not run backwards, one turn of the loop takes at most
      `period`, and that includes its sends. */
  ghost predicate Timed(ticks: seq<Tick>, period: nat) {
    && (forall i :: 0 <= i < |ticks| ==>
          && Reads(ticks[i])
          && RejectedBy(ticks[i].pending, ticks[i].pendingReplies, ticks[i].now + period)
          && RejectedBy(ticks[i].due, ticks[i].dueReplies, ticks[i].now + period))
    && forall i, j :: 0 <= i < |ticks| && j == i + 1 < |ticks| ==> ticks[i].now <= ticks[j].now <= ticks[i].now + period
  }

  /** An unfinished store is ripe as soon as its last retry is due. */
  lemma RipensInTime(c: RetryConfig, t: Table, now: int, bound: int)
    requires Settled(c, t) && DueBy(t, bound) && !AllTerminal(t) && !Ripe(t, now)
    ensures now < bound
  {
    var id :| id in t && !Terminal(t[id]);
    assert RecoveredRow(c, t[id]);
  }

  lemma RetryComesDue(c: RetryConfig, e: Entry, r: Reply, at: int)
    requires r.Rejected? ==> r.now <= at
    ensures After(c, e, r).status == Retrying ==>
              After(c, e, r).nextRetryAt.Some? && After(c, e, r).nextRetryAt.value <= at + c.maxBackoffMs
  {
    if r.Rejected? && e.retryCount + 1 < c.maxRetries { DelayWithinBounds(c, e.retryCount + 1); }
  }

  lemma BatchComesDue(c: RetryConfig, t: Table, batch: seq<Entry>, replies: nat -> Reply, t': Table, at: int)
    requires Effect(c, t, batch, replies, t') && RejectedBy(batch, replies, at) && DueBy(t, at + c.maxBackoffMs)
    ensures DueBy(t', at + c.maxBackoffMs)
  {
    forall id | id in t' && t'[id].status == Retrying && t'[id].nextRetryAt.Some?
      ensures t'[id].nextRetryAt.value <= at + c.maxBackoffMs
    {
      if id in BatchIds(batch) {
        var i :| 0 <= i < |batch| && batch[i].id == id;
        RetryComesDue(c, batch[i], replies(i), at);
      }
    }
  }

  lemma TickComesDue(c: RetryConfig, limit: nat, s: Store, k: Tick, s': Store, at: int)
    requires Settled(c, s.outbox) && IsTick(c, limit, s, k, s') && DueBy(s.outbox, at + c.maxBackoffMs)
    requires RejectedBy(k.pending, k.pendingReplies, at) && RejectedBy(k.due, k.dueReplies, at)
    ensures DueBy(s'.outbox, at + c.maxBackoffMs)
  {
    var mid := Midway(c, s, k);
    BatchEffect(c, s, PendingRows, Room(limit, k.pendingOk), k.pending, k.pendingReplies);
    BatchComesDue(c, s.outbox, k.pending, k.pendingReplies, mid.outbox, at);
    BatchEffect(c, mid, RetryableRows(k.now), Room(limit, k.dueOk), k.due, k.dueReplies);
    BatchComesDue(c, mid.outbox, k.due, k.dueReplies, s'.outbox, at);
  }

  /** When, before tick n, something was last ripe: the first tick if never. */
  ghost function LastRipe(stores: seq<Store>, ticks: seq<Tick>, n: nat): int
    requires n <= |ticks| < |stores| && |ticks| > 0
  {
    if n == 0 then ticks[0].now
    else if Works(stores[n - 1], ticks[n - 1]) then ticks[n - 1].now
    else LastRipe(stores, ticks, n - 1)
  }

  /** The longest the worker can go without work while a message is unfinished. */
  function Lull(c: RetryConfig, period: nat): nat {
    c.maxBackoffMs + 2 * period
  }

  /** No retry lies further ahead of the last ripe tick than one turn and the longest delay. */
  ghost predicate OnSchedule(c: RetryConfig, stores: seq<Store>, ticks: seq<Tick>, period: nat, n: nat)
    requires n < |ticks| < |stores|
  {
    var last := LastRipe(stores, ticks, n);
    && last <= ticks[n].now && DueBy(stores[n].outbox, last + period + c.maxBackoffMs)
    && (!AllTerminal(stores[n].outbox) ==> ticks[n].now <= last + Lull(c, period))
  }

  lemma ScheduleStep(
      c: RetryConfig, limit: nat, stores: seq<Store>, ticks: seq<Tick>, period: nat, n: nat)
    requires AreTicks(c, limit, stores, ticks) && Timed(ticks, period) && limit > 0 && n + 1 < |ticks|
    requires Settled(c, stores[n].outbox) && OnSchedule(c, stores, ticks, period, n)
    ensures OnSchedule(c, stores, ticks, period, n + 1)
  {
    var s, k, s' := stores[n], ticks[n], stores[n + 1];
    assert IsTick(c, limit, s, k, s');
    if Ripe(s.outbox, k.now) {
      TickComesDue(c, limit, s, k, s', k.now + period);
    } else {
      UnripeTick(c, limit, s, k, s');
      if !AllTerminal(s.outbox) {
        RipensInTime(c, s.outbox, k.now, LastRipe(stores, ticks, n) + period + c.maxBackoffMs);
      }
    }
  }

  lemma RipeIsUnfinished(t: Table, now: int)
    requires Ripe(t, now)
    ensures !AllTerminal(t)
  {
  }

  lemma {:induction false} StaysOnSchedule(
      c: RetryConfig, limit: nat, stores: seq<Store>, ticks: seq<Tick>, period: nat, n: nat)
    requires AreTicks(c, limit, stores, ticks) && Timed(ticks, period) && limit > 0 && n < |ticks|
    requires Settled(c, stores[0].outbox) && DueBy(stores[0].outbox, ticks[0].now + period + c.maxBackoffMs)
    ensures OnSchedule(c, stores, ticks, period, n)
    decreases n
  {
    if n > 0 {
      StaysOnSchedule(c, limit, stores, ticks, period, n - 1);
      TicksCost(c, limit, stores, ticks, n - 1);
      ScheduleStep(c, limit, stores, ticks, period, n - 1);
    }
  }

  /** Each ripe tick comes at most one lull after the one before. */
  lemma {:induction false} RipeTicksAreClose(
      c: RetryConfig, stores: seq<Store>, ticks: seq<Tick>, period: nat, n: nat)
    requires n < |ticks| < |stores|
    requires forall i :: 0 <= i <= n ==> OnSchedule(c, stores, ticks, period, i)
    ensures LastRipe(stores, ticks, n) <= ticks[0].now + RipeTicks(stores, ticks, n) * Lull(c, period)
    decreases n
  {
    if n > 0 {
      RipeTicksAreClose(c, stores, ticks, period, n - 1);
      if Works(stores[n - 1], ticks[n - 1]) {
        assert OnSchedule(c, stores, ticks, period, n - 1);
        RipeIsUnfinished(stores[n - 1].outbox, ticks[n - 1].now);
        OneMore(RipeTicks(stores, ticks, n - 1), Lull(c, period));
      }
    }
  }

  lemma OneMore(r: nat, w: nat)
    ensures (r + 1) * w == r * w + w
  {
  }

  lemma LullsAddUp(start: int, last: int, now: int, ripe: nat, lull: nat, budget: nat)
    requires last <= start + ripe * lull && now <= last + lull && ripe < budget
    ensures now <= start + budget * lull
  {
    OneMore(ripe, lull);
    MulMonotone(lull, ripe + 1, budget);
  }

  lemma UnfinishedIsEarly(c: RetryConfig, stores: seq<Store>, ticks: seq<Tick>, period: nat, n: nat, budget: nat)
    requires n < |ticks| < |stores|
    requires forall i :: 0 <= i <= n ==> OnSchedule(c, stores, ticks, period, i)
    requires !AllTerminal(stores[n].outbox) && RipeTicks(stores, ticks, n) < budget
    ensures ticks[n].now <= ticks[0].now + budget * Lull(c, period)
  {
    RipeTicksAreClose(c, stores, ticks, period, n);
    assert OnSchedule(c, stores, ticks, period, n);
    LullsAddUp(ticks[0].now, LastRipe(stores, ticks, n), ticks[n].now,
               RipeTicks(stores, ticks, n), Lull(c, period), budget);
  }

  /** Draining takes bounded time: with turns of at most `period`, every message is finished
      once (max_backoff + 2 * period) has passed for each unit of the budget. */
  lemma DrainsInTime(c: RetryConfig, limit: nat, stores: seq<Store>, ticks: seq<Tick>, period: nat, n: nat)
    requires AreTicks(c, limit, stores, ticks) && Timed(ticks, period) && limit > 0 && n < |ticks|
    requires Settled(c, stores[0].outbox) && DueBy(stores[0].outbox, ticks[0].now + period + c.maxBackoffMs)
    requires ticks[n].now > ticks[0].now + Budget(c, stores[0].outbox) * Lull(c, period)
    ensures AllTerminal(stores[n].outbox)
  {
    forall i | 0 <= i <= n ensures OnSchedule(c, stores, ticks, period, i) {
      StaysOnSchedule(c, limit, stores, ticks, period, i);
    }
    RipeTicksCost(c, limit, stores, ticks, n);
    if Budget(c, stores[n].outbox) == 0 {
      NoBudgetNoWork(c, stores[n].outbox);
    } else if !AllTerminal(stores[n].outbox) {
      UnfinishedIsEarly(c, stores, ticks, period, n, Budget(c, stores[0].outbox));
    }
  }

  /** Recovery leaves no retry waiting, so the time bound applies right after it. */
  lemma RecoveredIsDue(t: Table, bound: int)
    ensures DueBy(Recovered(t), bound)
  {
  }

  // ---- backoff is kept ----

  /** The message waits for its next attempt at `due`. */
  ghost predicate Rests(t: Table, id: Id, due: int) {
    id in t && t[id].status == Retrying && t[id].nextRetryAt == Some(due)
  }

  lemma BatchLeavesResting(
      c: RetryConfig, s: Store, q: Query, limit: nat, batch: seq<Entry>, sender: nat -> Reply, id: Id, due: int)
    requires Keyed(s.outbox) && IsFetch(s.outbox, q, limit, batch) && Rests(s.outbox, id, due)
    requires q == PendingRows || (q.RetryableRows? && q.now < due)
    ensures id !in BatchIds(batch) && Rests(HandleUpTo(c, s, batch, sender, |batch|).outbox, id, due)
  {
    BatchEffect(c, s, q, limit, batch, sender);
    assert id !in Selected(s.outbox, q);
  }

  lemma TickLeavesResting(c: RetryConfig, limit: nat, s: Store, k: Tick, s': Store, id: Id, due: int)
    requires Settled(c, s.outbox) && IsTick(c, limit, s, k, s') && Rests(s.outbox, id, due) && k.now < due
    ensures id !in BatchIds(k.pending) && id !in BatchIds(k.due) && Rests(s'.outbox, id, due)
  {
    BatchLeavesResting(c, s, PendingRows, Room(limit, k.pendingOk), k.pending, k.pendingReplies, id, due);
    var mid := Midway(c, s, k);
    BatchEffect(c, s, PendingRows, Room(limit, k.pendingOk), k.pending, k.pendingReplies);
    BatchLeavesResting(c, mid, RetryableRows(k.now), Room(limit, k.dueOk), k.due, k.dueReplies, id, due);
  }

  ghost predicate NotHandedOver(k: Tick, id: Id) {
    id !in BatchIds(k.pending) && id !in BatchIds(k.due)
  }

  lemma RestsUntilDue(
      c: RetryConfig, limit: nat, stores: seq<Store>, ticks: seq<Tick>, i: nat, j: nat, id: Id, due: int)
    requires AreTicks(c, limit, stores, ticks) && Settled(c, stores[0].outbox) && i <= j <= |ticks|
    requires Rests(stores[i].outbox, id, due) && forall m :: i <= m < j ==> ticks[m].now < due
    ensures Rests(stores[j].outbox, id, due)
    ensures forall m :: i <= m < j ==> NotHandedOver(ticks[m], id)
  {
    for n := i to j
      invariant Rests(stores[n].outbox, id, due)
      invariant forall m :: i <= m < n ==> NotHandedOver(ticks[m], id)
    {
      TicksCost(c, limit, stores, ticks, n);
      assert IsTick(c, limit, stores[n], ticks[n], stores[n + 1]);
      TickLeavesResting(c, limit, stores[n], ticks[n], stores[n + 1], id, due);
    }
  }

  /** A refusal at `at` with attempts left. */
  predicate Postponed(c: RetryConfig, e: Entry, r: Reply, at: int) {
    r.Rejected? && r.now == at && e.retryCount + 1 < c.maxRetries
  }

  lemma PostponedRests(c: RetryConfig, s: Store, q: Query, limit: nat, batch: seq<Entry>, sender: nat -> Reply,
                       p: nat, at: int) returns (due: int)
    requires Keyed(s.outbox) && IsFetch(s.outbox, q, limit, batch) && p < |batch|
    requires c.maxBackoffMs < HALF_RANGE && Postponed(c, batch[p], sender(p), at)
    ensures Rests(HandleUpTo(c, s, batch, sender, |batch|).outbox, batch[p].id, due)
    ensures due >= at + Capped(c, batch[p].retryCount + 1)
  {
    BatchEffect(c, s, q, limit, batch, sender);
    var row := After(c, batch[p], sender(p));
    DelayWithinBounds(c, batch[p].retryCount + 1);
    RetryDueExactly(c, batch[p], sender(p).error, at);
    due := row.nextRetryAt.value;
  }

  lemma TickPostpones(c: RetryConfig, limit: nat, s: Store, k: Tick, s': Store, p: nat, inPending: bool, at: int)
      returns (id: Id, due: int)
    requires Settled(c, s.outbox) && IsTick(c, limit, s, k, s') && c.maxBackoffMs < HALF_RANGE
    requires
      if inPending then p < |k.pending| && Postponed(c, k.pending[p], k.pendingReplies(p), at)
                        && k.now < at + Capped(c, k.pending[p].retryCount + 1)
      else p < |k.due| && Postponed(c, k.due[p], k.dueReplies(p), at)
    ensures Rests(s'.outbox, id, due)
    ensures inPending ==> id == k.pending[p].id && id !in BatchIds(k.due)
                          && due >= at + Capped(c, k.pending[p].retryCount + 1)
    ensures !inPending ==> id == k.due[p].id && due >= at + Capped(c, k.due[p].retryCount + 1)
  {
    var mid := Midway(c, s, k);
    BatchEffect(c, s, PendingRows, Room(limit, k.pendingOk), k.pending, k.pendingReplies);
    if inPending {
      id := k.pending[p].id;
      due := PostponedRests(c, s, PendingRows, Room(limit, k.pendingOk), k.pending, k.pendingReplies, p, at);
      BatchLeavesResting(c, mid, RetryableRows(k.now), Room(limit, k.dueOk), k.due, k.dueReplies, id, due);
    } else {
      id := k.due[p].id;
      due := PostponedRests(c, mid, RetryableRows(k.now), Room(limit, k.dueOk), k.due, k.dueReplies, p, at);
    }
  }

  /** Over ticks: a message refused at `at` with attempts left is not handed over again by any
      tick before `at` plus the capped delay of its attempt. */
  lemma BackoffIsKept(c: RetryConfig, limit: nat, stores: seq<Store>, ticks: seq<Tick>,
                      i: nat, p: nat, inPending: bool, at: int, e: Entry, j: nat)
    requires AreTicks(c, limit, stores, ticks) && Settled(c, stores[0].outbox) && i < j <= |ticks|
    requires c.maxBackoffMs < HALF_RANGE
    requires
      if inPending then p < |ticks[i].pending| && e == ticks[i].pending[p]
                        && Postponed(c, e, ticks[i].pendingReplies(p), at)
      else p < |ticks[i].due| && e == ticks[i].due[p] && Postponed(c, e, ticks[i].dueReplies(p), at)
    requires forall m :: i <= m < j ==> ticks[m].now < at + Capped(c, e.retryCount + 1)
    ensures inPending ==> e.id !in BatchIds(ticks[i].due)
    ensures forall m :: i < m < j ==> NotHandedOver(ticks[m], e.id)
  {
    TicksCost(c, limit, stores, ticks, i);
    assert IsTick(c, limit, stores[i], ticks[i], stores[i + 1]);
    var id, due := TickPostpones(c, limit, stores[i], ticks[i], stores[i + 1], p, inPending, at);
    RestsUntilDue(c, limit, stores, ticks, i + 1, j, id, due);
  }

  // ---- fairness ----

  /** Pending rows other than `id` that are no newer than `age`. */
  ghost function NoNewer(t: Table, id: Id, age: int): set<Id> {
    set k | k in t && k != id && t[k].status == Pending && t[k].createdAt <= age
  }

  /** A tick that passes a pending row over spends its whole batch on rows no newer. */
  lemma PassedOver(c: RetryConfig, limit: nat, s: Store, k: Tick, s': Store, id: Id)
    requires Settled(c, s.outbox) && IsTick(c, limit, s, k, s')
    requires id in s.outbox && s.outbox[id].status == Pending && id !in BatchIds(k.pending) && k.pendingOk
    ensures id in s'.outbox && s'.outbox[id] == s.outbox[id]
    ensures |NoNewer(s'.outbox, id, s.outbox[id].createdAt)| + limit <= |NoNewer(s.outbox, id, s.outbox[id].createdAt)|
  {
    var age := s.outbox[id].createdAt;
    var taken := BatchIds(k.pending);
    TickRows(c, limit, s, k, s');
    assert id in Selected(s.outbox, PendingRows) - taken;
    BatchIdsCount(k.pending);
    var before, after := NoNewer(s.outbox, id, age), NoNewer(s'.outbox, id, age);
    forall x | x in taken ensures x in before {
      var i :| 0 <= i < |k.pending| && k.pending[i].id == x;
      assert Rank(PendingRows, k.pending[i]) <= Rank(PendingRows, s.outbox[id]);
    }
    assert after <= before - taken;
    SubsetCount(after, before - taken);
    assert before == taken + (before - taken);
  }

  /** No row becomes pending during a tick; untouched pending rows stay as they are. */
  lemma TickRows(c: RetryConfig, limit: nat, s: Store, k: Tick, s': Store)
    requires Settled(c, s.outbox) && IsTick(c, limit, s, k, s')
    ensures s'.outbox.Keys == s.outbox.Keys
    ensures forall id :: id in s.outbox && s'.outbox[id].status == Pending ==>
              id !in BatchIds(k.pending) && s'.outbox[id] == s.outbox[id]
    ensures forall id :: id in s.outbox && s.outbox[id].status == Pending && id !in BatchIds(k.pending) ==>
              s'.outbox[id] == s.outbox[id]
  {
    var mid := Midway(c, s, k);
    BatchEffect(c, s, PendingRows, Room(limit, k.pendingOk), k.pending, k.pendingReplies);
    BatchEffect(c, mid, RetryableRows(k.now), Room(limit, k.dueOk), k.due, k.dueReplies);
    forall id | id in s.outbox
      ensures s'.outbox[id].status == Pending ==> id !in BatchIds(k.pending) && s'.outbox[id] == s.outbox[id]
      ensures s.outbox[id].status == Pending && id !in BatchIds(k.pending) ==> s'.outbox[id] == s.outbox[id]
    {
      RowAfterBatch(c, s.outbox, PendingRows, k.pending, k.pendingReplies, mid.outbox, id);
      RowAfterBatch(c, mid.outbox, RetryableRows(k.now), k.due, k.dueReplies, s'.outbox, id);
    }
  }

  lemma RowAfterBatch(c: RetryConfig, t: Table, q: Query, batch: seq<Entry>, sender: nat -> Reply, t': Table, id: Id)
    requires Effect(c, t, batch, sender, t') && BatchIds(batch) <= Selected(t, q) && id in t
    ensures id in t'
    ensures id in BatchIds(batch) ==> Selects(q, t[id]) && t'[id].status != Pending
    ensures id !in BatchIds(batch) ==> t'[id] == t[id]
  {
    if id in BatchIds(batch) {
      var i :| 0 <= i < |batch| && batch[i].id == id;
      assert t'[batch[i].id] == After(c, batch[i], sender(i));
    }
  }

  /** Between ticks the world may do anything except make another no-newer row pending
      or touch the row watched. */
  ghost predicate Undisturbed(after: Store, next: Store, id: Id, age: int) {
    && id in after.outbox && id in next.outbox && next.outbox[id] == after.outbox[id]
    && NoNewer(next.outbox, id, age) <= NoNewer(after.outbox, id, age)
  }

  /** Ticks before[i] -> after[i] whose fetch of pending rows succeeds (one that fails is part of
      what happens in between), with `id` left alone in between as long as it is passed over. */
  ghost predicate Watched(
      c: RetryConfig, limit: nat, before: seq<Store>, ticks: seq<Tick>, after: seq<Store>, id: Id, age: int)
  {
    && |before| == |ticks| == |after|
    && (forall i :: 0 <= i < |ticks| ==>
          Settled(c, before[i].outbox) && IsTick(c, limit, before[i], ticks[i], after[i]) && ticks[i].pendingOk)
    && forall i :: 0 <= i < |ticks| - 1 && id !in BatchIds(ticks[i].pending) ==>
         Undisturbed(after[i], before[i + 1], id, age)
  }

  /** Being passed over once shortens the wait by one tick. */
  lemma WaitShrinks(after: Store, next: Store, id: Id, age: int, limit: nat, k: nat)
    requires Undisturbed(after, next, id, age) && limit > 0 && |NoNewer(after.outbox, id, age)| + limit <= k
    ensures |NoNewer(next.outbox, id, age)| / limit + 1 <= k / limit
  {
    SubsetCount(NoNewer(next.outbox, id, age), NoNewer(after.outbox, id, age));
    DivideDown(|NoNewer(next.outbox, id, age)|, k, limit);
  }

  lemma {:induction false} ServedFrom(
      c: RetryConfig, limit: nat, before: seq<Store>, ticks: seq<Tick>, after: seq<Store>, id: Id, age: int, j: nat)
    requires limit > 0 && Watched(c, limit, before, ticks, after, id, age) && j < |ticks|
    requires id in before[j].outbox && before[j].outbox[id].status == Pending && before[j].outbox[id].createdAt == age
    requires |ticks| - j >= |NoNewer(before[j].outbox, id, age)| / limit + 1
    ensures exists i :: j <= i < |ticks| && id in BatchIds(ticks[i].pending)
    decreases |ticks| - j
  {
    if id !in BatchIds(ticks[j].pending) {
      PassedOver(c, limit, before[j], ticks[j], after[j], id);
      EnoughTicksLeft(|NoNewer(before[j].outbox, id, age)|, limit, |ticks| - j);
      WaitShrinks(after[j], before[j + 1], id, age, limit, |NoNewer(before[j].outbox, id, age)|);
      ServedFrom(c, limit, before, ticks, after, id, age, j + 1);
    }
  }

  /** A pending row with k no-newer pending rows beside it is handed over within
      floor(k / batch) + 1 ticks, unless another no-newer row becomes pending. */
  lemma OldRowsAreServed(
      c: RetryConfig, limit: nat, before: seq<Store>, ticks: seq<Tick>, after: seq<Store>, id: Id, age: int)
    requires limit > 0 && Watched(c, limit, before, ticks, after, id, age) && |ticks| > 0
    requires id in before[0].outbox && before[0].outbox[id].status == Pending && before[0].outbox[id].createdAt == age
    requires |ticks| == |NoNewer(before[0].outbox, id, age)| / limit + 1
    ensures exists i :: 0 <= i < |ticks| && id in BatchIds(ticks[i].pending)
  {
    ServedFrom(c, limit, before, ticks, after, id, age, 0);
  }

  lemma EnoughTicksLeft(k: nat, limit: nat, left: int)
    requires limit > 0 && k >= limit && left >= k / limit + 1
    ensures left >= 2
  {
    QuotientAtLeast(k, limit, 1);
  }

  lemma DivideDown(a: nat, b: nat, limit: nat)
    requires limit > 0 && a + limit <= b
    ensures a / limit + 1 <= b / limit
  {
    assert (a / limit + 1) * limit == limit * (a / limit) + limit;
    QuotientAtLeast(b, limit, a / limit + 1);
  }
}
