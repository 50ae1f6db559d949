/** The recoverable delivery protocol as single writes: the outbox worker, concurrent
    inserts, dead-letter replay, crashes between any two writes, and recovery. */
module Delivery {
  import opened Wrappers
  import opened Prelude
  import opened Outbox

  /** Where the worker is inside one loop iteration over a fetched entry. */
  datatype Stage =
    | Marked                     // row says `sending`
    | InSend                     // entry handed to the sender
    | Acked                      // sender returned Ok
    | Nacked(error: string)      // sender returned Err
    | Buried(error: string)      // row says `dead_letter`, DLQ row not yet written

  datatype Worker =
    | Down
    | Recovering(todo: seq<Entry>)
    | Ready(queue: seq<Entry>)
    | Handling(entry: Entry, stage: Stage, queue: seq<Entry>)

  datatype Replayer = Quiet | Deleted(id: Id, payload: string)

  /** Two tables, two volatile program counters, and the history the theorems speak of:
      hand-offs since the message's insert or last replay, the crash count at that
      moment, the ids some sender accepted, the number of crashes of the daemon and the
      number of replays cut short. Inserts and replays may come from other processes, at
      any time; a crash that takes a replay with it is a crash and a cut replay in a row. */
  datatype Sys = Sys(
    outbox: Table,
    dead: DeadTable,
    worker: Worker,
    replayer: Replayer,
    attempts: map<Id, nat>,
    born: map<Id, nat>,
    acked: set<Id>,
    crashes: nat,
    cutReplays: nat)

  datatype Step =
    | Insert(id: Id, routeKey: string, payload: string, now: int)
    | Fetch(query: Query, limit: nat, batch: seq<Entry>)
    | MarkSending
    | HandOff
    | SendOk
    | SendErr(error: string)
    | MarkSent
    | MarkDead
    | FileDead
    | Reschedule(at: int)
    | ReplayDelete(id: Id)
    | ReplayWrite(now: int)
    | ReplayDies
    | Crash
    | Restart(todo: seq<Entry>)
    | RecoverOne
    | RecoveryDone

  function Initial(): Sys {
    Sys(map[], map[], Ready([]), Quiet, map[], map[], {}, 0, 0)
  }

  /** Attempts a message gets before it is dead-lettered: one even when max_retries is 0. */
  function Cap(maxRetries: nat): nat {
    if maxRetries == 0 then 1 else maxRetries
  }

  ghost predicate Enabled(maxRetries: nat, s: Sys, step: Step) {
    match step
    case Insert(_, _, _, _) => true
    case Fetch(q, limit, batch) => s.worker == Ready([]) && !q.InFlightRows? && IsFetch(s.outbox, q, limit, batch)
    case MarkSending => s.worker.Ready? && s.worker.queue != []
    case HandOff => s.worker.Handling? && s.worker.stage == Marked
    case SendOk => s.worker.Handling? && s.worker.stage == InSend
    case SendErr(_) => s.worker.Handling? && s.worker.stage == InSend
    case MarkSent => s.worker.Handling? && s.worker.stage == Acked
    case MarkDead => s.worker.Handling? && s.worker.stage.Nacked? && s.worker.entry.retryCount + 1 >= maxRetries
    case FileDead => s.worker.Handling? && s.worker.stage.Buried?
    case Reschedule(_) => s.worker.Handling? && s.worker.stage.Nacked? && s.worker.entry.retryCount + 1 < maxRetries
    case ReplayDelete(id) => s.replayer == Quiet && id in s.dead
    case ReplayWrite(_) => s.replayer.Deleted?
    case ReplayDies => s.replayer.Deleted?
    case Crash => !s.worker.Down?
    case Restart(todo) => s.worker.Down? && IsFetch(s.outbox, InFlightRows, |s.outbox|, todo)
    case RecoverOne => s.worker.Recovering? && s.worker.todo != []
    case RecoveryDone => s.worker == Recovering([])
  }

  ghost function Apply(maxRetries: nat, s: Sys, step: Step): Sys
    requires Enabled(maxRetries, s, step)
  {
    match step
    case Insert(id, routeKey, payload, now) =>
      if id in s.outbox then s
      else s.(outbox := InsertRow(s.outbox, NewEntry(id, routeKey, payload, now)),
              attempts := s.attempts[id := 0], born := s.born[id := s.crashes])
    case Fetch(_, _, batch) =>
      s.(worker := Ready(batch))
    case MarkSending =>
      var e := s.worker.queue[0];
      s.(outbox := SetStatus(s.outbox, e.id, Sending, None), worker := Handling(e, Marked, s.worker.queue[1..]))
    case HandOff =>
      var id := s.worker.entry.id;
      var made := if id in s.attempts then s.attempts[id] else 0;
      s.(attempts := s.attempts[id := made + 1], worker := s.worker.(stage := InSend))
    case SendOk =>
      s.(acked := s.acked + {s.worker.entry.id}, worker := s.worker.(stage := Acked))
    case SendErr(error) =>
      s.(worker := s.worker.(stage := Nacked(error)))
    case MarkSent =>
      s.(outbox := SetStatus(s.outbox, s.worker.entry.id, Sent, None), worker := Ready(s.worker.queue))
    case MarkDead =>
      var error := s.worker.stage.error;
      s.(outbox := SetStatus(s.outbox, s.worker.entry.id, DeadLetter, Some(error)),
         worker := s.worker.(stage := Buried(error)))
    case FileDead =>
      var e := s.worker.entry;
      var row := DeadEntry(e.payload, e.retryCount + 1, s.worker.stage.error);
      s.(dead := if e.id in s.dead then s.dead else s.dead[e.id := row], worker := Ready(s.worker.queue))
    case Reschedule(at) =>
      var e := s.worker.entry;
      s.(outbox := SetRetrying(s.outbox, e.id, e.retryCount + 1, at, s.worker.stage.error),
         worker := Ready(s.worker.queue))
    case ReplayDelete(id) =>
      s.(dead := s.dead - {id}, replayer := Deleted(id, s.dead[id].payload))
    case ReplayWrite(now) =>
      var id := s.replayer.id;
      s.(outbox := SetReplayed(s.outbox, id, s.replayer.payload, now), replayer := Quiet,
         attempts := s.attempts[id := 0], born := s.born[id := s.crashes])
    case ReplayDies =>
      s.(replayer := Quiet, cutReplays := s.cutReplays + 1)
    case Crash =>
      s.(worker := Down, crashes := s.crashes + 1)
    case Restart(todo) =>
      s.(worker := Recovering(todo))
    case RecoverOne =>
      s.(outbox := SetStatus(s.outbox, s.worker.todo[0].id, Pending, None),
         worker := Recovering(s.worker.todo[1..]))
    case RecoveryDone =>
      s.(worker := Ready([]))
  }

  ghost predicate Next(maxRetries: nat, s: Sys, step: Step, s': Sys) {
    Enabled(maxRetries, s, step) && s' == Apply(maxRetries, s, step)
  }

  /** A run: `states` is one longer than `steps` and consecutive states are steps. */
  ghost predicate IsRun(maxRetries: nat, states: seq<Sys>, steps: seq<Step>) {
    && |states| == |steps| + 1
    && forall i :: 0 <= i < |steps| ==> Next(maxRetries, states[i], steps[i], states[i + 1])
  }

  ghost predicate Leads(maxRetries: nat, from: Sys, to: Sys) {
    exists states, steps :: IsRun(maxRetries, states, steps) && states[0] == from && states[|steps|] == to
  }

  ghost predicate Reachable(maxRetries: nat, s: Sys) {
    Leads(maxRetries, Initial(), s)
  }

  // ---- the invariant: what holds of each row, and of the two program counters ----

  predicate Waiting(e: Entry) {
    e.status == Pending || e.status == Retrying
  }

  /** One hand-off that no stored counter shows yet. */
  predicate Unrecorded(s: Sys, e: Entry) {
    Terminal(e) || (s.worker.Handling? && s.worker.entry.id == e.id && s.worker.stage != Marked)
  }

  /** The attempt budget of one message, and the bound on its stored counter. */
  ghost predicate BudgetOk(maxRetries: nat, s: Sys, e: Entry) {
    && e.id in s.attempts && e.id in s.born && s.born[e.id] <= s.crashes
    && e.retryCount < Cap(maxRetries)
    && s.attempts[e.id] <= e.retryCount + (s.crashes - s.born[e.id]) + if Unrecorded(s, e) then 1 else 0
  }

  /** A row may be `sending` only while the worker handles it or before recovery reaches it. */
  ghost predicate FlightOk(s: Sys, e: Entry) {
    match s.worker
    case Down => true
    case Recovering(todo) => InFlight(e) ==> e.id in BatchIds(todo)
    case Ready(_) => e.status != Sending
    case Handling(h, _, _) => e.status == Sending ==> e.id == h.id
  }

  /** The dead-letter row that belongs to a dead-lettered outbox row: the same payload and
      error, and one attempt more than the counter shows. */
  function MirrorOf(e: Entry): DeadEntry {
    DeadEntry(e.payload, e.retryCount + 1, if e.lastError.Some? then e.lastError.value else "")
  }

  ghost predicate RowOk(maxRetries: nat, s: Sys, id: Id)
    requires id in s.outbox
  {
    var e := s.outbox[id];
    && e.id == id
    && (e.status == Retrying ==> e.nextRetryAt.Some?)
    && (e.status == Sent ==> id in s.acked)
    && (id in s.dead ==> e.status == DeadLetter && e.lastError.Some? && s.dead[id] == MirrorOf(e))
    && BudgetOk(maxRetries, s, e) && FlightOk(s, e)
  }

  ghost predicate RowsOk(maxRetries: nat, s: Sys) {
    && s.dead.Keys <= s.outbox.Keys
    && forall id :: id in s.outbox ==> RowOk(maxRetries, s, id)
  }

  /** A fetched entry not yet handled is still exactly its row. */
  ghost predicate QueueOk(t: Table, queue: seq<Entry>) {
    RowsOf(t, queue) && DistinctIds(queue) && forall i :: 0 <= i < |queue| ==> Waiting(queue[i])
  }

  /** The row of the entry being handled is exactly the fetched entry with a new status. */
  ghost predicate HandledOk(s: Sys, e: Entry, stage: Stage) {
    && e.id in s.outbox && Waiting(e)
    && (if stage.Buried?
        then s.outbox[e.id] == e.(status := DeadLetter, lastError := Some(stage.error)) && e.id !in s.dead
        else s.outbox[e.id] == e.(status := Sending, lastError := None))
    && (stage == Acked ==> e.id in s.acked)
  }

  ghost predicate TodoOk(t: Table, todo: seq<Entry>) {
    DistinctIds(todo) && forall i :: 0 <= i < |todo| ==> todo[i].id in t && InFlight(t[todo[i].id])
  }

  ghost predicate WorkerOk(s: Sys) {
    match s.worker
    case Down => true
    case Recovering(todo) => TodoOk(s.outbox, todo)
    case Ready(queue) => QueueOk(s.outbox, queue)
    case Handling(e, stage, queue) =>
      QueueOk(s.outbox, queue) && HandledOk(s, e, stage) && e.id !in BatchIds(queue)
  }

  ghost predicate ReplayOk(s: Sys) {
    s.replayer.Deleted? ==>
      var id := s.replayer.id;
      && id in s.outbox && s.outbox[id].status == DeadLetter && s.outbox[id].payload == s.replayer.payload
      && id !in s.dead
      && (s.worker.Handling? ==> s.worker.entry.id != id)
  }

  ghost predicate Inv(maxRetries: nat, s: Sys) {
    RowsOk(maxRetries, s) && WorkerOk(s) && ReplayOk(s)
  }

  // ---- preservation ----

  lemma InvInitially(maxRetries: nat)
    ensures Inv(maxRetries, Initial())
  {
  }

  /** Queued entries survive any write to a row outside the queue. */
  lemma QueueFrame(t: Table, t': Table, queue: seq<Entry>, id: Id)
    requires QueueOk(t, queue) && id !in BatchIds(queue)
    requires forall k :: k in t && k != id ==> k in t' && t'[k] == t[k]
    ensures QueueOk(t', queue)
  {
    forall i | 0 <= i < |queue| ensures queue[i].id in t' && t'[queue[i].id] == queue[i] {
      assert queue[i].id in BatchIds(queue);
    }
  }

  /** A row that is not waiting is in no queue. */
  lemma NotQueued(t: Table, queue: seq<Entry>, id: Id)
    requires QueueOk(t, queue) && (id !in t || !Waiting(t[id]))
    ensures id !in BatchIds(queue)
  {
  }

  lemma QueueTail(t: Table, queue: seq<Entry>)
    requires QueueOk(t, queue) && queue != []
    ensures QueueOk(t, queue[1..]) && queue[0].id !in BatchIds(queue[1..])
  {
  }

  lemma InsertKeeps(maxRetries: nat, s: Sys, id: Id, routeKey: string, payload: string, now: int)
    requires Inv(maxRetries, s) && Enabled(maxRetries, s, Insert(id, routeKey, payload, now))
    ensures Inv(maxRetries, Apply(maxRetries, s, Insert(id, routeKey, payload, now)))
  {
    var s' := Apply(maxRetries, s, Insert(id, routeKey, payload, now));
    forall k | k in s'.outbox ensures RowOk(maxRetries, s', k) {
      if k in s.outbox { assert RowOk(maxRetries, s, k); }
    }
    if id !in s.outbox {
      if s.worker.Ready? || s.worker.Handling? {
        NotQueued(s.outbox, s.worker.queue, id);
        QueueFrame(s.outbox, s'.outbox, s.worker.queue, id);
      }
    }
  }

  lemma FetchKeeps(maxRetries: nat, s: Sys, query: Query, limit: nat, batch: seq<Entry>)
    requires Inv(maxRetries, s) && Enabled(maxRetries, s, Fetch(query, limit, batch))
    ensures Inv(maxRetries, Apply(maxRetries, s, Fetch(query, limit, batch)))
  {
    var s' := Apply(maxRetries, s, Fetch(query, limit, batch));
    forall k | k in s'.outbox ensures RowOk(maxRetries, s', k) {
      if k in s.outbox { assert RowOk(maxRetries, s, k); }
    }
    forall i | 0 <= i < |batch| ensures Waiting(batch[i]) {
      assert batch[i].id in BatchIds(batch);
    }
  }

  lemma MarkSendingKeeps(maxRetries: nat, s: Sys)
    requires Inv(maxRetries, s) && Enabled(maxRetries, s, MarkSending)
    ensures Inv(maxRetries, Apply(maxRetries, s, MarkSending))
  {
    var s' := Apply(maxRetries, s, MarkSending);
    forall k | k in s'.outbox ensures RowOk(maxRetries, s', k) {
      if k in s.outbox { assert RowOk(maxRetries, s, k); }
    }
    var queue := s.worker.queue;
    QueueTail(s.outbox, queue);
    QueueFrame(s.outbox, s'.outbox, queue[1..], queue[0].id);
  }

  lemma HandOffKeeps(maxRetries: nat, s: Sys)
    requires Inv(maxRetries, s) && Enabled(maxRetries, s, HandOff)
    ensures Inv(maxRetries, Apply(maxRetries, s, HandOff))
  {
    var s' := Apply(maxRetries, s, HandOff);
    forall k | k in s'.outbox ensures RowOk(maxRetries, s', k) {
      if k in s.outbox { assert RowOk(maxRetries, s, k); }
    }
  }

  lemma SendOkKeeps(maxRetries: nat, s: Sys)
    requires Inv(maxRetries, s) && Enabled(maxRetries, s, SendOk)
    ensures Inv(maxRetries, Apply(maxRetries, s, SendOk))
  {
    var s' := Apply(maxRetries, s, SendOk);
    forall k | k in s'.outbox ensures RowOk(maxRetries, s', k) {
      if k in s.outbox { assert RowOk(maxRetries, s, k); }
    }
  }

  lemma SendErrKeeps(maxRetries: nat, s: Sys, error: string)
    requires Inv(maxRetries, s) && Enabled(maxRetries, s, SendErr(error))
    ensures Inv(maxRetries, Apply(maxRetries, s, SendErr(error)))
  {
    var s' := Apply(maxRetries, s, SendErr(error));
    forall k | k in s'.outbox ensures RowOk(maxRetries, s', k) {
      if k in s.outbox { assert RowOk(maxRetries, s, k); }
    }
  }

  lemma MarkSentKeeps(maxRetries: nat, s: Sys)
    requires Inv(maxRetries, s) && Enabled(maxRetries, s, MarkSent)
    ensures Inv(maxRetries, Apply(maxRetries, s, MarkSent))
  {
    var s' := Apply(maxRetries, s, MarkSent);
    forall k | k in s'.outbox ensures RowOk(maxRetries, s', k) {
      if k in s.outbox { assert RowOk(maxRetries, s, k); }
    }
    QueueFrame(s.outbox, s'.outbox, s.worker.queue, s.worker.entry.id);
  }

  lemma MarkDeadKeeps(maxRetries: nat, s: Sys)
    requires Inv(maxRetries, s) && Enabled(maxRetries, s, MarkDead)
    ensures Inv(maxRetries, Apply(maxRetries, s, MarkDead))
  {
    var s' := Apply(maxRetries, s, MarkDead);
    forall k | k in s'.outbox ensures RowOk(maxRetries, s', k) {
      if k in s.outbox { assert RowOk(maxRetries, s, k); }
    }
    QueueFrame(s.outbox, s'.outbox, s.worker.queue, s.worker.entry.id);
  }

  lemma FileDeadKeeps(maxRetries: nat, s: Sys)
    requires Inv(maxRetries, s) && Enabled(maxRetries, s, FileDead)
    ensures Inv(maxRetries, Apply(maxRetries, s, FileDead))
  {
    var s' := Apply(maxRetries, s, FileDead);
    forall k | k in s'.outbox ensures RowOk(maxRetries, s', k) {
      if k in s.outbox { assert RowOk(maxRetries, s, k); }
    }
  }

  lemma RescheduleKeeps(maxRetries: nat, s: Sys, at: int)
    requires Inv(maxRetries, s) && Enabled(maxRetries, s, Reschedule(at))
    ensures Inv(maxRetries, Apply(maxRetries, s, Reschedule(at)))
  {
    var s' := Apply(maxRetries, s, Reschedule(at));
    forall k | k in s'.outbox ensures RowOk(maxRetries, s', k) {
      if k in s.outbox { assert RowOk(maxRetries, s, k); }
    }
    QueueFrame(s.outbox, s'.outbox, s.worker.queue, s.worker.entry.id);
  }

  lemma ReplayDeleteKeeps(maxRetries: nat, s: Sys, id: Id)
    requires Inv(maxRetries, s) && Enabled(maxRetries, s, ReplayDelete(id))
    ensures Inv(maxRetries, Apply(maxRetries, s, ReplayDelete(id)))
  {
    var s' := Apply(maxRetries, s, ReplayDelete(id));
    forall k | k in s'.outbox ensures RowOk(maxRetries, s', k) {
      if k in s.outbox { assert RowOk(maxRetries, s, k); }
    }
  }

  lemma ReplayWriteKeeps(maxRetries: nat, s: Sys, now: int)
    requires Inv(maxRetries, s) && Enabled(maxRetries, s, ReplayWrite(now))
    ensures Inv(maxRetries, Apply(maxRetries, s, ReplayWrite(now)))
  {
    var s' := Apply(maxRetries, s, ReplayWrite(now));
    forall k | k in s'.outbox ensures RowOk(maxRetries, s', k) {
      if k in s.outbox { assert RowOk(maxRetries, s, k); }
    }
    if s.worker.Ready? || s.worker.Handling? {
      NotQueued(s.outbox, s.worker.queue, s.replayer.id);
      QueueFrame(s.outbox, s'.outbox, s.worker.queue, s.replayer.id);
    }
  }

  lemma ReplayDiesKeeps(maxRetries: nat, s: Sys)
    requires Inv(maxRetries, s) && Enabled(maxRetries, s, ReplayDies)
    ensures Inv(maxRetries, Apply(maxRetries, s, ReplayDies))
  {
    var s' := Apply(maxRetries, s, ReplayDies);
    forall k | k in s'.outbox ensures RowOk(maxRetries, s', k) {
      if k in s.outbox { assert RowOk(maxRetries, s, k); }
    }
  }

  lemma CrashKeeps(maxRetries: nat, s: Sys)
    requires Inv(maxRetries, s) && Enabled(maxRetries, s, Crash)
    ensures Inv(maxRetries, Apply(maxRetries, s, Crash))
  {
    var s' := Apply(maxRetries, s, Crash);
    forall k | k in s'.outbox ensures RowOk(maxRetries, s', k) {
      if k in s.outbox { assert RowOk(maxRetries, s, k); }
    }
  }

  lemma RestartKeeps(maxRetries: nat, s: Sys, todo: seq<Entry>)
    requires Inv(maxRetries, s) && Enabled(maxRetries, s, Restart(todo))
    ensures Inv(maxRetries, Apply(maxRetries, s, Restart(todo)))
  {
    var s' := Apply(maxRetries, s, Restart(todo));
    FetchAllIsComplete(s.outbox, todo);
    forall k | k in s'.outbox ensures RowOk(maxRetries, s', k) {
      if k in s.outbox { assert RowOk(maxRetries, s, k); }
    }
    forall i | 0 <= i < |todo| ensures InFlight(todo[i]) {
      assert todo[i].id in BatchIds(todo);
    }
  }

  lemma RecoverOneKeeps(maxRetries: nat, s: Sys)
    requires Inv(maxRetries, s) && Enabled(maxRetries, s, RecoverOne)
    ensures Inv(maxRetries, Apply(maxRetries, s, RecoverOne))
  {
    var s' := Apply(maxRetries, s, RecoverOne);
    BatchIdsTail(s.worker.todo);
    forall k | k in s'.outbox ensures RowOk(maxRetries, s', k) {
      if k in s.outbox { assert RowOk(maxRetries, s, k); }
    }
  }

  lemma RecoveryDoneKeeps(maxRetries: nat, s: Sys)
    requires Inv(maxRetries, s) && Enabled(maxRetries, s, RecoveryDone)
    ensures Inv(maxRetries, Apply(maxRetries, s, RecoveryDone))
  {
    var s' := Apply(maxRetries, s, RecoveryDone);
    forall k | k in s'.outbox ensures RowOk(maxRetries, s', k) {
      if k in s.outbox { assert RowOk(maxRetries, s, k); }
    }
  }

  lemma StepKeepsInv(maxRetries: nat, s: Sys, step: Step, s': Sys)
    requires Inv(maxRetries, s) && Next(maxRetries, s, step, s')
    ensures Inv(maxRetries, s')
  {
    match step
    case Insert(id, routeKey, payload, now) => InsertKeeps(maxRetries, s, id, routeKey, payload, now);
    case Fetch(query, limit, batch) => FetchKeeps(maxRetries, s, query, limit, batch);
    case MarkSending => MarkSendingKeeps(maxRetries, s);
    case HandOff => HandOffKeeps(maxRetries, s);
    case SendOk => SendOkKeeps(maxRetries, s);
    case SendErr(error) => SendErrKeeps(maxRetries, s, error);
    case MarkSent => MarkSentKeeps(maxRetries, s);
    case MarkDead => MarkDeadKeeps(maxRetries, s);
    case FileDead => FileDeadKeeps(maxRetries, s);
    case Reschedule(at) => RescheduleKeeps(maxRetries, s, at);
    case ReplayDelete(id) => ReplayDeleteKeeps(maxRetries, s, id);
    case ReplayWrite(now) => ReplayWriteKeeps(maxRetries, s, now);
    case ReplayDies => ReplayDiesKeeps(maxRetries, s);
    case Crash => CrashKeeps(maxRetries, s);
    case Restart(todo) => RestartKeeps(maxRetries, s, todo);
    case RecoverOne => RecoverOneKeeps(maxRetries, s);
    case RecoveryDone => RecoveryDoneKeeps(maxRetries, s);
  }

  lemma {:induction false} RunKeepsInv(maxRetries: nat, states: seq<Sys>, steps: seq<Step>, n: nat)
    requires IsRun(maxRetries, states, steps) && n <= |steps| && Inv(maxRetries, states[0])
    ensures Inv(maxRetries, states[n])
    decreases n
  {
    if n > 0 {
      RunKeepsInv(maxRetries, states, steps, n - 1);
      assert Next(maxRetries, states[n - 1], steps[n - 1], states[n]);
      StepKeepsInv(maxRetries, states[n - 1], steps[n - 1], states[n]);
    }
  }

  lemma ReachableInv(maxRetries: nat, s: Sys)
    requires Reachable(maxRetries, s)
    ensures Inv(maxRetries, s)
  {
    var states, steps :| IsRun(maxRetries, states, steps) && states[0] == Initial() && states[|steps|] == s;
    InvInitially(maxRetries);
    RunKeepsInv(maxRetries, states, steps, |steps|);
  }

  // ---- safety of the two tables, in every reachable state ----

  /** Dead-letter rows mirror outbox rows; the dead-letter INSERT never meets its key;
      replay always finds the outbox row and writes back the payload it already has. */
  lemma TablesAgree(maxRetries: nat, s: Sys)
    requires Reachable(maxRetries, s)
    ensures forall id :: id in s.dead ==>
              && id in s.outbox && s.outbox[id].status == DeadLetter && s.dead[id].payload == s.outbox[id].payload
              && Some(s.dead[id].error) == s.outbox[id].lastError && s.dead[id].attempt == s.outbox[id].retryCount + 1
    ensures Enabled(maxRetries, s, FileDead) ==> s.worker.entry.id !in s.dead
    ensures s.replayer.Deleted? ==>
              s.replayer.id in s.outbox && s.outbox[s.replayer.id].payload == s.replayer.payload
  {
    ReachableInv(maxRetries, s);
    forall id | id in s.dead
      ensures
        && id in s.outbox && s.outbox[id].status == DeadLetter && s.dead[id].payload == s.outbox[id].payload
        && Some(s.dead[id].error) == s.outbox[id].lastError && s.dead[id].attempt == s.outbox[id].retryCount + 1
    {
      assert RowOk(maxRetries, s, id);
    }
  }

  // ---- what every run keeps of one message ----

  /** The steps of the worker loop, as opposed to inserts, replays, crashes and recovery. */
  predicate IsWorkerStep(step: Step) {
    || step.Fetch? || step.MarkSending? || step.HandOff? || step.SendOk? || step.SendErr? || step.MarkSent?
    || step.MarkDead? || step.FileDead? || step.Reschedule?
  }

  /** A dead-lettered row that no dead-letter row stands for and that nobody is working on. */
  ghost predicate Orphan(s: Sys, id: Id) {
    && id in s.outbox && s.outbox[id].status == DeadLetter && id !in s.dead
    && !(s.worker.Handling? && s.worker.entry.id == id)
    && !(s.replayer.Deleted? && s.replayer.id == id)
  }

  ghost predicate MessageKept(s: Sys, s': Sys, id: Id)
    requires id in s.outbox
  {
    ContentKept(s, s', id) && (Orphan(s, id) ==> Orphan(s', id))
  }

  ghost predicate ContentKept(s: Sys, s': Sys, id: Id)
    requires id in s.outbox
  {
    && id in s'.outbox
    && s'.outbox[id].routeKey == s.outbox[id].routeKey && s'.outbox[id].payload == s.outbox[id].payload
    && s'.outbox[id].createdAt == s.outbox[id].createdAt
    && (s.outbox[id].status == Sent ==> s'.outbox[id] == s.outbox[id])
  }

  lemma WorkerKeepsContent(maxRetries: nat, s: Sys, step: Step, s': Sys, id: Id)
    requires WorkerOk(s) && Next(maxRetries, s, step, s') && id in s.outbox && IsWorkerStep(step)
    ensures ContentKept(s, s', id)
  {
    assert id in s'.outbox;
  }

  lemma OthersKeepContent(maxRetries: nat, s: Sys, step: Step, s': Sys, id: Id)
    requires Inv(maxRetries, s) && Next(maxRetries, s, step, s') && id in s.outbox && !IsWorkerStep(step)
    ensures ContentKept(s, s', id)
  {
    assert RowOk(maxRetries, s, id);
  }

  lemma WorkerKeepsOrphan(maxRetries: nat, s: Sys, step: Step, s': Sys, id: Id)
    requires Inv(maxRetries, s) && Next(maxRetries, s, step, s') && Orphan(s, id) && IsWorkerStep(step)
    ensures Orphan(s', id)
  {
    if step.MarkSending? { assert RowOk(maxRetries, s, s.worker.queue[0].id); }
  }

  lemma OthersKeepOrphan(maxRetries: nat, s: Sys, step: Step, s': Sys, id: Id)
    requires Inv(maxRetries, s) && Next(maxRetries, s, step, s') && Orphan(s, id) && !IsWorkerStep(step)
    ensures Orphan(s', id)
  {
    assert RowOk(maxRetries, s, id);
  }

  lemma StepKeepsOrphan(maxRetries: nat, s: Sys, step: Step, s': Sys, id: Id)
    requires Inv(maxRetries, s) && Next(maxRetries, s, step, s') && Orphan(s, id)
    ensures Orphan(s', id)
  {
    if IsWorkerStep(step) {
      WorkerKeepsOrphan(maxRetries, s, step, s', id);
    } else {
      OthersKeepOrphan(maxRetries, s, step, s', id);
    }
  }

  /** Over any stretch of any run no message disappears, its route, payload and age never
      change, a sent row never changes again, and an orphaned one is stuck for ever. */
  lemma {:induction false} RunKeepsMessage(
      maxRetries: nat, states: seq<Sys>, steps: seq<Step>, i: nat, j: nat, id: Id)
    requires IsRun(maxRetries, states, steps) && states[0] == Initial()
    requires i <= j <= |steps| && id in states[i].outbox
    ensures MessageKept(states[i], states[j], id)
    decreases j
  {
    if i < j {
      RunKeepsMessage(maxRetries, states, steps, i, j - 1, id);
      InvInitially(maxRetries);
      RunKeepsInv(maxRetries, states, steps, j - 1);
      assert Next(maxRetries, states[j - 1], steps[j - 1], states[j]);
      if IsWorkerStep(steps[j - 1]) {
        WorkerKeepsContent(maxRetries, states[j - 1], steps[j - 1], states[j], id);
      } else {
        OthersKeepContent(maxRetries, states[j - 1], steps[j - 1], states[j], id);
      }
      if Orphan(states[j - 1], id) { StepKeepsOrphan(maxRetries, states[j - 1], steps[j - 1], states[j], id); }
    }
  }

  // ---- `sent` means accepted, read off the trace ----

  ghost predicate AcceptedAt(states: seq<Sys>, steps: seq<Step>, k: nat, id: Id)
    requires k < |steps| < |states|
  {
    steps[k] == SendOk && states[k].worker.Handling? && states[k].worker.entry.id == id
  }

  lemma {:induction false} AckedIsAccepted(maxRetries: nat, states: seq<Sys>, steps: seq<Step>, n: nat, id: Id)
    requires IsRun(maxRetries, states, steps) && states[0] == Initial() && n <= |steps|
    ensures id in states[n].acked <==> exists k :: 0 <= k < n && AcceptedAt(states, steps, k, id)
    decreases n
  {
    if n > 0 {
      AckedIsAccepted(maxRetries, states, steps, n - 1, id);
      assert Next(maxRetries, states[n - 1], steps[n - 1], states[n]);
      if AcceptedAt(states, steps, n - 1, id) {
        assert id in states[n].acked;
      } else {
        assert id in states[n].acked <==> id in states[n - 1].acked;
      }
    }
  }

  /** A row says `sent` only after the sender returned Ok for that very message. */
  lemma SentWasAccepted(maxRetries: nat, states: seq<Sys>, steps: seq<Step>, n: nat, id: Id)
    requires IsRun(maxRetries, states, steps) && states[0] == Initial() && n <= |steps|
    requires id in states[n].outbox && states[n].outbox[id].status == Sent
    ensures exists k :: 0 <= k < n && AcceptedAt(states, steps, k, id)
  {
    InvInitially(maxRetries);
    RunKeepsInv(maxRetries, states, steps, n);
    assert RowOk(maxRetries, states[n], id);
    AckedIsAccepted(maxRetries, states, steps, n, id);
  }

  // ---- the attempt budget, read off the trace ----

  /** The step creates the message or puts it back at its beginning. */
  predicate Renews(s: Sys, step: Step, id: Id) {
    || (step.Insert? && step.id == id && id !in s.outbox)
    || (step.ReplayWrite? && s.replayer.Deleted? && s.replayer.id == id)
  }

  predicate Offers(s: Sys, step: Step, id: Id) {
    step.HandOff? && s.worker.Handling? && s.worker.entry.id == id
  }

  /** Hand-offs of the message to the sender since it was inserted or last replayed. */
  ghost function HandOffsSince(states: seq<Sys>, steps: seq<Step>, n: nat, id: Id): nat
    requires n <= |steps| < |states|
  {
    if n == 0 || Renews(states[n - 1], steps[n - 1], id) then 0
    else HandOffsSince(states, steps, n - 1, id) + if Offers(states[n - 1], steps[n - 1], id) then 1 else 0
  }

  ghost function CrashesSince(states: seq<Sys>, steps: seq<Step>, n: nat, id: Id): nat
    requires n <= |steps| < |states|
  {
    if n == 0 || Renews(states[n - 1], steps[n - 1], id) then 0
    else CrashesSince(states, steps, n - 1, id) + if steps[n - 1].Crash? then 1 else 0
  }

  /** How the history variables move in one step, for one message. */
  ghost predicate HistoryMoves(s: Sys, step: Step, s': Sys, id: Id) {
    && id in s'.attempts && id in s'.born
    && if Renews(s, step, id) then s'.attempts[id] == 0 && s'.born[id] == s'.crashes
       else
         && id in s.outbox && id in s.attempts && id in s.born
         && s'.attempts[id] == s.attempts[id] + (if Offers(s, step, id) then 1 else 0)
         && s'.born[id] == s.born[id] && s'.crashes == s.crashes + (if step.Crash? then 1 else 0)
  }

  lemma WorkerHistory(maxRetries: nat, s: Sys, step: Step, s': Sys, id: Id)
    requires Inv(maxRetries, s) && Next(maxRetries, s, step, s') && id in s'.outbox && IsWorkerStep(step)
    ensures HistoryMoves(s, step, s', id)
  {
    if id in s.outbox { assert RowOk(maxRetries, s, id); }
  }

  lemma OtherHistory(maxRetries: nat, s: Sys, step: Step, s': Sys, id: Id)
    requires Inv(maxRetries, s) && Next(maxRetries, s, step, s') && id in s'.outbox && !IsWorkerStep(step)
    ensures HistoryMoves(s, step, s', id)
  {
    if id in s.outbox { assert RowOk(maxRetries, s, id); }
  }

  lemma {:induction false} HistoryIsTrace(maxRetries: nat, states: seq<Sys>, steps: seq<Step>, n: nat, id: Id)
    requires IsRun(maxRetries, states, steps) && states[0] == Initial()
    requires n <= |steps| && id in states[n].outbox
    ensures id in states[n].attempts && states[n].attempts[id] == HandOffsSince(states, steps, n, id)
    ensures id in states[n].born && states[n].crashes - states[n].born[id] == CrashesSince(states, steps, n, id)
    decreases n
  {
    if n > 0 {
      InvInitially(maxRetries);
      RunKeepsInv(maxRetries, states, steps, n - 1);
      assert Next(maxRetries, states[n - 1], steps[n - 1], states[n]);
      if IsWorkerStep(steps[n - 1]) {
        WorkerHistory(maxRetries, states[n - 1], steps[n - 1], states[n], id);
      } else {
        OtherHistory(maxRetries, states[n - 1], steps[n - 1], states[n], id);
      }
      if !Renews(states[n - 1], steps[n - 1], id) {
        HistoryIsTrace(maxRetries, states, steps, n - 1, id);
      }
    }
  }

  /** Since its insert or last replay a message reaches the sender at most
      max(1, max_retries) times plus once per crash, and its counter stays below the cap. */
  lemma AttemptBudget(maxRetries: nat, states: seq<Sys>, steps: seq<Step>, n: nat, id: Id)
    requires IsRun(maxRetries, states, steps) && states[0] == Initial()
    requires n <= |steps| && id in states[n].outbox
    ensures HandOffsSince(states, steps, n, id) <= Cap(maxRetries) + CrashesSince(states, steps, n, id)
    ensures states[n].outbox[id].retryCount < Cap(maxRetries)
  {
    InvInitially(maxRetries);
    RunKeepsInv(maxRetries, states, steps, n);
    assert RowOk(maxRetries, states[n], id);
    HistoryIsTrace(maxRetries, states, steps, n, id);
  }

  // ---- no message is given up early ----

  /** The hand-offs no stored counter shows, from below. */
  predicate OneMore(s: Sys, e: Entry) {
    e.status == DeadLetter || (s.worker.Handling? && s.worker.entry.id == e.id && s.worker.stage != Marked)
  }

  ghost predicate Tried(maxRetries: nat, s: Sys, id: Id)
    requires id in s.outbox
  {
    var e := s.outbox[id];
    && id in s.attempts && s.attempts[id] >= e.retryCount + (if OneMore(s, e) then 1 else 0)
    && (e.status == DeadLetter ==> e.retryCount + 1 == Cap(maxRetries))
  }

  lemma WorkerKeepsTried(maxRetries: nat, s: Sys, step: Step, s': Sys, id: Id)
    requires WorkerOk(s) && Next(maxRetries, s, step, s') && IsWorkerStep(step)
    requires id in s.outbox && RowOk(maxRetries, s, id) && Tried(maxRetries, s, id)
    ensures id in s'.outbox && Tried(maxRetries, s', id)
  {
    assert id in s'.outbox;
  }

  lemma OthersKeepTried(maxRetries: nat, s: Sys, step: Step, s': Sys, id: Id)
    requires Inv(maxRetries, s) && Next(maxRetries, s, step, s') && !IsWorkerStep(step)
    requires id in s.outbox ==> Tried(maxRetries, s, id)
    ensures id in s'.outbox ==> Tried(maxRetries, s', id)
  {
    if id in s.outbox { assert RowOk(maxRetries, s, id); }
  }

  lemma WorkerAddsNothing(maxRetries: nat, s: Sys, step: Step, s': Sys, id: Id)
    requires Next(maxRetries, s, step, s') && IsWorkerStep(step) && id in s'.outbox
    ensures id in s.outbox
  {
  }

  lemma {:induction false} RunKeepsTried(maxRetries: nat, states: seq<Sys>, steps: seq<Step>, n: nat, id: Id)
    requires IsRun(maxRetries, states, steps) && states[0] == Initial()
    requires n <= |steps| && id in states[n].outbox
    ensures Tried(maxRetries, states[n], id)
    decreases n
  {
    if n > 0 {
      InvInitially(maxRetries);
      RunKeepsInv(maxRetries, states, steps, n - 1);
      assert Next(maxRetries, states[n - 1], steps[n - 1], states[n]);
      if id in states[n - 1].outbox { RunKeepsTried(maxRetries, states, steps, n - 1, id); }
      if IsWorkerStep(steps[n - 1]) {
        WorkerAddsNothing(maxRetries, states[n - 1], steps[n - 1], states[n], id);
        assert RowOk(maxRetries, states[n - 1], id);
        WorkerKeepsTried(maxRetries, states[n - 1], steps[n - 1], states[n], id);
      } else {
        OthersKeepTried(maxRetries, states[n - 1], steps[n - 1], states[n], id);
      }
    }
  }

  /** A message is dead-lettered only after max(1, max_retries) hand-offs since its insert or
      last replay: exactly that many if no crash came since. */
  lemma DeadOnlyAfterAllAttempts(maxRetries: nat, states: seq<Sys>, steps: seq<Step>, n: nat, id: Id)
    requires IsRun(maxRetries, states, steps) && states[0] == Initial()
    requires n <= |steps| && id in states[n].outbox && states[n].outbox[id].status == DeadLetter
    ensures HandOffsSince(states, steps, n, id) >= Cap(maxRetries)
    ensures CrashesSince(states, steps, n, id) == 0 ==> HandOffsSince(states, steps, n, id) == Cap(maxRetries)
    ensures states[n].outbox[id].retryCount + 1 == Cap(maxRetries)
    ensures id in states[n].dead ==> states[n].dead[id].attempt == Cap(maxRetries)
  {
    RunKeepsTried(maxRetries, states, steps, n, id);
    HistoryIsTrace(maxRetries, states, steps, n, id);
    AttemptBudget(maxRetries, states, steps, n, id);
    InvInitially(maxRetries);
    RunKeepsInv(maxRetries, states, steps, n);
    assert RowOk(maxRetries, states[n], id);
  }

  // ---- what a row says is what the sender last answered ----

  datatype Verdict = NoReply | Accepted | Refused(error: string)

  predicate Handles(s: Sys, id: Id) {
    s.worker.Handling? && s.worker.entry.id == id
  }

  predicate Recovers(s: Sys, step: Step, id: Id) {
    step.RecoverOne? && s.worker.Recovering? && s.worker.todo != [] && s.worker.todo[0].id == id
  }

  function NextVerdict(s: Sys, step: Step, v: Verdict, id: Id): Verdict {
    if Renews(s, step, id) || Recovers(s, step, id) then NoReply
    else if step.SendOk? && Handles(s, id) then Accepted
    else if step.SendErr? && Handles(s, id) then Refused(step.error)
    else v
  }

  /** The sender's last answer for the message since its insert, replay or recovery. */
  ghost function LastVerdict(states: seq<Sys>, steps: seq<Step>, n: nat, id: Id): Verdict
    requires n <= |steps| < |states|
  {
    if n == 0 then NoReply
    else NextVerdict(states[n - 1], steps[n - 1], LastVerdict(states, steps, n - 1, id), id)
  }

  /** Status and error of a row against that answer. */
  predicate ShowsVerdict(e: Entry, v: Verdict) {
    match e.status
    case Pending => v == NoReply && e.lastError == None
    case Sending => e.lastError == None
    case Sent => v == Accepted && e.lastError == None
    case Retrying => v.Refused? && e.lastError == Some(v.error)
    case DeadLetter => v.Refused? && e.lastError == Some(v.error)
  }

  ghost predicate VerdictOk(s: Sys, v: Verdict, id: Id)
    requires id in s.outbox
  {
    && ShowsVerdict(s.outbox[id], v)
    && (Handles(s, id) && s.worker.stage == Stage.Acked ==> v == Accepted)
    && (Handles(s, id) && s.worker.stage.Nacked? ==> v == Refused(s.worker.stage.error))
  }

  lemma WorkerKeepsVerdict(maxRetries: nat, s: Sys, step: Step, s': Sys, v: Verdict, id: Id)
    requires WorkerOk(s) && Next(maxRetries, s, step, s') && IsWorkerStep(step)
    requires id in s.outbox && VerdictOk(s, v, id)
    ensures id in s'.outbox && VerdictOk(s', NextVerdict(s, step, v, id), id)
  {
    assert id in s'.outbox;
  }

  lemma OthersKeepVerdict(maxRetries: nat, s: Sys, step: Step, s': Sys, v: Verdict, id: Id)
    requires WorkerOk(s) && ReplayOk(s) && Next(maxRetries, s, step, s') && !IsWorkerStep(step)
    requires id in s.outbox ==> VerdictOk(s, v, id)
    ensures id in s'.outbox ==> VerdictOk(s', NextVerdict(s, step, v, id), id)
  {
  }

  lemma StepKeepsVerdict(maxRetries: nat, s: Sys, step: Step, s': Sys, v: Verdict, id: Id)
    requires Inv(maxRetries, s) && Next(maxRetries, s, step, s') && id in s'.outbox
    requires id in s.outbox ==> VerdictOk(s, v, id)
    ensures VerdictOk(s', NextVerdict(s, step, v, id), id)
  {
    if IsWorkerStep(step) {
      WorkerAddsNothing(maxRetries, s, step, s', id);
      WorkerKeepsVerdict(maxRetries, s, step, s', v, id);
    } else {
      OthersKeepVerdict(maxRetries, s, step, s', v, id);
    }
  }

  lemma {:induction false} RunKeepsVerdict(maxRetries: nat, states: seq<Sys>, steps: seq<Step>, n: nat, id: Id)
    requires IsRun(maxRetries, states, steps) && states[0] == Initial()
    requires n <= |steps| && id in states[n].outbox
    ensures VerdictOk(states[n], LastVerdict(states, steps, n, id), id)
    decreases n
  {
    if n > 0 {
      InvInitially(maxRetries);
      RunKeepsInv(maxRetries, states, steps, n - 1);
      assert Next(maxRetries, states[n - 1], steps[n - 1], states[n]);
      if id in states[n - 1].outbox { RunKeepsVerdict(maxRetries, states, steps, n - 1, id); }
      StepKeepsVerdict(maxRetries, states[n - 1], steps[n - 1], states[n], LastVerdict(states, steps, n - 1, id), id);
    }
  }

  /** In every run: a row is sent if the sender last accepted the message, retrying or
      dead-lettered with that very error if it last refused it, and pending without any error
      if it has not answered since the insert, replay or recovery. */
  lemma StatusShowsVerdict(maxRetries: nat, states: seq<Sys>, steps: seq<Step>, n: nat, id: Id)
    requires IsRun(maxRetries, states, steps) && states[0] == Initial()
    requires n <= |steps| && id in states[n].outbox
    ensures
      var e, v := states[n].outbox[id], LastVerdict(states, steps, n, id);
      && (e.status == Pending ==> v == NoReply && e.lastError == None)
      && (e.status == Sent ==> v == Accepted && e.lastError == None)
      && (e.status == Retrying || e.status == DeadLetter ==> v.Refused? && e.lastError == Some(v.error))
      && (e.status == Sending ==> e.lastError == None)
    ensures
      var s := states[n];
      id in s.dead ==> LastVerdict(states, steps, n, id) == Refused(s.dead[id].error)
  {
    RunKeepsVerdict(maxRetries, states, steps, n, id);
    InvInitially(maxRetries);
    RunKeepsInv(maxRetries, states, steps, n);
    assert RowOk(maxRetries, states[n], id);
  }

  // ---- where a row's content comes from ----

  /** The step that put the message into the outbox, with the content it has now. */
  ghost predicate InsertedAt(states: seq<Sys>, steps: seq<Step>, k: nat, e: Entry)
    requires k < |steps| < |states|
  {
    steps[k] == Insert(e.id, e.routeKey, e.payload, e.createdAt) && e.id !in states[k].outbox
  }

  lemma FirstRow(maxRetries: nat, s: Sys, step: Step, s': Sys, id: Id)
    requires Inv(maxRetries, s) && Next(maxRetries, s, step, s') && id !in s.outbox && id in s'.outbox
    ensures step.Insert? && step.id == id
    ensures s'.outbox[id] == Entry(id, step.routeKey, step.payload, Pending, 0, None, None, step.now)
  {
  }

  /** Route key, payload and creation time of every row are the arguments of its first insert. */
  lemma {:induction false} ContentIsInserted(maxRetries: nat, states: seq<Sys>, steps: seq<Step>, n: nat, id: Id)
      returns (k: nat)
    requires IsRun(maxRetries, states, steps) && states[0] == Initial()
    requires n <= |steps| && id in states[n].outbox
    ensures k < n && InsertedAt(states, steps, k, states[n].outbox[id]) && states[n].outbox[id].id == id
    decreases n
  {
    InvInitially(maxRetries);
    RunKeepsInv(maxRetries, states, steps, n);
    assert RowOk(maxRetries, states[n], id);
    RunKeepsInv(maxRetries, states, steps, n - 1);
    assert Next(maxRetries, states[n - 1], steps[n - 1], states[n]);
    if id in states[n - 1].outbox {
      k := ContentIsInserted(maxRetries, states, steps, n - 1, id);
      RunKeepsMessage(maxRetries, states, steps, n - 1, n, id);
    } else {
      FirstRow(maxRetries, states[n - 1], steps[n - 1], states[n], id);
      k := n - 1;
    }
  }

  /** A replayed message starts over exactly as it was first inserted. */
  lemma ReplayedIsNew(maxRetries: nat, s: Sys, now: int, s': Sys)
    requires Reachable(maxRetries, s) && Next(maxRetries, s, ReplayWrite(now), s')
    ensures
      var id := s.replayer.id;
      && id in s.outbox && s'.outbox.Keys == s.outbox.Keys && s'.outbox - {id} == s.outbox - {id}
      && s'.outbox[id]
         == Entry(id, s.outbox[id].routeKey, s.outbox[id].payload, Pending, 0, None, None, s.outbox[id].createdAt)
  {
    ReachableInv(maxRetries, s);
    assert RowOk(maxRetries, s, s.replayer.id);
  }

  // ---- how many dead-lettered rows can lose their dead-letter row ----

  ghost function Orphans(s: Sys): set<Id> {
    set id | id in s.outbox && Orphan(s, id)
  }

  /** The message is between the two writes of its dead-lettering, or of its replay, and the
      step cuts off whoever is to do the second. */
  predicate Cuts(s: Sys, step: Step, id: Id) {
    || (step == Crash && s.worker.Handling? && s.worker.stage.Buried? && s.worker.entry.id == id)
    || (step == ReplayDies && s.replayer.Deleted? && s.replayer.id == id)
  }

  lemma WorkerOrphansNothing(maxRetries: nat, s: Sys, step: Step, s': Sys, id: Id)
    requires WorkerOk(s) && Next(maxRetries, s, step, s') && Orphan(s', id) && IsWorkerStep(step)
    ensures Orphan(s, id)
  {
    assert id in s.outbox;
  }

  lemma OthersOrphanExactly(maxRetries: nat, s: Sys, step: Step, s': Sys, id: Id)
    requires Inv(maxRetries, s) && Next(maxRetries, s, step, s') && !IsWorkerStep(step) && !Orphan(s, id)
    ensures Orphan(s', id) <==> Cuts(s, step, id)
  {
    if id in s.outbox { assert RowOk(maxRetries, s, id); }
  }

  /** The one step that orphans a message. */
  lemma OrphanStepExactly(maxRetries: nat, s: Sys, step: Step, s': Sys, id: Id)
    requires Inv(maxRetries, s) && Next(maxRetries, s, step, s')
    ensures Orphan(s', id) <==> Orphan(s, id) || Cuts(s, step, id)
  {
    if Orphan(s, id) {
      StepKeepsOrphan(maxRetries, s, step, s', id);
    } else if IsWorkerStep(step) {
      if Orphan(s', id) { WorkerOrphansNothing(maxRetries, s, step, s', id); }
    } else {
      OthersOrphanExactly(maxRetries, s, step, s', id);
    }
  }

  ghost function CutBy(s: Sys, step: Step): set<Id> {
    if step == Crash && s.worker.Handling? then {s.worker.entry.id}
    else if step == ReplayDies && s.replayer.Deleted? then {s.replayer.id}
    else {}
  }

  lemma CutsAreCounted(maxRetries: nat, s: Sys, step: Step, s': Sys)
    requires Next(maxRetries, s, step, s')
    ensures s'.crashes + s'.cutReplays >= s.crashes + s.cutReplays + |CutBy(s, step)|
  {
  }

  lemma OrphanStep(maxRetries: nat, s: Sys, step: Step, s': Sys)
    requires Inv(maxRetries, s) && Next(maxRetries, s, step, s') && |Orphans(s)| <= s.crashes + s.cutReplays
    ensures |Orphans(s')| <= s'.crashes + s'.cutReplays
  {
    var allowed := Orphans(s) + CutBy(s, step);
    forall id | id in Orphans(s') ensures id in allowed {
      OrphanStepExactly(maxRetries, s, step, s', id);
    }
    SubsetCount(Orphans(s'), allowed);
    UnionCount(Orphans(s), CutBy(s, step));
    CutsAreCounted(maxRetries, s, step, s');
  }

  /** Each crash and each cut replay orphans at most one row; so without them, and with nobody
      at work, the rows in `dead_letter` are exactly the dead-letter rows. */
  lemma {:induction false} OrphanBound(maxRetries: nat, states: seq<Sys>, steps: seq<Step>, n: nat)
    requires IsRun(maxRetries, states, steps) && states[0] == Initial() && n <= |steps|
    ensures |Orphans(states[n])| <= states[n].crashes + states[n].cutReplays
    ensures
      var s := states[n];
      s.crashes == 0 && s.cutReplays == 0 && !s.worker.Handling? && s.replayer == Quiet ==>
        s.dead.Keys == set id | id in s.outbox && s.outbox[id].status == DeadLetter
    decreases n
  {
    InvInitially(maxRetries);
    RunKeepsInv(maxRetries, states, steps, n);
    if n > 0 {
      OrphanBound(maxRetries, states, steps, n - 1);
      RunKeepsInv(maxRetries, states, steps, n - 1);
      assert Next(maxRetries, states[n - 1], steps[n - 1], states[n]);
      OrphanStep(maxRetries, states[n - 1], steps[n - 1], states[n]);
    } else {
      assert Orphans(states[0]) == {};
    }
    if |Orphans(states[n])| == 0 && !states[n].worker.Handling? && states[n].replayer == Quiet {
      NoOrphansNoLoss(maxRetries, states[n]);
    }
  }

  lemma NoOrphansNoLoss(maxRetries: nat, s: Sys)
    requires Inv(maxRetries, s) && !s.worker.Handling? && s.replayer == Quiet && |Orphans(s)| == 0
    ensures s.dead.Keys == set id | id in s.outbox && s.outbox[id].status == DeadLetter
  {
    forall id | id in s.outbox
      ensures s.outbox[id].status == DeadLetter <==> id in s.dead
    {
      assert RowOk(maxRetries, s, id);
      assert id !in Orphans(s);
    }
  }

  // ---- recovery, interrupted any number of times ----

  predicate IsRecoveryStep(step: Step) {
    step.Crash? || step.Restart? || step.RecoverOne? || step.RecoveryDone?
  }

  lemma RecoveryStepTarget(maxRetries: nat, s: Sys, step: Step, s': Sys)
    requires Inv(maxRetries, s) && Next(maxRetries, s, step, s') && IsRecoveryStep(step)
    ensures Recovered(s'.outbox) == Recovered(s.outbox)
  {
    if step == RecoverOne {
      var id := s.worker.todo[0].id;
      assert id in s.outbox && InFlight(s.outbox[id]);
    }
  }

  lemma {:induction false} RecoveryTarget(maxRetries: nat, states: seq<Sys>, steps: seq<Step>, n: nat)
    requires IsRun(maxRetries, states, steps) && Inv(maxRetries, states[0]) && n <= |steps|
    requires forall i :: 0 <= i < |steps| ==> IsRecoveryStep(steps[i])
    ensures Recovered(states[n].outbox) == Recovered(states[0].outbox)
    decreases n
  {
    if n > 0 {
      RecoveryTarget(maxRetries, states, steps, n - 1);
      RunKeepsInv(maxRetries, states, steps, n - 1);
      assert Next(maxRetries, states[n - 1], steps[n - 1], states[n]);
      RecoveryStepTarget(maxRetries, states[n - 1], steps[n - 1], states[n]);
    }
  }

  lemma RecoveryEnds(maxRetries: nat, states: seq<Sys>, steps: seq<Step>)
    requires IsRun(maxRetries, states, steps) && Reachable(maxRetries, states[0])
    requires forall i :: 0 <= i < |steps| ==> IsRecoveryStep(steps[i])
    requires |steps| > 0 && steps[|steps| - 1] == RecoveryDone
    ensures states[|steps|].outbox == Recovered(states[0].outbox)
  {
    ReachableInv(maxRetries, states[0]);
    var n := |steps| - 1;
    RecoveryTarget(maxRetries, states, steps, n);
    RunKeepsInv(maxRetries, states, steps, n);
    assert Next(maxRetries, states[n], steps[n], states[n + 1]);
    var t := states[n].outbox;
    forall id | id in t ensures !InFlight(t[id]) {
      assert RowOk(maxRetries, states[n], id);
    }
    assert Recovered(t) == t;
  }

  lemma RecoveredMeans(t: Table)
    ensures Recovered(t).Keys == t.Keys
    ensures forall id :: id in t ==>
              var e := t[id];
              Recovered(t)[id] ==
              if e.status == Sending || e.status == Retrying then e.(status := Pending, lastError := None) else e
  {
  }

  /** However often recovery is cut short and restarted, when it finishes the outbox is the
      one an undisturbed recovery of the original outbox gives: nothing in flight, every
      retry count, payload and untouched row as before. */
  lemma InterruptedRecovery(maxRetries: nat, states: seq<Sys>, steps: seq<Step>)
    requires IsRun(maxRetries, states, steps) && Reachable(maxRetries, states[0])
    requires forall i :: 0 <= i < |steps| ==> IsRecoveryStep(steps[i])
    requires |steps| > 0 && steps[|steps| - 1] == RecoveryDone
    ensures states[|steps|].outbox == Recovered(states[0].outbox)
    ensures states[|steps|].outbox.Keys == states[0].outbox.Keys
    ensures forall id :: id in states[0].outbox ==>
              var e := states[0].outbox[id];
              states[|steps|].outbox[id] ==
              if e.status == Sending || e.status == Retrying then e.(status := Pending, lastError := None) else e
  {
    RecoveryEnds(maxRetries, states, steps);
    RecoveredMeans(states[0].outbox);
  }

  // ---- recovery among inserts and replays of other processes ----

  /** What recovery makes of a row that no replay can touch. */
  ghost predicate SameTarget(t: Table, t': Table, id: Id)
    requires id in t
  {
    && id in t' && t'[id].status != DeadLetter
    && Recovered(t')[id] == Recovered(t)[id]
  }

  lemma OthersKeepTarget(maxRetries: nat, s: Sys, step: Step, s': Sys, id: Id)
    requires Inv(maxRetries, s) && Next(maxRetries, s, step, s') && !IsWorkerStep(step)
    requires id in s.outbox && s.outbox[id].status != DeadLetter
    ensures SameTarget(s.outbox, s'.outbox, id)
  {
    assert RowOk(maxRetries, s, id);
    if step == RecoverOne { assert InFlight(s.outbox[s.worker.todo[0].id]); }
  }

  lemma {:induction false} TargetAmongWriters(
      maxRetries: nat, states: seq<Sys>, steps: seq<Step>, n: nat, id: Id)
    requires IsRun(maxRetries, states, steps) && Inv(maxRetries, states[0]) && n <= |steps|
    requires forall i :: 0 <= i < |steps| ==> !IsWorkerStep(steps[i])
    requires id in states[0].outbox && states[0].outbox[id].status != DeadLetter
    ensures SameTarget(states[0].outbox, states[n].outbox, id)
    decreases n
  {
    if n > 0 {
      TargetAmongWriters(maxRetries, states, steps, n - 1, id);
      RunKeepsInv(maxRetries, states, steps, n - 1);
      assert Next(maxRetries, states[n - 1], steps[n - 1], states[n]);
      OthersKeepTarget(maxRetries, states[n - 1], steps[n - 1], states[n], id);
    }
  }

  /** While other processes insert and replay, recovery still ends with nothing in flight and
      with every message that was not dead-lettered as an undisturbed recovery leaves it. */
  lemma RecoveryAmongWriters(maxRetries: nat, states: seq<Sys>, steps: seq<Step>, id: Id)
    requires IsRun(maxRetries, states, steps) && Reachable(maxRetries, states[0])
    requires forall i :: 0 <= i < |steps| ==> !IsWorkerStep(steps[i])
    requires |steps| > 0 && steps[|steps| - 1] == RecoveryDone
    requires id in states[0].outbox && states[0].outbox[id].status != DeadLetter
    ensures id in states[|steps|].outbox && states[|steps|].outbox[id] == Recovered(states[0].outbox)[id]
    ensures forall k :: k in states[|steps|].outbox ==>
              states[|steps|].outbox[k].status != Sending && states[|steps|].outbox[k].status != Retrying
  {
    ReachableInv(maxRetries, states[0]);
    var n := |steps| - 1;
    TargetAmongWriters(maxRetries, states, steps, n, id);
    RunKeepsInv(maxRetries, states, steps, n);
    assert Next(maxRetries, states[n], steps[n], states[n + 1]);
    var t := states[n].outbox;
    forall k | k in t ensures !InFlight(t[k]) {
      assert RowOk(maxRetries, states[n], k);
    }
  }

  // ---- the converse of the dead-letter mirror fails: a crash between two writes ----

  /** A step orphans a message exactly when it cuts off the second of two such writes. */
  lemma CrashOrphansExactly(maxRetries: nat, s: Sys, step: Step, id: Id)
    requires Reachable(maxRetries, s) && Enabled(maxRetries, s, step) && !Orphan(s, id)
    ensures Orphan(Apply(maxRetries, s, step), id) <==> Cuts(s, step, id)
  {
    ReachableInv(maxRetries, s);
    OrphanStepExactly(maxRetries, s, step, Apply(maxRetries, s, step), id);
  }

  ghost predicate CutAt(states: seq<Sys>, steps: seq<Step>, k: nat, id: Id)
    requires k < |steps| < |states|
  {
    Cuts(states[k], steps[k], id)
  }

  /** Over a whole run: a message is orphaned if and only if a crash came between the two
      writes of its dead-lettering, or the end of a replay between the two of that. */
  lemma {:induction false} OrphanedExactly(maxRetries: nat, states: seq<Sys>, steps: seq<Step>, n: nat, id: Id)
    requires IsRun(maxRetries, states, steps) && states[0] == Initial() && n <= |steps|
    ensures Orphan(states[n], id) <==> exists k :: 0 <= k < n && CutAt(states, steps, k, id)
    decreases n
  {
    if n > 0 {
      OrphanedExactly(maxRetries, states, steps, n - 1, id);
      InvInitially(maxRetries);
      RunKeepsInv(maxRetries, states, steps, n - 1);
      assert Next(maxRetries, states[n - 1], steps[n - 1], states[n]);
      OrphanStepExactly(maxRetries, states[n - 1], steps[n - 1], states[n], id);
      assert Orphan(states[n], id) <==> Orphan(states[n - 1], id) || CutAt(states, steps, n - 1, id);
    }
  }

  lemma LeadsReflexive(maxRetries: nat, s: Sys)
    ensures Leads(maxRetries, s, s)
  {
    var none: seq<Step> := [];
    assert IsRun(maxRetries, [s], none);
    assert [s][|none|] == s;
  }

  lemma RunGrows(maxRetries: nat, states: seq<Sys>, steps: seq<Step>, step: Step)
    requires IsRun(maxRetries, states, steps) && Enabled(maxRetries, states[|steps|], step)
    ensures IsRun(maxRetries, states + [Apply(maxRetries, states[|steps|], step)], steps + [step])
  {
    var states', steps' := states + [Apply(maxRetries, states[|steps|], step)], steps + [step];
    forall i | 0 <= i < |steps'| ensures Next(maxRetries, states'[i], steps'[i], states'[i + 1]) {
      if i < |steps| { assert Next(maxRetries, states[i], steps[i], states[i + 1]); }
    }
  }

  lemma LeadsNext(maxRetries: nat, from: Sys, s: Sys, step: Step)
    requires Leads(maxRetries, from, s) && Enabled(maxRetries, s, step)
    ensures Leads(maxRetries, from, Apply(maxRetries, s, step))
  {
    var states, steps :| IsRun(maxRetries, states, steps) && states[0] == from && states[|steps|] == s;
    RunGrows(maxRetries, states, steps, step);
    assert (states + [Apply(maxRetries, s, step)])[|steps + [step]|] == Apply(maxRetries, s, step);
  }

  ghost function Fetched(e: Entry): Sys {
    Sys(map[e.id := e], map[], Ready([e]), Quiet, map[e.id := 0], map[e.id := 0], {}, 0, 0)
  }

  lemma FetchedIsReachable(id: Id, e: Entry)
    requires e == NewEntry(id, "", "", 0)
    ensures Reachable(1, Fetched(e))
  {
    LeadsReflexive(1, Initial());
    LeadsNext(1, Initial(), Initial(), Insert(id, "", "", 0));
    var s := Fetched(e).(worker := Ready([]));
    assert Apply(1, Initial(), Insert(id, "", "", 0)) == s;
    assert IsFetch(s.outbox, PendingRows, 1, [e]) by {
      assert BatchIds([e]) == {id} by { assert [e][0].id == id; }
      assert Selected(s.outbox, PendingRows) == {id};
    }
    LeadsNext(1, Initial(), s, Fetch(PendingRows, 1, [e]));
  }

  lemma FetchedCanBeBuried(e: Entry, error: string) returns (s: Sys)
    requires Reachable(1, Fetched(e)) && e.retryCount == 0
    ensures Reachable(1, s) && s.worker == Handling(e, Buried(error), []) && s.crashes == 0
  {
    s := Fetched(e);
    LeadsNext(1, Initial(), s, MarkSending);
    s := Apply(1, s, MarkSending);
    LeadsNext(1, Initial(), s, HandOff);
    s := Apply(1, s, HandOff);
    LeadsNext(1, Initial(), s, SendErr(error));
    s := Apply(1, s, SendErr(error));
    LeadsNext(1, Initial(), s, MarkDead);
    s := Apply(1, s, MarkDead);
  }

  /** Such a state is reached: one insert, one failed send with max_retries = 1, and a crash
      right after `dead_letter` is written leave a message that can never be replayed. */
  lemma CrashCanOrphan(id: Id) returns (s: Sys)
    ensures Reachable(1, s) && s.crashes == 1 && Orphan(s, id)
  {
    var e := NewEntry(id, "", "", 0);
    FetchedIsReachable(id, e);
    var b := FetchedCanBeBuried(e, "");
    CrashOrphansExactly(1, b, Crash, id);
    LeadsNext(1, Initial(), b, Crash);
    s := Apply(1, b, Crash);
  }
}
