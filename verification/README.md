# magiclaw: verified core

magiclaw is a message hub: messages from several chat platforms enter through per-route
workers that restore their order, answers and pushes leave through an outbox with retries
and a dead-letter table, and every notable action is appended to a hash-chained audit log.
This project models the parts on which its promises rest and proves those promises in
Dafny, for every input, every run and every interleaving.

`dafny verify dfyconfig.toml` checks everything.

| file | what it holds |
|---|---|
| `Wrappers.dfy`, `Prelude.dfy` | options and results, fixed-width integers, shared small facts |
| `Backoff.dfy` | the retry delay: saturating 64-bit code against the formula over unbounded integers |
| `Outbox.dfy` | the two tables, each SQL statement as a function, the repository methods on a shared `Db` |
| `Delivery.dfy` | the delivery protocol, one write per step, with crashes between any two writes |
| `OutboxWorker.dfy` | the worker loop as the source runs it, and its refinement to protocol runs |
| `Progress.dfy` | draining and fairness of the worker |
| `AuditChain.dfy` | hashing, verification and what the head of the chain commits to |
| `ConnectionPool.dfy` | the mutex-and-condition-variable checkout of database connections |
| `ConcurrentAudit.dfy` | concurrent audit writers over that pool |
| `CircuitBreaker.dfy` | breaker and gate, sequential and interleaved |
| `Reorder.dfy`, `RouteWorker.dfy`, `ReleaseOrder.dfy` | the reorder window, the per-route worker, and release order |
| `Utf8.dfy`, `TextForms.dfy`, `Framing.dfy` | UTF-8 text, and the Content-Length stream: writer, reader, round trip |
| `Pkcs7.dfy` | block encryption with padding, in place on a buffer |
| `Binding.dfy`, `PushJob.dfy` | delivery targets, bindings, and the fan-out of push jobs |

## How the model is built

- Tables are maps from primary key to row. A `SELECT ... ORDER BY ... LIMIT` may break ties
  in any way (`Outbox.IsFetch`), so the theorems hold for every order SQLite may choose.
- The delivery protocol has one step per durable write or per exchange with the sender. A
  crash is a step of its own and may come between any two others, also during recovery;
  other processes insert and replay at any time, also while the daemon is down.
  `OutboxWorker.TickIsRun`, `ReplayIsRun` and `RecoveryIsRun` show that the methods on the
  database object are runs of this protocol, write for write: the object keeps a journal of
  its writes and hand-offs for this purpose.
- Clocks, the sender's answers, insert failures and the outcome of each guarded operation
  are parameters over which every theorem quantifies. So are SHA-256 and AES: the first is
  any function into 32 bytes, the second any invertible map on 16-byte blocks. Statements
  about the audit chain assume no injectivity; they hold short of a collision between two
  rows of the very logs in question.
- Fixed-width arithmetic is written out wherever the source relies on it: saturation, casts
  between `u64` and `i64`, the cap of `usize`.

## Where code and comments differ, or a wished-for property fails

The model follows the code.

- The comment at `src/adapters/sqlite_audit.rs:32-35` says that reading the head and
  inserting on one pooled connection serialises audit writers. With two or more connections
  it does not: `ConcurrentAudit.TwoConnectionsFork` gives the interleaving, for every digest,
  and `SerialIffOneConnection` shows that, while reads succeed, the log is always accepted
  exactly when the pool has one connection. The default pool has at least four
  (`src/infrastructure/runtime.rs:206-214`). A failed read of the head is taken for an empty
  log and breaks the chain with one connection too (`FailedReadForks`); `AcceptedExactly` and
  `OneConnectionExactly` say of every run, with any failures, whether its log is accepted.
- A dead-lettered outbox row need not have a dead-letter row: a crash between the two writes
  of a dead-lettering, or the end of a replay between its two, leaves the message stuck for
  ever. `Delivery.CrashCanOrphan` reaches such a state, `OrphanedExactly` says of every run
  exactly which messages are stuck, and `OrphanBound` counts them.
- The reorder window keeps order between drains only: `ReleaseOrder.FlushBreaksOrder` shows,
  for every window and clock, two on-time messages leaving in the wrong order across a timer
  flush, and `OrderKeptExactly` says for every run exactly when order is kept.
- Target ids and hashed audit rows join their fields with `|` without escaping.
  `Binding.OwnsIdIffPipeFree` and `AuditChain.IdentifiedIffPlain` say exactly when the joined
  form determines the fields. The binding check of targeted pushes compares joined ids:
  `PushJob.PipedTargetSlipsThrough` shows an unbound target passing it, and
  `GuardedIffCutsOneWay` says exactly which targets cannot.
- A second run of a push job adds nothing only if the first got through, which it does
  exactly when every item update succeeds. An item whose update fails stays pending with its
  rows already in the outbox: `PushJob.WrittenTwiceExactly` says exactly which rows the next
  run writes again.

## Model

| member | source | states |
|---|---|---|
| `Backoff.NextDelayIsIdeal` | src/infrastructure/storage/outbox.rs:92-102 | For every u32 attempt, base, cap and jitter (also negative or above 1) the saturating code equals the formula over unbounded integers. |
| `Backoff.DelaySpelledOut` | src/infrastructure/storage/outbox.rs:92-102 | Up to the cap the delay is base * 2^n plus 7n modulo the floor of jitter times that, if positive, cut off at the cap. |
| `Backoff.DelayWithoutJitter` | src/infrastructure/storage/outbox.rs:92-102 | Without jitter the delay is base * 2^n as long as that is within the cap, and the cap from there on. |
| `Backoff.DelayAtCap` | src/infrastructure/storage/outbox.rs:92-102 | Once base * 2^n reaches the cap the delay is the cap, whatever the jitter. |
| `Backoff.DelayWithinBounds` | src/infrastructure/storage/outbox.rs:92-102 | The delay lies between min(base * 2^n, max) and max. |
| `Backoff.DelayMonotone` | src/infrastructure/storage/outbox.rs:92-102 | A later attempt never waits less, for every jitter, in spite of the remainder that makes up the jitter. |
| `Backoff.JitterStepFits` | src/infrastructure/storage/outbox.rs:97-101 | Doubling the base leaves room for the previous attempt's jitter, including the few small attempts whose jitter exceeds their base. |
| `Outbox.Select` | src/adapters/sqlite_outbox.rs:70-92 | The limited, sorted select returns distinct current rows that match, in rank order, none ranked after a row left out, and all of them when below the limit. |
| `Outbox.PendingFetchMeans` | src/adapters/sqlite_outbox.rs:70-76 | Pending rows only, oldest first; a pending row is left out only by a full batch of rows no newer. |
| `Outbox.RetryableFetchMeans` | src/adapters/sqlite_outbox.rs:78-84 | Retrying rows due by now only, earliest first; a due row is left out only by a full batch of rows due no later. |
| `Outbox.InFlightFetchMeans` | src/adapters/sqlite_outbox.rs:86-92 | Exactly the sending and retrying rows, oldest first. |
| `Outbox.Db.Insert` | src/adapters/sqlite_outbox.rs:38-48 | An existing id is left untouched; otherwise exactly that row is added. |
| `Outbox.Db.MarkStatus` | src/adapters/sqlite_outbox.rs:50-58 | Only status and last error of that row change; retry count and due time stay. |
| `Outbox.Db.MarkRetrying` | src/adapters/sqlite_outbox.rs:60-68 | Status, counter, due time and error of that row change, nothing else. |
| `Outbox.Db.Fetch` | src/adapters/sqlite_outbox.rs:70-92 | The three repository reads are such selects and change nothing. |
| `Outbox.Db.InsertDead` | src/adapters/sqlite_dead_letter.rs:17-26 | A key conflict is reported and changes nothing; otherwise the row is added. |
| `Outbox.Db.Replay` | src/adapters/sqlite_dead_letter.rs:44-88 | Fails without effect exactly when no dead-letter row exists. Otherwise two writes in this order: the dead-letter row goes; the outbox row gets status pending, counter 0, no due time, no error and the stored payload, keeping route key and creation time, or a stand-in is inserted. The answer is a new entry with that route key and payload. |
| `Outbox.Db.RecoverAfterCrash` | src/application/crash_recovery.rs:6-25 | The loop resets, one write per row, exactly the sending and retrying rows to pending without error, keeps everything else of every row, and returns how many there were. |
| `Outbox.ResetRowsIsRecovered` | src/application/crash_recovery.rs:6-25 | Marking the listed rows one by one equals the pointwise recovery of the whole table. |
| `Delivery.StepKeepsInv` | src/application/outbox_worker.rs:33-84 | Every single write, send outcome, replay write, crash, cut replay and recovery write, in any order and with inserts and replays also while the daemon is down, keeps the joint invariant of both tables and the two program counters. |
| `Delivery.ReachableInv` | src/application/outbox_worker.rs:17-155 | The invariant holds in every reachable state. |
| `Delivery.TablesAgree` | src/adapters/sqlite_dead_letter.rs:17-88 | In every reachable state each dead-letter row has an outbox row in dead_letter with the same payload and error and a counter one below its attempt number; the dead-letter insert never meets its key; replay always finds its row with the payload it writes back. |
| `Delivery.RunKeepsMessage` | src/adapters/sqlite_outbox.rs:38-68 | Over any stretch of any run no id disappears, route key, payload and creation time never change, a sent row never changes again, and an orphaned row stays orphaned. |
| `Delivery.AckedIsAccepted` | src/application/outbox_worker.rs:39-46 | The accepted ids are exactly those for which the trace holds a send that returned Ok. |
| `Delivery.SentWasAccepted` | src/application/outbox_worker.rs:39-46 | A row is sent only if an earlier step of the run was the sender returning Ok for that message. |
| `Delivery.HistoryIsTrace` | src/application/outbox_worker.rs:33-84 | The hand-off and crash counters of the model equal the numbers counted on the trace since the last insert or replay. |
| `Delivery.AttemptBudget` | src/application/outbox_worker.rs:47-81 | Since its insert or last replay a message is handed over at most max(1, max_retries) + crashes times, and its stored counter stays below max(1, max_retries). |
| `Delivery.DeadOnlyAfterAllAttempts` | src/application/outbox_worker.rs:47-61 | In every run a message is in dead_letter only after at least max(1, max_retries) hand-offs since its insert or last replay, exactly that many if no crash came since, and its dead-letter row names that number. |
| `Delivery.StatusShowsVerdict` | src/application/outbox_worker.rs:39-81 | In every run, with the last answer of the sender since insert, replay or recovery read off the trace: sent rows were last accepted, retrying and dead-lettered rows last refused with the very error they carry, pending rows not answered, and only the refused carry an error. |
| `Delivery.ContentIsInserted` | src/adapters/sqlite_outbox.rs:38-48 | Route key, payload and creation time of every row are the arguments of the insert step that first put its id into the outbox. |
| `Delivery.ReplayedIsNew` | src/adapters/sqlite_dead_letter.rs:57-73 | In every reachable state the second write of a replay leaves the row exactly as it was first inserted, and every other row alone. |
| `Delivery.OrphanBound` | src/application/outbox_worker.rs:51-61 | At most one orphaned row per crash or cut replay; with none, and nobody at work, the rows in dead_letter are exactly the dead-letter rows. |
| `Delivery.CrashOrphansExactly` | src/adapters/sqlite_dead_letter.rs:57-73 | Of all steps, only a crash between the two writes of a dead-lettering and the end of a replay between its two writes orphan a message, and these always do. |
| `Delivery.OrphanedExactly` | src/application/outbox_worker.rs:51-61 | Over every run: after n steps a message is orphaned if and only if one of these steps was such a crash or such an end of a replay for it. |
| `Delivery.CrashCanOrphan` | src/application/outbox_worker.rs:51-61 | Such a state is reachable with one message, one failed send and one crash. |
| `Delivery.RecoveryTarget` | src/application/crash_recovery.rs:6-25 | No crash, restart or recovery write changes the outbox that recovery is heading for. |
| `Delivery.InterruptedRecovery` | src/application/crash_recovery.rs:6-25 | However often recovery is cut short and restarted, it ends with the outbox an undisturbed recovery gives: nothing in flight, every counter unchanged. |
| `Delivery.RecoveryAmongWriters` | src/application/crash_recovery.rs:6-25 | While other processes insert and replay, recovery still ends with nothing in flight and every message that was not dead-lettered as an undisturbed recovery leaves it. |
| `OutboxWorker.HandleEntry` | src/application/outbox_worker.rs:33-84 | One loop iteration, write by write: mark sending, hand over, then sent, dead-lettered and filed, or rescheduled with the computed delay; the tables after each write and the place of the hand-off among them. |
| `OutboxWorker.RetryDueExactly` | src/application/outbox_worker.rs:71 | A refused message with attempts left is due exactly the computed delay after the refusal if that delay fits i64, and otherwise at once; so it is due no earlier than the capped delay if and only if the delay is below 2^63. |
| `OutboxWorker.NoEarlyRetry` | src/application/outbox_worker.rs:70-81 | With max_backoff below 2^63 no message is due before the capped delay of its attempt has passed. |
| `OutboxWorker.HandleEntries` | src/application/outbox_worker.rs:105-154 | The loop over a batch is the sequence of those iterations. |
| `OutboxWorker.ProcessPending` | src/application/outbox_worker.rs:17-85 | Fetches pending rows and handles exactly these; a failed fetch skips the pass. |
| `OutboxWorker.ProcessRetries` | src/application/outbox_worker.rs:88-155 | Fetches due retrying rows and handles exactly these; a failed fetch skips the pass. |
| `OutboxWorker.RunTick` | src/application/outbox_worker.rs:158-173 | One turn of the loop is a tick: the retry fetch sees what the pending pass left; so every store has a tick, for any clock, batch size, failing fetches and answers of the sender. |
| `OutboxWorker.BatchEffect` | src/application/outbox_worker.rs:33-84 | After a batch every handled row is the outcome of its own reply alone and every other row is untouched. |
| `OutboxWorker.HandleIsPath` | src/application/outbox_worker.rs:33-84 | Each iteration of the sequential worker is a path of the single-write protocol with the same writes and hand-off in the same order. |
| `OutboxWorker.TickIsRun` | src/application/outbox_worker.rs:158-173 | From the end of any protocol run that shows some journal, every tick extends it to a run that shows the same journal and then the writes and hand-offs of the tick in their order, so all theorems about runs apply to the worker methods at every moment. |
| `OutboxWorker.ReplayIsRun` | src/adapters/sqlite_dead_letter.rs:44-88 | A replay extends such a run by its two writes. |
| `OutboxWorker.RecoveryIsRun` | src/application/crash_recovery.rs:6-25 | Recovery extends such a run by its row by row writes and ends idle with the recovered tables. |
| `Progress.IdleIsSettled` | src/application/outbox_worker.rs:158-173 | Every reachable idle state has no sending row, due times on all retrying rows and counters below the cap. |
| `Progress.TickCost` | src/application/outbox_worker.rs:17-155 | The summed remaining attempts fall by at least one for every message a tick hands over. |
| `Progress.TickFetches` | src/adapters/sqlite_outbox.rs:70-84 | With a positive batch size and fetches that succeed, a tick hands something over if and only if some row is pending, or retrying and due. |
| `Progress.Drains` | src/application/outbox_worker.rs:158-173 | For every clock and every sequence of ticks, failed fetches included: all ticks together hand over at most the summed budget, at most that many ticks find and fetch anything ripe, and once that many have, every row is sent or dead_letter. |
| `Progress.RipensInTime` | src/adapters/sqlite_outbox.rs:78-84 | An unfinished store has something ripe from the moment its last retry is due. |
| `Progress.DrainsInTime` | src/application/outbox_worker.rs:158-173 | From a store with no retry further ahead than one turn and the longest delay, with turns of at most `period`, fetches that succeed and a clock that does not run backwards, every row is sent or dead_letter once max_backoff + 2 * period has passed for each unit of the budget, however the delays fall. |
| `Progress.RecoveredIsDue` | src/application/crash_recovery.rs:6-25 | Recovery leaves no retry waiting, so the time bound holds from the first tick after it. |
| `Progress.BackoffIsKept` | src/application/outbox_worker.rs:70-81 | Over any sequence of ticks: a message refused at some time with attempts left is not handed over again by any tick before that time plus the capped delay of its attempt. |
| `Progress.PassedOver` | src/adapters/sqlite_outbox.rs:70-76 | A tick that passes over a pending row spends its whole batch on rows no newer. |
| `Progress.OldRowsAreServed` | src/adapters/sqlite_outbox.rs:70-84 | A pending row with k other pending rows no newer is handed over within floor(k / batch) + 1 ticks unless another no-newer row becomes pending. |
| `AuditChain.ToHex` | src/domain/services/audit_chain.rs:21-29 | Two lower-case digits per byte, high half first, in order. |
| `AuditChain.HexInjective` | src/domain/services/audit_chain.rs:21-29 | Different bytes have different hexadecimal forms. |
| `AuditChain.HexReadsBack` | src/domain/services/audit_chain.rs:21-29 | Every character is a digit or a letter a to f, and each pair read as a number is the byte it stands for. |
| `AuditChain.TimeReadsBack` | src/domain/services/audit_chain.rs:83 | The eight time bytes read as a big-endian two's complement number are the time. |
| `AuditChain.RowLayout` | src/domain/services/audit_chain.rs:74-84 | The hashed text of a row is link, route key, action and result in this order, each followed by byte 124, then the time bytes; a missing link or route key contributes nothing. |
| `AuditChain.AcceptedMeans` | src/domain/services/audit_chain.rs:89-126 | Acceptance and head in terms of the rows: no link on the first, the hash before on every other, each hash that of the row's text. |
| `AuditChain.FieldsInjective` | src/domain/services/audit_chain.rs:67-85 | For route keys and actions without a separator the hashed bytes determine all four fields, whatever the result and the time bytes contain. |
| `AuditChain.IdentifiedIffPlain` | src/domain/services/audit_chain.rs:67-85 | A tuple of fields is the only one with its hashed bytes if and only if route key, action and result hold no separator. |
| `AuditChain.Verify` | src/domain/services/audit_chain.rs:89-126 | Accepts exactly the logs whose every row links and hashes correctly, returns the last hash, and otherwise reports the error of the first bad row, link before hash. |
| `AuditChain.HeadCommits` | src/domain/services/audit_chain.rs:89-126 | Short of a collision between their rows, two accepted logs have the same head if and only if they have the same length and the same hashed bytes row by row. |
| `AuditChain.HeadCommitsToFields` | src/domain/services/audit_chain.rs:67-126 | For two separator-free logs the same head means the same fields in every row, a NULL route key counting as empty; the results may hold any separator. |
| `AuditChain.HeadFixesFieldsIffPlain` | src/domain/services/audit_chain.rs:67-126 | Against every accepted log whatsoever, short of a collision: the head of a log fixes all fields of all its rows if and only if no route key, action or result in it holds a separator. |
| `AuditChain.HashesDistinct` | src/domain/services/audit_chain.rs:89-126 | Short of a collision all entry hashes of an accepted log are distinct, by descent to the genesis row. |
| `AuditChain.RearrangedIsPrefix` | src/domain/services/audit_chain.rs:89-126 | Any accepted list built from the rows of an accepted log, by deletion, reordering or repetition, is a prefix of it. |
| `AuditChain.RecordKeepsAccepted` | src/adapters/sqlite_audit.rs:25-69 | Appending the row that record computes from the current head keeps the log accepted. |
| `AuditChain.AppendAcceptedExactly` | src/domain/services/audit_chain.rs:89-126 | A log extended by a row that hashes to its own hash is accepted if and only if the log was and the row links to its head. |
| `AuditChain.AuditLog.Record` | src/adapters/sqlite_audit.rs:25-69 | Appends a row with the given fields, the next id, the link it read, none when the read fails, and the hash of its text; nothing when the insert fails. The log is accepted afterwards if and only if it was before and no failed read was followed by an insert into a log with rows. |
| `AuditChain.AuditLog.VerifyChain` | src/adapters/sqlite_audit.rs:78-109 | A storage error is reported as a head mismatch at id 0; otherwise succeeds exactly on accepted logs, with the last hash, and names the first bad row if not. |
| `ConnectionPool.StepKeepsPartition` | src/infrastructure/db.rs:68-89 | Every checkout, wake-up and return keeps free and held connections a partition of the initial set, each held once. |
| `ConnectionPool.StepKeepsWakeups` | src/infrastructure/db.rs:68-89 | No step loses a wake-up, spurious ones included. |
| `ConnectionPool.EveryInterleaving` | src/infrastructure/db.rs:68-89 | In every interleaving of any number of threads both hold: the partition, and free connections never outnumber woken threads while someone sleeps un-notified. |
| `ConnectionPool.FirstInFirstOut` | src/infrastructure/db.rs:68-89 | In every interleaving the connections handed out followed by the free ones are the initial ones followed by those given back, in order. |
| `ConnectionPool.WaiterHasHelp` | src/infrastructure/db.rs:68-89 | A sleeping thread always has a holder or a woken thread still to act: no deadlock. |
| `ConnectionPool.EveryoneIsServed` | src/infrastructure/db.rs:68-89 | Once nobody arrives, a bounded number of steps remain, plus two for each spurious wake-up, and when none is left every thread has had its connection and gone. |
| `ConcurrentAudit.OneConnectionSerialises` | src/adapters/sqlite_audit.rs:25-69 | With one connection every interleaving of record calls in which no read fails keeps the log accepted and every head that was read current until used. |
| `ConcurrentAudit.AcceptedExactly` | src/adapters/sqlite_audit.rs:25-69 | For any pool, any interleaving and any failures: the log is accepted if and only if no row was inserted on a head other than that of the log at that moment. |
| `ConcurrentAudit.OneConnectionExactly` | src/adapters/sqlite_audit.rs:36-64 | With one connection, in every interleaving and with any failures: the log is accepted if and only if no row without a link was inserted into a log with rows, which takes a failed read. |
| `ConcurrentAudit.FailedReadForks` | src/adapters/sqlite_audit.rs:36-42 | One thread on one connection: a record, then a record whose read fails, and the log is rejected, for every digest. |
| `ConcurrentAudit.TwoConnectionsFork` | src/adapters/sqlite_audit.rs:31-64 | With two connections and two threads some interleaving without any failure writes a log that verification rejects, for every digest. |
| `ConcurrentAudit.SerialIffOneConnection` | src/infrastructure/runtime.rs:206-214 | With at least two recording threads the log is accepted in every run without a failed read if and only if the pool has exactly one connection. |
| `CircuitBreaker.CircuitBreaker.AllowRequest` | src/core/resilience/circuit_breaker.rs:54-97 | The new fields and the answer in each state, including the open to half-open and the exhausted half-open to open transitions. |
| `CircuitBreaker.CircuitBreaker.RecordSuccess` | src/core/resilience/circuit_breaker.rs:100-107 | The counter is cleared and half-open closes; the opening time stays. |
| `CircuitBreaker.CircuitBreaker.RecordFailure` | src/core/resilience/circuit_breaker.rs:110-128 | The counter grows and a closed breaker at its threshold opens now. |
| `CircuitBreaker.ResilienceGate.Execute` | src/core/resilience/gate.rs:46-71 | The operation runs only when admitted and given a permit, exactly then its outcome is recorded and returned, and otherwise the answer is the message of the guard that refused. |
| `CircuitBreaker.ActKeepsInv` | src/core/resilience/circuit_breaker.rs:54-128 | Every atomic action of concurrent callers keeps the timing invariant over all past openings and admissions. |
| `CircuitBreaker.NoAdmissionWhileOpen` | src/core/resilience/circuit_breaker.rs:54-128 | In every interleaving nothing is admitted within the timeout of any earlier opening. |
| `CircuitBreaker.NeverStuck` | src/core/resilience/circuit_breaker.rs:54-97 | From every reachable state, of two checks each a timeout later than what came before, one admits. |
| `CircuitBreaker.ExhaustedReverts` | src/core/resilience/circuit_breaker.rs:72-95 | In every reachable state an exhausted half-open breaker reverts to open at the very next check, whenever that is. |
| `CircuitBreaker.LoadBound` | src/core/resilience/gate.rs:46-71 | Called through the gate one after another, a dependency that always fails is called at most max(1, threshold) + max(1, half_open_max) * floor(T / timeout) times within T of the start. |
| `CircuitBreaker.LoadUnderConcurrency` | src/core/resilience/gate.rs:46-71 | In every interleaving of at most `callers` calls at once, withdrawn ones included, it is called at most (max(1, threshold) + callers - 1) + (max(1, half_open_max) + callers - 1) * floor(T / timeout) times. |
| `CircuitBreaker.CounterStaysSmall` | src/core/resilience/circuit_breaker.rs:110-128 | For sequential callers with any outcomes the failure counter stays within the configuration, and a closed breaker is below its threshold. |
| `CircuitBreaker.CounterUnderConcurrency` | src/core/resilience/circuit_breaker.rs:100-128 | In every interleaving of at most `callers` calls at once, with any outcomes, the counter stays below max(1, threshold, half_open_max) + callers, so it cannot wrap. |
| `CircuitBreaker.StaysClosed` | src/core/resilience/circuit_breaker.rs:100-128 | As long as, at every moment, fewer calls than max(1, threshold) have failed since the last success, the breaker stays closed with exactly that count and every call with a permit runs. |
| `CircuitBreaker.OpensAtThreshold` | src/core/resilience/circuit_breaker.rs:110-128 | The failure that brings that count to max(1, threshold) opens it, at the end of that call. |
| `CircuitBreaker.OpenRefuses` | src/core/resilience/circuit_breaker.rs:57-71 | Until the timeout has passed, every call is refused and nothing changes. |
| `CircuitBreaker.ProbesRun` | src/core/resilience/circuit_breaker.rs:57-95 | From the timeout on, the first max(1, half_open_max) failing calls all run. |
| `CircuitBreaker.ProbesExhaust` | src/core/resilience/circuit_breaker.rs:72-95 | The call after them is refused and opens the breaker anew at its own time. |
| `CircuitBreaker.SuccessCloses` | src/core/resilience/circuit_breaker.rs:100-107 | A success among those probes closes the breaker with a clean count. |
| `Reorder.ReorderWindow.Insert` | src/domain/services/reorder_window.rs:32-50 | Files the message under its key, advances the latest arrival, returns all messages up to the cutoff in key order and keeps exactly those above it. |
| `Reorder.ReorderWindow.FlushAll` | src/domain/services/reorder_window.rs:60-64 | Returns everything in key order and leaves nothing. |
| `Reorder.RemoveAll` | src/domain/services/reorder_window.rs:45-47 | Removing the released messages by their keys leaves exactly the part above the cutoff. |
| `Reorder.ListedByKey` | src/domain/services/reorder_window.rs:39-43 | The list in key order holds, place by place, the value of the sorted keys. |
| `Reorder.BagReplace` | src/domain/services/reorder_window.rs:32-35 | Filing under an occupied key loses the previous occupant and nothing else. |
| `Reorder.BagCut` | src/domain/services/reorder_window.rs:37-49 | The released and the kept part make up the buffer, as multisets. |
| `RouteWorker.RunWorker` | src/adapters/conversation_store.rs:85-205 | The event loop processes, logs and keeps the messages that the run over its events says. |
| `RouteWorker.Conservation` | src/adapters/conversation_store.rs:89-204 | Received = processed + buffered + displaced + logged at close, as multisets, after every prefix of every event sequence, whatever stands for the messages. |
| `RouteWorker.ArrivalsConserved` | src/adapters/conversation_store.rs:89-204 | Taken by arrival position: every arrival of a live worker is in exactly one of the four places, once. |
| `RouteWorker.BufferClosedForm` | src/domain/services/reorder_window.rs:32-64 | An arrival is buffered if and only if no flush, no close and no arrival with its key came since and its key is above the cutoff. |
| `RouteWorker.DisplacedExactly` | src/domain/services/reorder_window.rs:32-35 | An arrival is displaced if and only if its key arrived again while it was buffered. |
| `RouteWorker.ProcessedExactly` | src/adapters/conversation_store.rs:89-204 | An arrival of a live worker has been processed if and only if it is neither waiting in the window nor displaced. |
| `RouteWorker.CloseLogs` | src/adapters/conversation_store.rs:139-156 | The first close logs exactly the waiting messages in key order, runs none of them, and empties the window. |
| `RouteWorker.ClosedForGood` | src/adapters/conversation_store.rs:139-156 | After a close no event changes anything. |
| `RouteWorker.RunNamed` | src/adapters/conversation_store.rs:85-205 | The run on messages is the run on arrival positions with each position replaced by its message. |
| `ReleaseOrder.OrderKeptExactly` | src/adapters/conversation_store.rs:89-204 | For every sequence of arrivals and timers: the on-time messages have gone through the pipeline in strictly increasing key order if and only if, of any two of them with a timer between their arrivals, the later has the larger key. |
| `ReleaseOrder.OnTimeReleasedInOrder` | src/domain/services/reorder_window.rs:32-50 | Between drains, whatever the arrival clock does, the on-time messages leave in strictly increasing key order. |
| `ReleaseOrder.WaitsExactly` | src/domain/services/reorder_window.rs:32-50 | Unless a timer or an equal key moved it, a message waits if and only if its sequence number, or timestamp if it has none, exceeds the latest arrival less the window (and the smallest i64); a window of 2^63 or more wraps around to one in the future. |
| `ReleaseOrder.LatestIsMax` | src/domain/services/reorder_window.rs:35 | The latest arrival is the largest arrival time so far, or 0. |
| `ReleaseOrder.OnTimeMeans` | src/domain/services/reorder_window.rs:37 | On time means later than the latest arrival before it less the window. |
| `ReleaseOrder.LateReleasedAtOnce` | src/domain/services/reorder_window.rs:32-50 | In every run a late message is the first one released by the call that inserted it, and no other late message leaves with it. |
| `ReleaseOrder.ReleasedIsProcessed` | src/adapters/conversation_store.rs:92-202 | What each arrival or timer releases from the window is what the worker runs through the pipeline next, in key order. |
| `ReleaseOrder.FlushBreaksOrder` | src/adapters/conversation_store.rs:160-202 | For every window, every clock and any two on-time messages of which the second has no larger key: a timer between them breaks the order. |
| `Utf8.ParseOfDecimal` | src/adapters/mcp/transport.rs:72-80 | Parsing a printed length gives the length, for every usize. |
| `Utf8.ParseExactly` | src/adapters/mcp/transport.rs:74 | What parses as a length: at most one plus sign, then one or more digits, with a value below 2^64. |
| `Utf8.ValidIffEncoded` | src/adapters/mcp/transport.rs:103-108 | Bytes pass as UTF-8 if and only if they are the encoding of some text. |
| `Utf8.TrimAround` | src/adapters/mcp/transport.rs:63-74 | Trimming removes exactly the ASCII white space around a text that starts and ends with visible ASCII. |
| `TextForms.TrimAgrees` | src/adapters/mcp/transport.rs:63-74 | On the encoding of any text, trimming bytes and trimming characters agree, for all Unicode white space. |
| `Framing.Reader.ReadLine` | src/adapters/mcp/transport.rs:57-61 | Takes the bytes up to and including the first newline, or all of them, and leaves the rest. |
| `Framing.Reader.SkipToBody` | src/adapters/mcp/transport.rs:87-99 | Skips header lines to the blank one, or reports end of input or a malformed line. |
| `Framing.Reader.ReadFramedOrJsonLine` | src/adapters/mcp/transport.rs:55-112 | On any bytes: the next payload and what is left unread, end of input, or the error, with blank and unrecognised lines skipped. |
| `Framing.StreamReadsBack` | src/adapters/mcp/transport.rs:55-112 | Any sequence of frames, bare JSON lines and lines to skip is read back as exactly its payloads in order, then end of input. |
| `Framing.HeaderParses` | src/adapters/mcp/transport.rs:116-135 | The header the writer prints is recognised with the length it was printed from. |
| `Framing.HeaderMeans` | src/adapters/mcp/transport.rs:72-80 | Only a line that begins with the name, in any case, and a colon announces a frame. |
| `Framing.HeaderInAnyCase` | src/adapters/mcp/transport.rs:72-80 | And every such line with a length, in any case and with any spaces around the number, does. |
| `Framing.FrameInBytes` | src/adapters/mcp/transport.rs:130 | The frame around the body of two braces, byte by byte. |
| `Framing.JsonInBytes` | src/adapters/mcp/transport.rs:68-70 | The same body on a line of its own is read as a payload. |
| `Framing.JunkInBytes` | src/adapters/mcp/transport.rs:64-66 | A blank line and an unknown one are skipped. |
| `Framing.WrittenFramesReadBack` | src/adapters/mcp/transport.rs:116-135 | The written frames of any list of UTF-8 bodies, empty ones and bodies with newlines included, are read back as that list, then end of input. |
| `Framing.CutFrame` | src/adapters/mcp/transport.rs:87-110 | A written frame cut short anywhere yields no payload. |
| `Framing.BadBody` | src/adapters/mcp/transport.rs:103-108 | A complete body that is not UTF-8 is an error. |
| `Framing.BadLine` | src/adapters/mcp/transport.rs:58 | A line that is not UTF-8 is an error. |
| `Pkcs7.TransformBlocks` | src/channels/wechat/ilink.rs:641-646 | The in-place chunk loop maps every 16-byte block and nothing else. |
| `Pkcs7.MapBlocksAt` | src/channels/wechat/ilink.rs:641-646 | Block k of the output is the cipher applied to block k of the input. |
| `Pkcs7.PadMeans` | src/channels/wechat/ilink.rs:634-639 | The plaintext followed by 16 - len % 16 bytes, each of that value. |
| `Pkcs7.Encrypt` | src/channels/wechat/ilink.rs:633-647 | The buffer method computes the block-wise encryption of the padded text. |
| `Pkcs7.StripPadding` | src/channels/wechat/ilink.rs:615-629 | The padding checks on the buffer accept exactly a run of n bytes n, 1 to 16, and cut it off. |
| `Pkcs7.Decrypt` | src/channels/wechat/ilink.rs:601-630 | The buffer method computes decryption with its error cases in the order of the source. |
| `Pkcs7.DecryptEncrypt` | src/channels/wechat/ilink.rs:601-647 | Decryption undoes encryption on every plaintext, and the ciphertext is 16 * (len / 16 + 1) bytes long. |
| `Pkcs7.EncryptDecrypt` | src/channels/wechat/ilink.rs:601-647 | Whatever decrypts to p is the encryption of p. |
| `Pkcs7.AcceptsExactlyCiphertexts` | src/channels/wechat/ilink.rs:601-647 | Decryption succeeds if and only if the input is the encryption of something. |
| `Pkcs7.DecryptErrors` | src/channels/wechat/ilink.rs:602-626 | Of inputs that are no ciphertext the empty one is reported as empty and every other as bad padding. |
| `Binding.IdDeterminesTuple` | src/application/binding.rs:25-34 | A tuple without pipes is determined by its id among all tuples, with or without pipes. |
| `Binding.IdSpelledOut` | src/application/binding.rs:25-34 | The order of the fields in the id, with a missing scope empty. |
| `Binding.PipedIdIsShared` | src/application/binding.rs:25-34 | A tuple with a pipe in any field shares its id with a different tuple. |
| `Binding.OwnsIdIffPipeFree` | src/application/binding.rs:25-34 | A tuple is the only one with its id if and only if no field holds a pipe. |
| `Binding.PairsComeFromRecords` | src/application/binding.rs:180-214 | Every stored binding was put there by an import record that was complete, met no key conflict, and had that project and target id. |
| `Binding.PlainRecordGoesThrough` | src/application/binding.rs:154-214 | With pipe-free project keys and a target id that can be cut up one way, a record goes through if and only if it is complete. |
| `Binding.TrimIsSolid` | src/application/binding.rs:77-86 | Trimming leaves nothing, or a text without white space at its ends, and leaves such a text alone. |
| `Binding.BoundIdIsBoundTuple` | src/application/binding.rs:154-214 | If the id of a target that can be cut up one way only is bound to a project, an accepted record bound this very tuple to it. |
| `Binding.SafeIffCutsOneWay` | src/application/binding.rs:25-34 | Whatever the records, a target whose id is bound was bound itself, if and only if its id can be cut at four pipes into four trimmed, non-empty fields and a scope in no other way. |
| `Binding.PipeFreeCutsOneWay` | src/application/binding.rs:25-34 | Targets without pipes meet that condition. |
| `Binding.PipeCanBeHarmless` | src/application/binding.rs:25-34 | And so does a target whose peer id is a single pipe. |
| `PushJob.FetchPendingItems` | src/application/push.rs:281-302 | The pending items of the job, each once, oldest first. |
| `PushJob.BroadcastTargets` | src/application/push.rs:209-233 | One target for each binding of the project whose target exists, each once. |
| `PushJob.AreBound` | src/application/push.rs:236-248 | Says whether every requested target's id is bound to the project. |
| `PushJob.PushStore.ApplyBindingRecord` | src/application/binding.rs:201-214 | Succeeds exactly when the record is complete and meets neither key conflict; adds exactly the trimmed pair on success and the target row if complete and new, and keeps everything else. |
| `PushJob.PushStore.EnqueueAll` | src/application/push.rs:250-271 | One outbox row per target whose insert succeeds, in order, and no other. |
| `PushJob.PushStore.ResolveItemTargets` | src/application/push.rs:319-348 | A broadcast resolves to the non-empty join, a targeted item to its own list exactly when that is readable, non-empty and wholly bound, anything else and a failed read to an error. |
| `PushJob.PushStore.HandleItem` | src/application/push.rs:372-421 | Adds exactly the rows of the resolved targets whose inserts succeed; a targeted item with any unbound target adds none. |
| `PushJob.PushStore.RunPushJob` | src/application/push.rs:351-442 | Succeeds if and only if every pending item's update does. Then total is the number of pending items, queued and failed those that end with that status, the outbox grows by exactly the reported number of rows, each from a pending item's resolved targets, and nothing is left pending; a failing update stops the job with that item unchanged and pending, and its rows written. |
| `PushJob.PushStore.HandleAll` | src/application/push.rs:366-421 | The loop handles the fetched items in turn up to the first whose update fails, with the store and counters after each. |
| `PushJob.FanOutComplete` | src/application/push.rs:373-384 | With no failing insert there is exactly one row per target, in order. |
| `PushJob.FanOutExactly` | src/application/push.rs:377-386 | For any failing inserts: one row for each insert that succeeds, for the target of that insert, in order. |
| `PushJob.WrittenIffInserted` | src/application/push.rs:377-386 | A row for a target is written if and only if an insert for it succeeds. |
| `PushJob.CountsAddUp` | src/application/push.rs:385-421 | Every item is counted once, as queued or as failed. |
| `PushJob.NothingLeft` | src/application/push.rs:304-316 | Marking the outcomes of all pending items leaves none pending. |
| `PushJob.MarkedStatus` | src/application/push.rs:387-415 | A handled item ends queued if a row was written for it and failed if none was, and otherwise as it was. |
| `PushJob.TargetedRowsWereBound` | src/application/push.rs:319-348 | A target enqueued for a targeted item whose id cuts up one way was bound to the item's project by an accepted record. |
| `PushJob.GuardedIffCutsOneWay` | src/application/push.rs:319-348 | Whatever the bindings and items, a target reaches the outbox through targeted items only when it was bound, if and only if its id can be cut up in one way only. |
| `PushJob.PipedTargetSlipsThrough` | src/application/push.rs:337-343 | With a single target bound whose channel holds a pipe, a targeted item for the tuple with the pipe moved into the peer id, never bound, is enqueued. |
| `PushJob.FailedItemRepeats` | src/application/push.rs:384-415 | An item left pending by a failed update has every row it wrote written again by a later run without faults. |
| `PushJob.LeftPendingExactly` | src/application/push.rs:384-415 | Of the items a run handled, the next run finds pending exactly the one whose update failed, unchanged. |
| `PushJob.WrittenTwiceExactly` | src/application/push.rs:351-442 | Over two runs, the second without faults: a row is written by both for the same item if and only if the first stopped at that item after writing the row. |
| `PushJob.ThroughIsFinal` | src/application/push.rs:351-442 | After a run that got through, a second run of the job handles no item, adds no row and changes nothing, whatever fails in it. |

## Left out

- Failed writes to the outbox and dead-letter tables after which the process goes on: every such write takes effect or the process crashes. The source only logs such failures.
- A second outbox worker beside the loop (`process_outbox_once`), and concurrent replays: there is one worker, and replays come one after another, interleaved with it.
- `updated_at` columns, the wording of dead-letter reasons (kept as attempt and error), the `source` and `created_at` columns of dead letters.
- `now + delay` beyond the i64 range, and fetch limits of 2^63 or more.
- Inserts of rows that are not new (a status other than pending or a counter above zero): no caller makes one.
- Backoff.NextDelayIsIdeal: the f64 jitter is an exact real, so floating-point rounding and NaN are not captured.
- SQL text, JSON encoding and SQLite's own locking: tables are maps, payloads opaque, one statement is atomic.
- Audit rows without hashes, written by the older `write_audit` and before the migration.
- ConnectionPool.EveryInterleaving: the pool is a state machine on values whose step is a whole critical section; a panicking closure, which would lose its connection, is not modelled.
- ConcurrentAudit.SerialIffOneConnection: a thread's closure is a state machine on values with one step per statement; other writers of the table are not modelled.
- CircuitBreaker.LoadUnderConcurrency: a started operation ends by failing; one cancelled in mid-flight would run unrecorded.
- CircuitBreaker.ResilienceGate.Execute: the bulkhead is a flag saying whether a permit is given; `last_failure_time`, read by nobody, is not kept.
- Route map, idle collection, `touch` and the pipeline stages: the route worker ends at the point where a message is handed to the pipeline. `handle_late` only adds a mark.
- Framing.WrittenFramesReadBack: bodies are at most 2^64 - 1 bytes, and a Content-Length too large to allocate is not modelled.
- PushJob.PushStore.RunPushJob: the writes of the job's own status and the fetch of its items succeed; row ids are fresh; route key and payload of a row stand as target and text.
- CSV and JSONL parsing, the projects table, inactive bindings and targets (nothing sets them so), and the empty account scope read back as none.
- HTTP API, chat platform clients, token polling, deduplication cache, task supervision, logging, configuration, formatting and permission stages: plumbing, or settled by reading one branch.
