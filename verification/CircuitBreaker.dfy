/** The circuit breaker and the gate around it. Time is a natural number read by each call. */
module CircuitBreaker {
  import opened Wrappers
  import opened Prelude

  datatype State = Closed | Open | HalfOpen

  datatype Config = Config(failureThreshold: nat, timeout: nat, halfOpenMax: nat)

  datatype Breaker = Breaker(state: State, failures: nat, openedAt: Option<nat>)

  function Fresh(): Breaker {
    Breaker(Closed, 0, None)
  }

  function Max(a: nat, b: nat): nat {
    if a >= b then a else b
  }

  // ---- the three calls as functions on the breaker's fields ----

  predicate TimedOut(c: Config, b: Breaker, now: nat) {
    b.openedAt.Some? && now >= b.openedAt.value + c.timeout
  }

  function Check(c: Config, b: Breaker, now: nat): (Breaker, bool) {
    match b.state
    case Closed => (b, true)
    case Open =>
      if TimedOut(c, b, now) then (b.(state := HalfOpen, failures := 0), true) else (b, false)
    case HalfOpen =>
      if b.failures < c.halfOpenMax then (b, true)
      else if TimedOut(c, b, now) then (Breaker(Open, 0, Some(now)), false)
      else (b, false)
  }

  function Succeed(b: Breaker): Breaker {
    Breaker(if b.state == HalfOpen then Closed else b.state, 0, b.openedAt)
  }

  /** `record_failure` is two atomic actions: the counter first, then the state under its lock. */
  function CountFailure(b: Breaker): Breaker {
    b.(failures := b.failures + 1)
  }

  function Trip(c: Config, b: Breaker, count: nat, now: nat): Breaker {
    if count >= c.failureThreshold && b.state == Closed then b.(state := Open, openedAt := Some(now)) else b
  }

  function Fail(c: Config, b: Breaker, now: nat): Breaker {
    Trip(c, CountFailure(b), b.failures + 1, now)
  }

  class CircuitBreaker {
    const config: Config
    var state: State
    var failureCount: nat
    var openedAt: Option<nat>

    ghost function View(): Breaker
      reads this
    {
      Breaker(state, failureCount, openedAt)
    }

    constructor (config: Config)
      ensures View() == Fresh() && this.config == config
    {
      this.config := config;
      state, failureCount, openedAt := Closed, 0, None;
    }

    method AllowRequest(now: nat) returns (admitted: bool)
      modifies this
      ensures (View(), admitted) == Check(config, old(View()), now)
    {
      match state {
        case Closed =>
          admitted := true;
        case Open =>
          admitted := openedAt.Some? && now >= openedAt.value + config.timeout;
          if admitted {
            state := HalfOpen;
            failureCount := 0;
          }
        case HalfOpen =>
          admitted := failureCount < config.halfOpenMax;
          if !admitted && openedAt.Some? && now >= openedAt.value + config.timeout {
            state := Open;
            openedAt := Some(now);
            failureCount := 0;
          }
      }
    }

    method RecordSuccess()
      modifies this
      ensures View() == Succeed(old(View()))
    {
      failureCount := 0;
      if state == HalfOpen {
        state := Closed;
      }
    }

    method RecordFailure(now: nat)
      modifies this
      ensures View() == Fail(config, old(View()), now)
    {
      failureCount := failureCount + 1;
      if failureCount >= config.failureThreshold && state == Closed {
        state := Open;
        openedAt := Some(now);
      }
    }
  }

  class ResilienceGate {
    const breaker: CircuitBreaker

    constructor (config: Config)
      ensures fresh(breaker) && breaker.config == config && breaker.View() == Fresh()
    {
      breaker := new CircuitBreaker(config);
    }

    /** Admission, then a permit, then the operation, then its outcome recorded. `before`
        and `after` are the clock at admission and at the end of the operation; `from` makes
        an error of the operation's type out of the gate's own messages. */
    method Execute<T, E>(before: nat, permit: bool, outcome: Result<T, E>, after: nat, from: string -> E)
      returns (ran: bool, r: Result<T, E>)
      modifies breaker
      ensures (breaker.View(), ran)
           == Gate(breaker.config, old(breaker.View()), Call(before, permit, outcome.Ok?, after))
      ensures
        r == if ran then outcome
             else if Check(breaker.config, old(breaker.View()), before).1 then Err(from("bulkhead is closed"))
             else Err(from("circuit breaker open"))
    {
      var admitted := breaker.AllowRequest(before);
      if !admitted {
        return false, Err(from("circuit breaker open"));
      }
      if !permit {
        return false, Err(from("bulkhead is closed"));
      }
      match outcome {
        case Ok(value) =>
          breaker.RecordSuccess();
          return true, Ok(value);
        case Err(error) =>
          breaker.RecordFailure(after);
          return true, Err(error);
      }
    }
  }

  /** One sequential call through the gate. */
  datatype Call = Call(before: nat, permit: bool, succeeds: bool, after: nat)

  function Gate(c: Config, b: Breaker, call: Call): (Breaker, bool) {
    var (checked, admitted) := Check(c, b, call.before);
    if !admitted || !call.permit then (checked, false)
    else if call.succeeds then (Succeed(checked), true)
    else (Fail(c, checked, call.after), true)
  }

  // ---- every interleaving of the atomic actions ----

  /** What concurrent callers do to the breaker, one atomic action at a time. */
  datatype Action =
    | DoCheck(now: nat)
    | DoSucceed(now: nat)
    | DoCount(now: nat)
    | DoTrip(count: nat, now: nat)

  datatype Mark = Opened(at: nat) | Admitted(at: nat)

  /** The breaker, the clock, and the openings and admissions so far. */
  datatype Timeline = Timeline(b: Breaker, now: nat, marks: seq<Mark>)

  function Act(c: Config, s: Timeline, a: Action): Timeline {
    match a
    case DoCheck(now) =>
      var (b, admitted) := Check(c, s.b, now);
      Timeline(b, now,
               if admitted then s.marks + [Admitted(now)]
               else if s.b.state == HalfOpen && b.state == Open then s.marks + [Opened(now)]
               else s.marks)
    case DoSucceed(now) => Timeline(Succeed(s.b), now, s.marks)
    case DoCount(now) => Timeline(CountFailure(s.b), now, s.marks)
    case DoTrip(count, now) =>
      var b := Trip(c, s.b, count, now);
      Timeline(b, now, if b != s.b then s.marks + [Opened(now)] else s.marks)
  }

  ghost predicate IsRun(c: Config, states: seq<Timeline>, actions: seq<Action>) {
    && |states| == |actions| + 1
    && states[0] == Timeline(Fresh(), 0, [])
    && forall i :: 0 <= i < |actions| ==>
         actions[i].now >= states[i].now && states[i + 1] == Act(c, states[i], actions[i])
  }

  /** Opening times are recorded; half-open means the timeout has passed; and unless the
      breaker is open right now, the timeout has passed since every opening ever. */
  ghost predicate TimelineInv(c: Config, s: Timeline) {
    && (s.b.state != Closed ==> s.b.openedAt.Some?)
    && (s.b.openedAt.Some? ==> s.b.openedAt.value <= s.now)
    && (s.b.state == HalfOpen ==> s.now >= s.b.openedAt.value + c.timeout)
    && (forall i :: 0 <= i < |s.marks| && s.marks[i].Opened? ==>
          if s.b.state == Open then s.marks[i].at <= s.b.openedAt.value else s.now >= s.marks[i].at + c.timeout)
    && (forall i, j :: 0 <= i < j < |s.marks| && s.marks[i].Opened? && s.marks[j].Admitted? ==>
          s.marks[j].at >= s.marks[i].at + c.timeout)
  }

  lemma ActKeepsInv(c: Config, s: Timeline, a: Action)
    requires TimelineInv(c, s) && a.now >= s.now
    ensures TimelineInv(c, Act(c, s, a))
  {
  }

  lemma {:induction false} RunInv(c: Config, states: seq<Timeline>, actions: seq<Action>, n: nat)
    requires IsRun(c, states, actions) && n <= |actions|
    ensures TimelineInv(c, states[n])
    decreases n
  {
    if n > 0 {
      RunInv(c, states, actions, n - 1);
      ActKeepsInv(c, states[n - 1], actions[n - 1]);
    }
  }

  /** In every interleaving no operation is admitted within `timeout` of any earlier opening. */
  lemma NoAdmissionWhileOpen(c: Config, states: seq<Timeline>, actions: seq<Action>, n: nat, i: nat, j: nat)
    requires IsRun(c, states, actions) && n <= |actions| && i < j < |states[n].marks|
    requires states[n].marks[i].Opened? && states[n].marks[j].Admitted?
    ensures states[n].marks[j].at >= states[n].marks[i].at + c.timeout
  {
    RunInv(c, states, actions, n);
  }

  /** The breaker is never stuck: from every reachable state, of two checks each a timeout
      after what came before, one admits. */
  lemma NeverStuck(c: Config, states: seq<Timeline>, actions: seq<Action>, n: nat, first: nat, second: nat)
    requires IsRun(c, states, actions) && n <= |actions|
    requires first >= states[n].now + c.timeout && second >= first + c.timeout
    ensures
      var (b, admitted) := Check(c, states[n].b, first);
      admitted || Check(c, b, second).1
  {
    RunInv(c, states, actions, n);
  }

  /** An exhausted half-open breaker reverts to open at the very next check, at any time. */
  lemma ExhaustedReverts(c: Config, states: seq<Timeline>, actions: seq<Action>, n: nat, now: nat)
    requires IsRun(c, states, actions) && n <= |actions| && now >= states[n].now
    requires states[n].b.state == HalfOpen && states[n].b.failures >= c.halfOpenMax
    ensures Check(c, states[n].b, now) == (Breaker(Open, 0, Some(now)), false)
  {
    RunInv(c, states, actions, n);
  }

  // ---- load on a failing dependency ----

  /** A sequential run of calls that all fail, with the number of operations run so far. */
  datatype Load = Load(b: Breaker, now: nat, runs: nat)

  function AfterCall(c: Config, s: Load, call: Call): Load {
    var (b, ran) := Gate(c, s.b, call);
    Load(b, if ran then call.after else call.before, s.runs + if ran then 1 else 0)
  }

  ghost predicate IsLoad(c: Config, start: nat, states: seq<Load>, calls: seq<Call>) {
    && |states| == |calls| + 1
    && states[0] == Load(Fresh(), start, 0)
    && forall i :: 0 <= i < |calls| ==>
         && !calls[i].succeeds && states[i].now <= calls[i].before <= calls[i].after
         && states[i + 1] == AfterCall(c, states[i], calls[i])
  }

  /** Operations one half-open period lets through. */
  function Probes(c: Config): nat {
    Max(1, c.halfOpenMax)
  }

  function Trips(c: Config): nat {
    Max(1, c.failureThreshold)
  }

  /** After `periods` half-open periods, the p-th of which began p timeouts after the start. */
  ghost predicate LoadInv(c: Config, start: nat, s: Load, periods: nat) {
    && s.now >= start && (s.b.openedAt.Some? ==> s.b.openedAt.value <= s.now)
    && match s.b.state
       case Closed => periods == 0 && s.runs == s.b.failures < Trips(c)
       case Open =>
         && s.b.openedAt.Some? && s.runs <= Trips(c) + Probes(c) * periods
         && s.b.openedAt.value >= start + periods * c.timeout
       case HalfOpen =>
         && s.b.openedAt.Some? && periods >= 1 && s.now >= s.b.openedAt.value + c.timeout
         && s.b.failures <= Probes(c) && s.runs <= Trips(c) + Probes(c) * (periods - 1) + s.b.failures
         && s.now >= start + periods * c.timeout
  }

  lemma LoadStep(c: Config, start: nat, s: Load, call: Call, periods: nat) returns (periods': nat)
    requires LoadInv(c, start, s, periods) && !call.succeeds && s.now <= call.before <= call.after
    ensures LoadInv(c, start, AfterCall(c, s, call), periods')
  {
    periods' := periods;
    if s.b.state == Open && TimedOut(c, s.b, call.before) {
      periods' := periods + 1;
      assert (periods + 1) * c.timeout == periods * c.timeout + c.timeout;
    } else if s.b.state == HalfOpen {
      assert Probes(c) * periods == Probes(c) * (periods - 1) + Probes(c);
    }
  }

  lemma {:induction false} LoadRun(c: Config, start: nat, states: seq<Load>, calls: seq<Call>, n: nat)
      returns (periods: nat)
    requires IsLoad(c, start, states, calls) && n <= |calls|
    ensures LoadInv(c, start, states[n], periods) && states[n].now >= start
    decreases n
  {
    if n == 0 {
      periods := 0;
    } else {
      var before := LoadRun(c, start, states, calls, n - 1);
      assert states[n] == AfterCall(c, states[n - 1], calls[n - 1]);
      periods := LoadStep(c, start, states[n - 1], calls[n - 1], before);
    }
  }

  /** However callers hammer a dependency that always fails, within T of the start it is
      called at most max(1, threshold) + max(1, half_open_max) * floor(T / timeout) times. */
  lemma LoadBound(c: Config, start: nat, states: seq<Load>, calls: seq<Call>, n: nat)
    requires IsLoad(c, start, states, calls) && n <= |calls| && c.timeout > 0
    ensures states[n].now >= start
    ensures states[n].runs <= Trips(c) + Probes(c) * ((states[n].now - start) / c.timeout)
  {
    var periods := LoadRun(c, start, states, calls, n);
    var s := states[n];
    var elapsed := s.now - start;
    QuotientAtLeast(elapsed, c.timeout, periods);
    MulMonotone(Probes(c), periods, elapsed / c.timeout);
    if s.b.state == HalfOpen {
      assert Probes(c) * periods == Probes(c) * (periods - 1) + Probes(c);
    }
  }

  // ---- load and counter under concurrent callers ----

  /** Calls in progress, by how far they have come: admitted, running, and between the two
      halves of a recorded failure, with a count below the threshold or not. `kept` counts
      the admissions not withdrawn before they ran. */
  datatype Crowd = Crowd(
    b: Breaker, now: nat, waiting: nat, running: nat, below: nat, tripping: nat, runs: nat, kept: int)

  datatype Move =
    | Arrive(now: nat)
    | Withdraw(now: nat)
    | Start(now: nat)
    | Finish(succeeds: bool, now: nat)
    | Settle(count: nat, now: nat)

  function Unrecorded(s: Crowd): nat {
    s.waiting + s.running
  }

  function InProgress(s: Crowd): nat {
    Unrecorded(s) + s.below + s.tripping
  }

  predicate HasCall(c: Config, s: Crowd, m: Move) {
    match m
    case Arrive(_) => true
    case Withdraw(_) => s.waiting > 0
    case Start(_) => s.waiting > 0
    case Finish(_, _) => s.running > 0
    case Settle(count, _) => if count >= c.failureThreshold then s.tripping > 0 else s.below > 0
  }

  /** At most `callers` calls are in progress at any time. */
  predicate CanMove(c: Config, callers: nat, s: Crowd, m: Move) {
    m.now >= s.now && HasCall(c, s, m) && (m.Arrive? ==> InProgress(s) < callers)
  }

  function AfterMove(c: Config, s: Crowd, m: Move): Crowd
    requires HasCall(c, s, m)
  {
    match m
    case Arrive(now) =>
      var (b, admitted) := Check(c, s.b, now);
      if admitted then s.(b := b, now := now, waiting := s.waiting + 1, kept := s.kept + 1) else s.(b := b, now := now)
    case Withdraw(now) => s.(now := now, waiting := s.waiting - 1, kept := s.kept - 1)
    case Start(now) => s.(now := now, waiting := s.waiting - 1, running := s.running + 1, runs := s.runs + 1)
    case Finish(succeeds, now) =>
      var left := s.(now := now, running := s.running - 1);
      if succeeds then left.(b := Succeed(s.b))
      else if s.b.failures + 1 >= c.failureThreshold then left.(b := CountFailure(s.b), tripping := s.tripping + 1)
      else left.(b := CountFailure(s.b), below := s.below + 1)
    case Settle(count, now) =>
      var settled := s.(b := Trip(c, s.b, count, now), now := now);
      if count >= c.failureThreshold then settled.(tripping := s.tripping - 1) else settled.(below := s.below - 1)
  }

  ghost predicate Moves(c: Config, callers: nat, s: Crowd, m: Move, s': Crowd) {
    CanMove(c, callers, s, m) && s' == AfterMove(c, s, m)
  }

  ghost predicate IsCrowd(c: Config, callers: nat, start: nat, states: seq<Crowd>, moves: seq<Move>) {
    && |states| == |moves| + 1
    && states[0] == Crowd(Fresh(), start, 0, 0, 0, 0, 0, 0)
    && forall i :: 0 <= i < |moves| ==> Moves(c, callers, states[i], moves[i], states[i + 1])
  }

  /** A closed breaker past its threshold has a caller about to trip it. */
  predicate CounterInv(c: Config, callers: nat, s: Crowd) {
    && InProgress(s) <= callers && s.runs + s.waiting <= s.kept
    && s.b.failures + Unrecorded(s) <= Max(Trips(c), Probes(c)) - 1 + callers
    && (s.b.state == Closed ==> s.b.failures <= Trips(c) - 1 + s.tripping)
  }

  lemma MoveKeepsCounter(c: Config, callers: nat, s: Crowd, m: Move)
    requires CounterInv(c, callers, s) && CanMove(c, callers, s, m)
    ensures CounterInv(c, callers, AfterMove(c, s, m))
  {
  }

  lemma {:induction false} CrowdCounter(
      c: Config, callers: nat, start: nat, states: seq<Crowd>, moves: seq<Move>, n: nat)
    requires IsCrowd(c, callers, start, states, moves) && n <= |moves|
    ensures CounterInv(c, callers, states[n])
    decreases n
  {
    if n > 0 {
      CrowdCounter(c, callers, start, states, moves, n - 1);
      assert Moves(c, callers, states[n - 1], moves[n - 1], states[n]);
      MoveKeepsCounter(c, callers, states[n - 1], moves[n - 1]);
    }
  }

  /** However many callers interleave and whatever their outcomes, the counter stays within
      the configuration plus the calls in progress, so the 32-bit counter cannot wrap. */
  lemma CounterUnderConcurrency(
      c: Config, callers: nat, start: nat, states: seq<Crowd>, moves: seq<Move>, n: nat)
    requires IsCrowd(c, callers, start, states, moves) && n <= |moves|
    ensures states[n].b.failures < Max(Trips(c), Probes(c)) + callers
  {
    CrowdCounter(c, callers, start, states, moves, n);
  }

  predicate NoneSucceeds(moves: seq<Move>) {
    forall i :: 0 <= i < |moves| ==> !(moves[i].Finish? && moves[i].succeeds)
  }

  /** Runs that a closed phase and so many half-open periods let through. */
  function Allowance(c: Config, callers: nat, periods: nat): int {
    Trips(c) - 1 + callers + (Probes(c) - 1 + callers) * periods
  }

  ghost predicate CrowdInv(c: Config, callers: nat, start: nat, s: Crowd, periods: nat) {
    && CounterInv(c, callers, s) && s.now >= start && (s.b.openedAt.Some? ==> s.b.openedAt.value <= s.now)
    && match s.b.state
       case Closed => periods == 0 && s.kept <= s.b.failures + Unrecorded(s)
       case Open =>
         && s.b.openedAt.Some? && s.kept <= Allowance(c, callers, periods)
         && s.b.openedAt.value >= start + periods * c.timeout
       case HalfOpen =>
         && s.b.openedAt.Some? && periods >= 1 && s.now >= s.b.openedAt.value + c.timeout
         && s.kept <= Allowance(c, callers, periods) && s.now >= start + periods * c.timeout
         && s.kept <= Allowance(c, callers, periods - 1) + s.b.failures + Unrecorded(s)
  }

  lemma CrowdStep(c: Config, callers: nat, start: nat, s: Crowd, m: Move, periods: nat) returns (periods': nat)
    requires CrowdInv(c, callers, start, s, periods) && CanMove(c, callers, s, m) && !(m.Finish? && m.succeeds)
    ensures CrowdInv(c, callers, start, AfterMove(c, s, m), periods')
  {
    MoveKeepsCounter(c, callers, s, m);
    periods' := periods;
    if m.Arrive? && s.b.state == Open && TimedOut(c, s.b, m.now) {
      periods' := periods + 1;
      assert (periods + 1) * c.timeout == periods * c.timeout + c.timeout;
      AllowanceGrows(c, callers, periods);
    } else if s.b.state == HalfOpen {
      AllowanceGrows(c, callers, periods - 1);
    }
  }

  lemma AllowanceGrows(c: Config, callers: nat, periods: nat)
    ensures Allowance(c, callers, periods + 1) == Allowance(c, callers, periods) + Probes(c) - 1 + callers
    ensures Allowance(c, callers, 0) == Trips(c) - 1 + callers
  {
    var per := Probes(c) - 1 + callers;
    assert per * (periods + 1) == per * periods + per;
  }

  lemma {:induction false} CrowdRun(
      c: Config, callers: nat, start: nat, states: seq<Crowd>, moves: seq<Move>, n: nat) returns (periods: nat)
    requires IsCrowd(c, callers, start, states, moves) && n <= |moves|
    requires NoneSucceeds(moves)
    ensures CrowdInv(c, callers, start, states[n], periods)
    decreases n
  {
    if n == 0 {
      periods := 0;
    } else {
      var before := CrowdRun(c, callers, start, states, moves, n - 1);
      assert Moves(c, callers, states[n - 1], moves[n - 1], states[n]);
      periods := CrowdStep(c, callers, start, states[n - 1], moves[n - 1], before);
    }
  }

  /** With up to `callers` calls at once, in every interleaving, a dependency that always fails
      is called at most (max(1, threshold) + callers - 1) + (max(1, half_open_max) + callers - 1)
      * floor(T / timeout) times within T of the start: for one caller, the number of LoadBound. */
  lemma LoadUnderConcurrency(
      c: Config, callers: nat, start: nat, states: seq<Crowd>, moves: seq<Move>, n: nat, elapsed: nat)
    requires IsCrowd(c, callers, start, states, moves) && n <= |moves| && c.timeout > 0
    requires NoneSucceeds(moves)
    requires states[n].now <= start + elapsed
    ensures states[n].runs <= Allowance(c, callers, Whole(elapsed, c.timeout))
  {
    var periods := CrowdRun(c, callers, start, states, moves, n);
    KeptWithinAllowance(c, callers, start, states[n], periods);
    QuotientAtLeast(elapsed, c.timeout, periods);
    AllowanceMonotone(c, callers, periods, Whole(elapsed, c.timeout));
  }

  /** Whole timeouts in the time elapsed. */
  function Whole(elapsed: nat, timeout: nat): nat
    requires timeout > 0
  {
    elapsed / timeout
  }

  lemma KeptWithinAllowance(c: Config, callers: nat, start: nat, s: Crowd, periods: nat)
    requires CrowdInv(c, callers, start, s, periods)
    ensures s.runs <= Allowance(c, callers, periods) && periods * c.timeout <= s.now - start
  {
    AllowanceGrows(c, callers, periods);
  }

  lemma AllowanceMonotone(c: Config, callers: nat, p: nat, q: nat)
    requires p <= q
    ensures Allowance(c, callers, p) <= Allowance(c, callers, q)
  {
    MulMonotone(Probes(c) - 1 + callers, p, q);
  }

  // ---- the failure counter ----

  /** The breaker after sequential calls through the gate. */
  function AfterFrom(c: Config, b: Breaker, calls: seq<Call>): Breaker {
    if calls == [] then b else Gate(c, AfterFrom(c, b, calls[..|calls| - 1]), calls[|calls| - 1]).0
  }

  function AfterCalls(c: Config, calls: seq<Call>): Breaker {
    AfterFrom(c, Fresh(), calls)
  }

  /** Whatever a sequential caller does, the counter never outgrows the configuration, so
      the 32-bit counter of the source cannot wrap; and closed means below the threshold. */
  lemma {:induction false} CounterStaysSmall(c: Config, calls: seq<Call>)
    ensures AfterCalls(c, calls).failures <= Max(Trips(c), Probes(c))
    ensures AfterCalls(c, calls).state == Closed ==> AfterCalls(c, calls).failures < Trips(c)
    ensures AfterCalls(c, calls).state == HalfOpen ==> AfterCalls(c, calls).failures <= Probes(c)
  {
    if calls != [] { CounterStaysSmall(c, calls[..|calls| - 1]); }
  }

  // ---- the whole cycle, told by the calls alone ----

  /** The i-th of the calls ran its operation. */
  predicate Ran(c: Config, b: Breaker, calls: seq<Call>, i: nat)
    requires i < |calls|
  {
    Gate(c, AfterFrom(c, b, calls[..i]), calls[i]).1
  }

  /** Failures since the last success, among calls that got a permit. */
  function Trailing(calls: seq<Call>): nat {
    if calls == [] then 0
    else
      var last := calls[|calls| - 1];
      if !last.permit then Trailing(calls[..|calls| - 1])
      else if last.succeeds then 0
      else Trailing(calls[..|calls| - 1]) + 1
  }

  /** Fewer failures in a row than the threshold, at every moment; one always trips. */
  ghost predicate Healthy(c: Config, calls: seq<Call>) {
    forall k :: 0 <= k <= |calls| ==> Trailing(calls[..k]) < if c.failureThreshold == 0 then 1 else c.failureThreshold
  }

  /** A breaker stays closed, and lets every call through, as long as its dependency is healthy. */
  lemma {:induction false} StaysClosed(c: Config, b: Breaker, calls: seq<Call>)
    requires b.state == Closed && b.failures == 0 && Healthy(c, calls)
    ensures AfterFrom(c, b, calls) == Breaker(Closed, Trailing(calls), b.openedAt)
    ensures forall i :: 0 <= i < |calls| ==> Ran(c, b, calls, i) == calls[i].permit
  {
    if calls != [] {
      var front := calls[..|calls| - 1];
      assert calls[..|calls|] == calls;
      assert forall k :: 0 <= k <= |front| ==> front[..k] == calls[..k];
      StaysClosed(c, b, front);
      forall i | 0 <= i < |front| ensures Ran(c, b, calls, i) == calls[i].permit {
        assert Ran(c, b, front, i) == front[i].permit;
      }
    }
  }

  /** The failure that brings the count to the threshold opens it, at the end of that call. */
  lemma OpensAtThreshold(c: Config, b: Breaker, calls: seq<Call>, last: Call)
    requires b.state == Closed && b.failures == 0 && Healthy(c, calls)
    requires last.permit && !last.succeeds
    requires Trailing(calls) + 1 == if c.failureThreshold == 0 then 1 else c.failureThreshold
    ensures AfterFrom(c, b, calls + [last]) == Breaker(Open, Trailing(calls) + 1, Some(last.after))
    ensures Ran(c, b, calls + [last], |calls|)
  {
    StaysClosed(c, b, calls);
    assert (calls + [last])[..|calls|] == calls;
  }

  /** Until the timeout is over, an open breaker refuses every call and does not change. */
  lemma {:induction false} OpenRefuses(c: Config, b: Breaker, since: nat, calls: seq<Call>)
    requires b.state == Open && b.openedAt == Some(since)
    requires forall i :: 0 <= i < |calls| ==> calls[i].before < since + c.timeout
    ensures AfterFrom(c, b, calls) == b && forall i :: 0 <= i < |calls| ==> !Ran(c, b, calls, i)
  {
    if calls != [] {
      var front := calls[..|calls| - 1];
      OpenRefuses(c, b, since, front);
      forall i | 0 <= i < |front| ensures !Ran(c, b, calls, i) {
        assert !Ran(c, b, front, i) && front[..i] == calls[..i];
      }
    }
  }

  /** Calls after the timeout that all run and all fail. */
  ghost predicate FailingProbes(c: Config, since: nat, calls: seq<Call>) {
    forall i :: 0 <= i < |calls| ==>
      calls[i].before >= since + c.timeout && calls[i].permit && !calls[i].succeeds
  }

  /** From the timeout on, max(1, half_open_max) failing probes are let through. */
  lemma {:induction false} ProbesRun(c: Config, b: Breaker, since: nat, calls: seq<Call>)
    requires b.state == Open && b.openedAt == Some(since) && FailingProbes(c, since, calls)
    requires 0 < |calls| <= if c.halfOpenMax == 0 then 1 else c.halfOpenMax
    ensures AfterFrom(c, b, calls) == Breaker(HalfOpen, |calls|, Some(since))
    ensures forall i :: 0 <= i < |calls| ==> Ran(c, b, calls, i)
  {
    var front := calls[..|calls| - 1];
    if front == [] {
      assert AfterFrom(c, b, front) == b;
    } else {
      ProbesRun(c, b, since, front);
      forall i | 0 <= i < |front| ensures Ran(c, b, calls, i) {
        assert Ran(c, b, front, i) && front[..i] == calls[..i];
      }
    }
  }

  /** And the call after them is refused and opens the breaker anew. */
  lemma ProbesExhaust(c: Config, b: Breaker, since: nat, calls: seq<Call>, next: Call)
    requires b.state == Open && b.openedAt == Some(since) && FailingProbes(c, since, calls)
    requires |calls| == (if c.halfOpenMax == 0 then 1 else c.halfOpenMax) && next.before >= since + c.timeout
    ensures AfterFrom(c, b, calls + [next]) == Breaker(Open, 0, Some(next.before))
    ensures !Ran(c, b, calls + [next], |calls|)
  {
    ProbesRun(c, b, since, calls);
    assert (calls + [next])[..|calls|] == calls;
  }

  /** A success among the probes closes the breaker with a clean count, so that StaysClosed
      holds of the calls after it. */
  lemma SuccessCloses(c: Config, b: Breaker, since: nat, calls: seq<Call>, good: Call)
    requires b.state == Open && b.openedAt == Some(since) && FailingProbes(c, since, calls)
    requires |calls| < if c.halfOpenMax == 0 then 1 else c.halfOpenMax
    requires good.before >= since + c.timeout && good.permit && good.succeeds
    ensures AfterFrom(c, b, calls + [good]) == Breaker(Closed, 0, Some(since))
    ensures Ran(c, b, calls + [good], |calls|)
  {
    if calls != [] { ProbesRun(c, b, since, calls); }
    assert (calls + [good])[..|calls|] == calls;
  }
}
