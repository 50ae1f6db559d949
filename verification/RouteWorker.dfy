/** The per-route worker: messages, flush timers and channel close drive a reorder window;
    released messages run through the pipeline, messages left at close are only logged. */
module RouteWorker {
  import opened Wrappers
  import opened Prelude
  import opened Reorder

  datatype Event = Receive(m: Message, now: i64) | Timer | Close

  /** The worker's window and what became of the messages so far. */
  datatype State<T> = State(
    buffer: map<int, T>,
    latest: i64,
    processed: seq<T>,
    displaced: seq<T>,
    logged: seq<T>,
    closed: bool)

  function Idle<T>(): State<T> {
    State(map[], 0, [], [], [], false)
  }

  /** One event; `v` stands for the received message: the message itself, or its position. */
  ghost function Step<T>(windowMs: u64, s: State<T>, e: Event, v: T): State<T> {
    if s.closed then s else
    match e
    case Receive(m, now) =>
      var key := SortKey(m);
      var filed := s.buffer[key := v];
      var latest := Later(s.latest, now);
      var cutoff := Cutoff(windowMs, latest);
      State(Above(filed, cutoff), latest, s.processed + Listed(UpTo(filed, cutoff)),
            if key in s.buffer then s.displaced + [s.buffer[key]] else s.displaced, s.logged, false)
    case Timer => s.(buffer := map[], processed := s.processed + Listed(s.buffer))
    case Close => s.(buffer := map[], logged := Listed(s.buffer), closed := true)
  }

  /** The state after the first n events. */
  ghost function Run<T>(windowMs: u64, events: seq<Event>, tag: nat -> T, n: nat): State<T>
    requires n <= |events|
  {
    if n == 0 then Idle() else Step(windowMs, Run(windowMs, events, tag, n - 1), events[n - 1], tag(n - 1))
  }

  ghost function MessageAt(events: seq<Event>): nat -> Message {
    (i: nat) => if i < |events| && events[i].Receive? then events[i].m else Message("", None, 0, "")
  }

  /** The worker loop over the window object. */
  method RunWorker(windowMs: u64, events: seq<Event>)
    returns (processed: seq<Message>, logged: seq<Message>, buffered: Buffer)
    ensures
      var s := Run(windowMs, events, MessageAt(events), |events|);
      processed == s.processed && logged == s.logged && buffered == s.buffer
  {
    var window := new ReorderWindow(windowMs);
    processed, logged := [], [];
    var closed := false;
    ghost var tag := MessageAt(events);
    for i := 0 to |events|
      invariant window.Valid() && window.windowMs == windowMs
      invariant
        var s := Run(windowMs, events, tag, i);
        && window.buffer == s.buffer && window.latestArrivalMs == s.latest
        && processed == s.processed && logged == s.logged && closed == s.closed
    {
      if !closed {
        match events[i] {
          case Receive(m, now) =>
            var ordered := window.Insert(m, now);
            processed := processed + ordered;
          case Timer =>
            var pending := window.FlushAll();
            processed := processed + pending;
          case Close =>
            logged := window.FlushAll();
            closed := true;
        }
      }
    }
    buffered := window.buffer;
  }

  // ---- conservation, message by message ----

  ghost function Self(): nat -> nat {
    (i: nat) => i
  }

  /** The run on positions: which arrival went where. */
  ghost function Fates(windowMs: u64, events: seq<Event>, n: nat): State<nat>
    requires n <= |events|
  {
    Run(windowMs, events, Self(), n)
  }

  predicate Live(events: seq<Event>, n: nat)
    requires n <= |events|
  {
    forall j :: 0 <= j < n ==> !events[j].Close?
  }

  /** What a live worker has taken in, once each: `tag(i)` stands for the i-th event's message. */
  ghost function Received<T>(events: seq<Event>, tag: nat -> T, n: nat): multiset<T>
    requires n <= |events|
  {
    if n == 0 then multiset{}
    else if events[n - 1].Receive? && Live(events, n - 1)
    then Received(events, tag, n - 1) + multiset{tag(n - 1)}
    else Received(events, tag, n - 1)
  }

  ghost function Accounted<T>(s: State<T>): multiset<T> {
    multiset(s.processed) + Bag(s.buffer) + multiset(s.displaced) + multiset(s.logged)
  }

  lemma Rebalance<T>(p: multiset<T>, b: multiset<T>, d: multiset<T>, l: multiset<T>,
                     low: multiset<T>, high: multiset<T>, out: multiset<T>, v: multiset<T>)
    requires low + high + out == v + b
    ensures (p + low) + high + (d + out) + l == (p + b + d + l) + v
  {
    assert (p + low) + high + (d + out) + l == (p + d + l) + (low + high + out);
    assert (p + d + l) + (v + b) == (p + b + d + l) + v;
  }

  lemma ReceiveConserves<T>(windowMs: u64, s: State<T>, m: Message, now: i64, v: T)
    requires !s.closed
    ensures Accounted(Step(windowMs, s, Receive(m, now), v)) == Accounted(s) + multiset{v}
  {
    var key := SortKey(m);
    var filed := s.buffer[key := v];
    var cutoff := Cutoff(windowMs, Later(s.latest, now));
    var out := if key in s.buffer then [s.buffer[key]] else [];
    var s' := Step(windowMs, s, Receive(m, now), v);
    assert s'.displaced == s.displaced + out;
    FileAndCut(s.buffer, key, v, cutoff, out);
    ListedIsBag(UpTo(filed, cutoff));
    Rebalance(multiset(s.processed), Bag(s.buffer), multiset(s.displaced), multiset(s.logged),
              Bag(UpTo(filed, cutoff)), Bag(Above(filed, cutoff)), multiset(out), multiset{v});
  }

  lemma FileAndCut<T>(b: map<int, T>, key: int, v: T, cutoff: int, out: seq<T>)
    requires out == if key in b then [b[key]] else []
    ensures Bag(UpTo(b[key := v], cutoff)) + Bag(Above(b[key := v], cutoff)) + multiset(out) == multiset{v} + Bag(b)
  {
    BagCut(b[key := v], cutoff);
    if key in b {
      BagReplace(b, key, v);
    } else {
      BagAdd(b, key, v);
    }
  }

  lemma FlushConserves<T>(windowMs: u64, s: State<T>, e: Event, v: T)
    requires !e.Receive? && s.logged == []
    ensures Accounted(Step(windowMs, s, e, v)) == Accounted(s)
  {
    ListedIsBag(s.buffer);
  }

  lemma {:induction false} LoggedOnlyAtClose<T>(windowMs: u64, events: seq<Event>, tag: nat -> T, n: nat)
    requires n <= |events|
    ensures !Run(windowMs, events, tag, n).closed ==> Run(windowMs, events, tag, n).logged == []
    decreases n
  {
    if n > 0 { LoggedOnlyAtClose(windowMs, events, tag, n - 1); }
  }

  lemma StepConserves<T>(windowMs: u64, s: State<T>, e: Event, v: T)
    requires !s.closed ==> s.logged == []
    ensures e.Receive? && !s.closed ==> Accounted(Step(windowMs, s, e, v)) == Accounted(s) + multiset{v}
    ensures !e.Receive? || s.closed ==> Accounted(Step(windowMs, s, e, v)) == Accounted(s)
  {
    if !s.closed {
      match e
      case Receive(m, now) => ReceiveConserves(windowMs, s, m, now, v);
      case Timer => FlushConserves(windowMs, s, e, v);
      case Close => FlushConserves(windowMs, s, e, v);
    }
  }

  /** Nothing is lost and nothing appears twice. */
  ghost predicate Balanced<T>(windowMs: u64, events: seq<Event>, tag: nat -> T, n: nat)
    requires n <= |events|
  {
    Accounted(Run(windowMs, events, tag, n)) == Received(events, tag, n)
  }

  lemma StartBalances<T>(windowMs: u64, events: seq<Event>, tag: nat -> T)
    ensures Balanced(windowMs, events, tag, 0)
  {
    assert Bag<T>(map[]) == multiset{};
  }

  lemma NextBalances<T>(windowMs: u64, events: seq<Event>, tag: nat -> T, n: nat)
    requires n < |events| && Balanced(windowMs, events, tag, n)
    ensures Balanced(windowMs, events, tag, n + 1)
  {
    LoggedOnlyAtClose(windowMs, events, tag, n);
    ClosedIffClose(windowMs, events, tag, n);
    StepConserves(windowMs, Run(windowMs, events, tag, n), events[n], tag(n));
  }

  lemma Conservation<T>(windowMs: u64, events: seq<Event>, tag: nat -> T, n: nat)
    requires n <= |events|
    ensures Balanced(windowMs, events, tag, n)
  {
    StartBalances(windowMs, events, tag);
    for i := 0 to n
      invariant Balanced(windowMs, events, tag, i)
    {
      NextBalances(windowMs, events, tag, i);
    }
  }

  /** Every received message is in exactly one place: processed, still buffered, displaced,
      or logged at close. */
  lemma ArrivalsConserved(windowMs: u64, events: seq<Event>, n: nat)
    requires n <= |events|
    ensures Accounted(Fates(windowMs, events, n)) == Received(events, Self(), n)
  {
    Conservation(windowMs, events, Self(), n);
  }

  // ---- exactly which arrivals are buffered, and which are displaced ----

  predicate SameKey(events: seq<Event>, i: nat, j: nat)
    requires i < |events| && j < |events|
  {
    events[i].Receive? && events[j].Receive? && SortKey(events[i].m) == SortKey(events[j].m)
  }

  /** Arrival i waits in the window before event n: no flush and no arrival with its key
      since, and its key above the cutoff. */
  ghost predicate Buffered(windowMs: u64, events: seq<Event>, i: nat, n: nat)
    requires n <= |events|
  {
    && i < n && events[i].Receive? && Live(events, n)
    && (forall j :: i < j < n ==> !events[j].Timer? && !SameKey(events, i, j))
    && SortKey(events[i].m) > Cutoff(windowMs, Fates(windowMs, events, n).latest)
  }

  lemma {:induction false} ClosedIffClose<T>(windowMs: u64, events: seq<Event>, tag: nat -> T, n: nat)
    requires n <= |events|
    ensures Run(windowMs, events, tag, n).closed <==> !Live(events, n)
    ensures Run(windowMs, events, tag, n).closed ==> Run(windowMs, events, tag, n).buffer == map[]
    decreases n
  {
    if n > 0 {
      ClosedIffClose(windowMs, events, tag, n - 1);
      assert Live(events, n) <==> Live(events, n - 1) && !events[n - 1].Close?;
    }
  }

  ghost predicate InBuffer(windowMs: u64, events: seq<Event>, k: int, i: nat, n: nat)
    requires n <= |events|
  {
    k in Fates(windowMs, events, n).buffer && Fates(windowMs, events, n).buffer[k] == i
  }

  lemma {:induction false} BufferClosedForm(windowMs: u64, events: seq<Event>, k: int, i: nat, n: nat)
    requires n <= |events|
    ensures InBuffer(windowMs, events, k, i, n) <==>
              Buffered(windowMs, events, i, n) && SortKey(events[i].m) == k
    decreases n
  {
    if n > 0 {
      BufferClosedForm(windowMs, events, k, i, n - 1);
      ClosedIffClose(windowMs, events, Self(), n - 1);
      ClosedIffClose(windowMs, events, Self(), n);
      if Live(events, n) && events[n - 1].Receive? {
        BufferAfterReceive(windowMs, events, k, i, n);
      }
    }
  }

  lemma BufferAfterReceive(windowMs: u64, events: seq<Event>, k: int, i: nat, n: nat)
    requires 0 < n <= |events| && Live(events, n) && events[n - 1].Receive?
    requires !Fates(windowMs, events, n - 1).closed
    requires InBuffer(windowMs, events, k, i, n - 1) <==>
               Buffered(windowMs, events, i, n - 1) && SortKey(events[i].m) == k
    ensures InBuffer(windowMs, events, k, i, n) <==>
              Buffered(windowMs, events, i, n) && SortKey(events[i].m) == k
  {
    var s, s' := Fates(windowMs, events, n - 1), Fates(windowMs, events, n);
    var key, cutoff := SortKey(events[n - 1].m), Cutoff(windowMs, s'.latest);
    assert Cutoff(windowMs, s.latest) <= cutoff;
    assert s'.buffer == Above(s.buffer[key := n - 1], cutoff);
    if i < n - 1 && Buffered(windowMs, events, i, n) {
      assert !SameKey(events, i, n - 1);
      assert Buffered(windowMs, events, i, n - 1);
    }
  }

  /** The key of arrival i arrives again, at event j, while i is buffered. */
  ghost predicate Pushed(windowMs: u64, events: seq<Event>, i: nat, j: nat) {
    i < j < |events| && Buffered(windowMs, events, i, j) && SameKey(events, i, j)
  }

  lemma DisplacedStep(windowMs: u64, events: seq<Event>, i: nat, n: nat)
    requires n < |events|
    ensures i in Fates(windowMs, events, n + 1).displaced <==>
              i in Fates(windowMs, events, n).displaced || Pushed(windowMs, events, i, n)
  {
    ClosedIffClose(windowMs, events, Self(), n);
    var s, e := Fates(windowMs, events, n), events[n];
    if e.Receive? {
      BufferClosedForm(windowMs, events, SortKey(e.m), i, n);
      assert Pushed(windowMs, events, i, n) <==> !s.closed && InBuffer(windowMs, events, SortKey(e.m), i, n);
    }
  }

  ghost predicate EverPushed(windowMs: u64, events: seq<Event>, i: nat, n: nat) {
    exists j :: 0 <= j < n && Pushed(windowMs, events, i, j)
  }

  lemma EverPushedStep(windowMs: u64, events: seq<Event>, i: nat, n: nat)
    ensures EverPushed(windowMs, events, i, n + 1) <==>
              EverPushed(windowMs, events, i, n) || Pushed(windowMs, events, i, n)
  {
  }

  /** A message is displaced exactly when its key arrives again while it is buffered. */
  lemma {:induction false} DisplacedExactly(windowMs: u64, events: seq<Event>, i: nat, n: nat)
    requires n <= |events|
    ensures i in Fates(windowMs, events, n).displaced <==> EverPushed(windowMs, events, i, n)
    decreases n
  {
    if n > 0 {
      DisplacedExactly(windowMs, events, i, n - 1);
      DisplacedStep(windowMs, events, i, n - 1);
      EverPushedStep(windowMs, events, i, n - 1);
    }
  }

  // ---- and so, which ones were processed ----

  lemma {:induction false} ReceivedOnce(events: seq<Event>, i: nat, n: nat)
    requires n <= |events|
    ensures Received(events, Self(), n)[i] == if i < n && events[i].Receive? && Live(events, i) then 1 else 0
    decreases n
  {
    if n > 0 { ReceivedOnce(events, i, n - 1); }
  }

  /** Of a live worker's arrivals exactly those are processed that are neither waiting nor displaced. */
  lemma ProcessedExactly(windowMs: u64, events: seq<Event>, i: nat, n: nat)
    requires n <= |events| && Live(events, n)
    ensures i in Fates(windowMs, events, n).processed <==>
              i < n && events[i].Receive? && !Buffered(windowMs, events, i, n) && !EverPushed(windowMs, events, i, n)
  {
    var s := Fates(windowMs, events, n);
    ArrivalsConserved(windowMs, events, n);
    ReceivedOnce(events, i, n);
    DisplacedExactly(windowMs, events, i, n);
    LoggedOnlyAtClose(windowMs, events, Self(), n);
    ClosedIffClose(windowMs, events, Self(), n);
    assert i in Bag(s.buffer) <==> Buffered(windowMs, events, i, n) by {
      BagHas(s.buffer, i);
      BufferedSomewhere(windowMs, events, i, n);
    }
    OneOfFour(s, i, Received(events, Self(), n));
  }

  lemma BufferedSomewhere(windowMs: u64, events: seq<Event>, i: nat, n: nat)
    requires n <= |events|
    ensures Buffered(windowMs, events, i, n) <==> i in Fates(windowMs, events, n).buffer.Values
  {
    var b := Fates(windowMs, events, n).buffer;
    if Buffered(windowMs, events, i, n) {
      BufferClosedForm(windowMs, events, SortKey(events[i].m), i, n);
      assert InBuffer(windowMs, events, SortKey(events[i].m), i, n);
    }
    if k :| k in b && b[k] == i {
      BufferClosedForm(windowMs, events, k, i, n);
      assert InBuffer(windowMs, events, k, i, n);
    }
  }

  lemma OneOfFour(s: State<nat>, i: nat, received: multiset<nat>)
    requires Accounted(s) == received && received[i] <= 1 && s.logged == []
    ensures i in s.processed <==> received[i] == 1 && i !in Bag(s.buffer) && i !in s.displaced
  {
    assert multiset(s.processed)[i] + Bag(s.buffer)[i] + multiset(s.displaced)[i] == received[i];
  }

  /** The first close logs exactly what waits, in key order, runs nothing through the pipeline,
      and ends the worker: no later event changes anything. */
  lemma CloseLogs(windowMs: u64, events: seq<Event>, n: nat)
    requires n < |events| && Live(events, n) && events[n].Close?
    ensures
      var s, s' := Fates(windowMs, events, n), Fates(windowMs, events, n + 1);
      && s'.logged == Listed(s.buffer) && s'.processed == s.processed && s'.displaced == s.displaced
      && s'.buffer == map[] && s'.closed
    ensures forall i: nat :: i in Fates(windowMs, events, n + 1).logged <==> Buffered(windowMs, events, i, n)
  {
    ClosedIffClose(windowMs, events, Self(), n);
    FatesStep(windowMs, events, n + 1);
    var s, s' := Fates(windowMs, events, n), Fates(windowMs, events, n + 1);
    forall i: nat ensures i in s'.logged <==> Buffered(windowMs, events, i, n) {
      ListedIsBag(s.buffer);
      BagHas(s.buffer, i);
      BufferedSomewhere(windowMs, events, i, n);
      assert i in multiset(s'.logged) <==> i in s'.logged;
    }
  }

  lemma {:induction false} ClosedForGood(windowMs: u64, events: seq<Event>, n: nat, m: nat)
    requires n <= m <= |events| && Fates(windowMs, events, n).closed
    ensures Fates(windowMs, events, m) == Fates(windowMs, events, n)
    decreases m
  {
    if n < m {
      ClosedForGood(windowMs, events, n, m - 1);
      FatesStep(windowMs, events, m);
    }
  }

  // ---- the messages the loop handles are the ones the positions name ----

  ghost function Named<T>(xs: seq<nat>, f: nat -> T): seq<T> {
    seq(|xs|, i requires 0 <= i < |xs| => f(xs[i]))
  }

  ghost function NamedBuffer<T>(b: map<int, nat>, f: nat -> T): map<int, T> {
    map k | k in b :: f(b[k])
  }

  ghost function NamedState<T>(s: State<nat>, f: nat -> T): State<T> {
    State(NamedBuffer(s.buffer, f), s.latest,
          Named(s.processed, f), Named(s.displaced, f), Named(s.logged, f), s.closed)
  }

  lemma {:induction false} ListedNamed<T>(b: map<int, nat>, f: nat -> T)
    ensures Listed(NamedBuffer(b, f)) == Named(Listed(b), f)
    decreases |b|
  {
    if b == map[] {
      assert NamedBuffer(b, f) == map[];
    } else {
      var least := Least(b.Keys);
      var nb := NamedBuffer(b, f);
      assert nb.Keys == b.Keys;
      assert NamedBuffer(b - {least}, f) == nb - {least};
      ListedNamed(b - {least}, f);
      assert Named([b[least]] + Listed(b - {least}), f) == [f(b[least])] + Named(Listed(b - {least}), f);
    }
  }

  lemma NamedConcat<T>(xs: seq<nat>, ys: seq<nat>, f: nat -> T)
    ensures Named(xs + ys, f) == Named(xs, f) + Named(ys, f)
  {
  }

  lemma StepNamed<T>(windowMs: u64, s: State<nat>, e: Event, i: nat, f: nat -> T)
    ensures NamedState(Step(windowMs, s, e, i), f) == Step(windowMs, NamedState(s, f), e, f(i))
  {
    if !s.closed {
      match e
      case Timer =>
        ListedNamed(s.buffer, f);
        NamedConcat(s.processed, Listed(s.buffer), f);
      case Close =>
        ListedNamed(s.buffer, f);
      case Receive(m, now) =>
        var key := SortKey(m);
        var filed := s.buffer[key := i];
        var cutoff := Cutoff(windowMs, Later(s.latest, now));
        ReceiveNamed(s.buffer, key, i, cutoff, f);
        ListedNamed(UpTo(filed, cutoff), f);
        NamedConcat(s.processed, Listed(UpTo(filed, cutoff)), f);
        if key in s.buffer { NamedConcat(s.displaced, [s.buffer[key]], f); }
    }
  }

  lemma ReceiveNamed<T>(b: map<int, nat>, key: int, i: nat, cutoff: int, f: nat -> T)
    ensures NamedBuffer(UpTo(b[key := i], cutoff), f) == UpTo(NamedBuffer(b, f)[key := f(i)], cutoff)
    ensures NamedBuffer(Above(b[key := i], cutoff), f) == Above(NamedBuffer(b, f)[key := f(i)], cutoff)
  {
  }

  /** What RunWorker processes, logs and keeps are the messages of the positions in Fates. */
  lemma {:induction false} RunNamed<T>(windowMs: u64, events: seq<Event>, f: nat -> T, n: nat)
    requires n <= |events|
    ensures Run(windowMs, events, f, n) == NamedState(Fates(windowMs, events, n), f)
    decreases n
  {
    if n == 0 {
      IdleNamed(f);
    } else {
      RunNamed(windowMs, events, f, n - 1);
      var s, e := Fates(windowMs, events, n - 1), events[n - 1];
      StepNamed(windowMs, s, e, n - 1, f);
      FatesStep(windowMs, events, n);
    }
  }

  lemma IdleNamed<T>(f: nat -> T)
    ensures NamedState(Idle(), f) == Idle()
  {
  }

  lemma FatesStep(windowMs: u64, events: seq<Event>, n: nat)
    requires 0 < n <= |events|
    ensures Fates(windowMs, events, n) == Step(windowMs, Fates(windowMs, events, n - 1), events[n - 1], n - 1)
  {
  }
}
