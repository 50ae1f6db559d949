/** The connection pool: threads check a connection out of a shared queue under a mutex,
    wait on a condition variable while it is empty, and wake one waiter on return. Each
    critical section is one step; closures do not panic. */
module ConnectionPool {
  import opened Wrappers
  import opened Prelude

  type Conn = nat
  type Thread = nat

  datatype Phase =
    | Outside
    | Waiting            // asleep on the condition variable, not notified
    | Notified           // woken, still to retake the mutex and look again
    | Holding(conn: Conn)

  datatype Pool = Pool(free: seq<Conn>, threads: map<Thread, Phase>)

  datatype Step =
    | Enter(t: Thread)
    | Resume(t: Thread)
    | Return(t: Thread, woken: Option<Thread>)
    | Spurious(t: Thread)

  ghost predicate Enabled(p: Pool, step: Step) {
    && step.t in p.threads
    && match step
       case Enter(t) => p.threads[t] == Outside
       case Resume(t) => p.threads[t] == Notified
       case Spurious(t) => p.threads[t] == Waiting
       case Return(t, woken) =>
         && p.threads[t].Holding?
         && (if woken.Some? then woken.value in p.threads && p.threads[woken.value] == Waiting
             else forall w :: w in p.threads ==> p.threads[w] != Waiting)
  }

  /** The loop test and what follows it: take the front connection, or (keep) wait(ing). */
  function Checkout(p: Pool, t: Thread): Pool {
    if p.free == [] then p.(threads := p.threads[t := Waiting])
    else Pool(p.free[1..], p.threads[t := Holding(p.free[0])])
  }

  function Apply(p: Pool, step: Step): Pool
    requires step.t in p.threads && (step.Return? ==> p.threads[step.t].Holding?)
  {
    match step
    case Enter(t) => Checkout(p, t)
    case Resume(t) => Checkout(p, t)
    case Spurious(t) => p.(threads := p.threads[t := Notified])
    case Return(t, woken) =>
      var left := p.threads[t := Outside];
      Pool(p.free + [p.threads[t].conn], if woken.Some? then left[woken.value := Notified] else left)
  }

  ghost predicate Next(p: Pool, step: Step, p': Pool) {
    Enabled(p, step) && p' == Apply(p, step)
  }

  ghost predicate IsRun(pools: seq<Pool>, steps: seq<Step>) {
    && |pools| == |steps| + 1
    && forall i :: 0 <= i < |steps| ==> Next(pools[i], steps[i], pools[i + 1])
  }

  // ---- free and held connections partition the initial set ----

  ghost predicate Distinct(s: seq<Conn>) {
    forall i, j :: 0 <= i < j < |s| ==> s[i] != s[j]
  }

  ghost predicate Holds(p: Pool, t: Thread, c: Conn) {
    t in p.threads && p.threads[t] == Holding(c)
  }

  ghost predicate Partition(conns: set<Conn>, p: Pool) {
    && Distinct(p.free)
    && (forall c :: c in p.free ==> c in conns)
    && (forall t, c :: Holds(p, t, c) ==> c in conns && c !in p.free)
    && (forall t, u, c :: Holds(p, t, c) && Holds(p, u, c) ==> t == u)
    && (forall c :: c in conns ==> c in p.free || exists t :: Holds(p, t, c))
  }

  // ---- no wakeup is lost ----

  ghost function Waiters(p: Pool): set<Thread> {
    set t | t in p.threads && p.threads[t] == Waiting
  }

  ghost function Woken(p: Pool): set<Thread> {
    set t | t in p.threads && p.threads[t] == Notified
  }

  ghost function Busy(p: Pool): set<Thread> {
    set t | t in p.threads && p.threads[t] != Outside
  }

  /** While anybody sleeps un-notified, free connections never outnumber woken threads. */
  ghost predicate NoLostWakeup(p: Pool) {
    Waiters(p) != {} ==> |p.free| <= |Woken(p)|
  }

  ghost predicate Inv(conns: set<Conn>, p: Pool) {
    Partition(conns, p) && NoLostWakeup(p)
  }

  lemma CheckoutKeepsPartition(conns: set<Conn>, p: Pool, t: Thread)
    requires Partition(conns, p) && t in p.threads && !p.threads[t].Holding?
    ensures Partition(conns, Checkout(p, t))
  {
    var p' := Checkout(p, t);
    if p.free != [] {
      assert p.free == [p.free[0]] + p'.free;
      assert Holds(p', t, p.free[0]);
      forall c | c in conns ensures c in p'.free || exists u :: Holds(p', u, c) {
        if c !in p.free {
          var u :| Holds(p, u, c);
          assert Holds(p', u, c);
        }
      }
      forall u, c | Holds(p', u, c) && u != t ensures Holds(p, u, c) {}
    } else {
      forall u, c ensures Holds(p', u, c) <==> Holds(p, u, c) {}
    }
  }

  lemma ReturnKeepsPartition(conns: set<Conn>, p: Pool, t: Thread, woken: Option<Thread>)
    requires Partition(conns, p) && Enabled(p, Return(t, woken))
    ensures Partition(conns, Apply(p, Return(t, woken)))
  {
    var p' := Apply(p, Return(t, woken));
    var mine := p.threads[t].conn;
    assert Holds(p, t, mine);
    forall u, c ensures Holds(p', u, c) <==> Holds(p, u, c) && u != t {}
    forall c | c in conns ensures c in p'.free || exists u :: Holds(p', u, c) {
      if c !in p.free && c != mine {
        var u :| Holds(p, u, c);
        assert Holds(p', u, c);
      }
    }
  }

  lemma StepKeepsPartition(conns: set<Conn>, p: Pool, step: Step, p': Pool)
    requires Partition(conns, p) && Next(p, step, p')
    ensures Partition(conns, p')
  {
    match step
    case Enter(t) => CheckoutKeepsPartition(conns, p, t);
    case Resume(t) => CheckoutKeepsPartition(conns, p, t);
    case Spurious(t) => forall u, c ensures Holds(p', u, c) <==> Holds(p, u, c) {}
    case Return(t, woken) => ReturnKeepsPartition(conns, p, t, woken);
  }

  lemma CheckoutKeepsWakeups(p: Pool, t: Thread)
    requires NoLostWakeup(p) && t in p.threads && (p.threads[t] == Outside || p.threads[t] == Notified)
    ensures NoLostWakeup(Checkout(p, t))
  {
    var p' := Checkout(p, t);
    assert Woken(p') == Woken(p) - {t};
    if p.free != [] { assert Waiters(p') == Waiters(p); }
  }

  lemma ReturnKeepsWakeups(p: Pool, t: Thread, woken: Option<Thread>)
    requires NoLostWakeup(p) && Enabled(p, Return(t, woken))
    ensures NoLostWakeup(Apply(p, Return(t, woken)))
  {
    var p' := Apply(p, Return(t, woken));
    if woken.Some? {
      assert Woken(p') == Woken(p) + {woken.value};
      assert woken.value in Waiters(p);
    } else {
      assert Waiters(p') == {};
    }
  }

  lemma StepKeepsWakeups(p: Pool, step: Step, p': Pool)
    requires NoLostWakeup(p) && Next(p, step, p')
    ensures NoLostWakeup(p')
  {
    match step
    case Enter(t) => CheckoutKeepsWakeups(p, t);
    case Resume(t) => CheckoutKeepsWakeups(p, t);
    case Spurious(t) =>
      assert t in Waiters(p);
      assert Woken(p') == Woken(p) + {t};
    case Return(t, woken) => ReturnKeepsWakeups(p, t, woken);
  }

  ghost predicate Start(conns: seq<Conn>, p: Pool) {
    Distinct(conns) && p.free == conns && forall t :: t in p.threads ==> p.threads[t] == Outside
  }

  lemma StartInv(conns: seq<Conn>, p: Pool)
    requires Start(conns, p)
    ensures Inv(Elems(conns), p)
  {
    assert Waiters(p) == {};
  }

  /** In every interleaving each connection is free or held by exactly one thread, and no
      sleeping thread is left behind while connections are available. */
  lemma {:induction false} EveryInterleaving(conns: seq<Conn>, pools: seq<Pool>, steps: seq<Step>, n: nat)
    requires IsRun(pools, steps) && Start(conns, pools[0]) && n <= |steps|
    ensures Inv(Elems(conns), pools[n])
    decreases n
  {
    if n == 0 {
      StartInv(conns, pools[0]);
    } else {
      EveryInterleaving(conns, pools, steps, n - 1);
      assert Next(pools[n - 1], steps[n - 1], pools[n]);
      StepKeepsPartition(Elems(conns), pools[n - 1], steps[n - 1], pools[n]);
      StepKeepsWakeups(pools[n - 1], steps[n - 1], pools[n]);
    }
  }

  // ---- connections rotate ----

  /** Connections handed out by the first n steps, in order. */
  ghost function Taken(pools: seq<Pool>, steps: seq<Step>, n: nat): seq<Conn>
    requires IsRun(pools, steps) && n <= |steps|
  {
    if n == 0 then []
    else
      var before, t := Taken(pools, steps, n - 1), steps[n - 1].t;
      if (steps[n - 1].Enter? || steps[n - 1].Resume?) && t in pools[n].threads && pools[n].threads[t].Holding?
      then before + [pools[n].threads[t].conn] else before
  }

  /** Connections given back by them, in order. */
  ghost function GivenBack(pools: seq<Pool>, steps: seq<Step>, n: nat): seq<Conn>
    requires IsRun(pools, steps) && n <= |steps|
  {
    if n == 0 then []
    else
      assert Next(pools[n - 1], steps[n - 1], pools[n]);
      var before := GivenBack(pools, steps, n - 1);
      if steps[n - 1].Return? then before + [pools[n - 1].threads[steps[n - 1].t].conn] else before
  }

  /** First in, first out: what was handed out and what is free are together the initial
      connections followed by those given back, in this very order. */
  lemma {:induction false} FirstInFirstOut(conns: seq<Conn>, pools: seq<Pool>, steps: seq<Step>, n: nat)
    requires IsRun(pools, steps) && Start(conns, pools[0]) && n <= |steps|
    ensures Taken(pools, steps, n) + pools[n].free == conns + GivenBack(pools, steps, n)
    decreases n
  {
    if n > 0 {
      FirstInFirstOut(conns, pools, steps, n - 1);
      var p, step, p' := pools[n - 1], steps[n - 1], pools[n];
      assert Next(p, step, p');
      var taken, back := Taken(pools, steps, n - 1), GivenBack(pools, steps, n - 1);
      if step.Return? {
        Associate(taken, p.free, [p.threads[step.t].conn]);
        Associate(conns, back, [p.threads[step.t].conn]);
      } else if !step.Spurious? && p.free != [] {
        assert p.free == [p.free[0]] + p.free[1..];
        Associate(taken, [p.free[0]], p.free[1..]);
      }
    }
  }

  // ---- every waiting thread is served ----

  /** A sleeping thread always has somebody else to come: a holder or a woken thread. */
  lemma WaiterHasHelp(conns: set<Conn>, p: Pool, w: Thread)
    requires Inv(conns, p) && conns != {} && w in Waiters(p)
    ensures exists t :: t in p.threads && (p.threads[t] == Notified || p.threads[t].Holding?)
  {
    if Woken(p) != {} {
      var t :| t in Woken(p);
      assert p.threads[t] == Notified;
    } else {
      var c :| c in conns;
      assert |p.free| == 0;
      var t :| Holds(p, t, c);
      assert p.threads[t].Holding?;
    }
  }

  /** What is left to happen once nobody new arrives. */
  ghost function Work(p: Pool): nat {
    2 * |Busy(p)| + |Woken(p)|
  }

  lemma StepWorks(p: Pool, step: Step, p': Pool)
    requires Next(p, step, p') && (step.Resume? || step.Return?)
    ensures Work(p') < Work(p)
  {
    match step
    case Resume(t) =>
      assert Busy(p') == Busy(p);
      assert t in Woken(p);
      assert Woken(p') == Woken(p) - {t};
    case Return(t, woken) =>
      assert t in Busy(p);
      assert Busy(p') == Busy(p) - {t};
      if woken.Some? {
        assert Woken(p') == Woken(p) + {woken.value};
      } else {
        assert Woken(p') == Woken(p);
      }
  }

  /** A spurious wake-up costs one more look at the queue. */
  lemma SpuriousWorks(p: Pool, step: Step, p': Pool)
    requires Next(p, step, p') && step.Spurious?
    ensures Work(p') == Work(p) + 1
  {
    assert Busy(p') == Busy(p);
    assert step.t !in Woken(p) && Woken(p') == Woken(p) + {step.t};
  }

  function SpuriousFrom(steps: seq<Step>, from: nat): nat
    requires from <= |steps|
    decreases |steps| - from
  {
    if from == |steps| then 0 else SpuriousFrom(steps, from + 1) + if steps[from].Spurious? then 1 else 0
  }

  /** Once no thread arrives, at most Work(p) steps remain beside two for each thread that
      wakes by itself; and when no step is left but such, every thread has been served and gone. */
  lemma {:induction false} EveryoneIsServed(conns: seq<Conn>, pools: seq<Pool>, steps: seq<Step>, from: nat)
    requires IsRun(pools, steps) && Start(conns, pools[0]) && conns != [] && from <= |steps|
    requires forall i :: from <= i < |steps| ==> !steps[i].Enter?
    ensures |steps| - from <= Work(pools[from]) + 2 * SpuriousFrom(steps, from)
    ensures (forall step :: Enabled(pools[|steps|], step) ==> step.Enter? || step.Spurious?) ==>
              Busy(pools[|steps|]) == {}
    decreases |steps| - from
  {
    if from < |steps| {
      assert Next(pools[from], steps[from], pools[from + 1]);
      if steps[from].Spurious? {
        SpuriousWorks(pools[from], steps[from], pools[from + 1]);
      } else {
        StepWorks(pools[from], steps[from], pools[from + 1]);
      }
      EveryoneIsServed(conns, pools, steps, from + 1);
    } else {
      EveryInterleaving(conns, pools, steps, from);
      var p := pools[from];
      if forall step :: Enabled(p, step) ==> step.Enter? || step.Spurious? {
        QuietIsEmpty(conns, p);
      }
    }
  }

  lemma HolderCanReturn(p: Pool, t: Thread) returns (woken: Option<Thread>)
    requires t in p.threads && p.threads[t].Holding?
    ensures Enabled(p, Return(t, woken))
  {
    if w :| w in p.threads && p.threads[w] == Waiting {
      woken := Some(w);
    } else {
      woken := None;
    }
  }

  lemma QuietIsEmpty(conns: seq<Conn>, p: Pool)
    requires Inv(Elems(conns), p) && conns != []
    requires forall step :: Enabled(p, step) ==> step.Enter? || step.Spurious?
    ensures Busy(p) == {}
  {
    forall t | t in p.threads ensures p.threads[t] != Notified && !p.threads[t].Holding? {
      assert !Enabled(p, Resume(t));
      if p.threads[t].Holding? {
        var _ := HolderCanReturn(p, t);
      }
    }
    forall w | w in p.threads ensures p.threads[w] == Outside {
      if p.threads[w] == Waiting {
        assert conns[0] in Elems(conns) && w in Waiters(p);
        WaiterHasHelp(Elems(conns), p, w);
      }
    }
  }
}
