/** Threads calling `record` at once: each closure reads the chain head and inserts a row,
    as two statements, on the connection it checked out. */
module ConcurrentAudit {
  import opened Wrappers
  import opened Prelude
  import opened AuditChain
  import CP = ConnectionPool

  /** How far a thread's closure has come on its connection. */
  datatype Closure = Fresh | HasRead(prev: Option<Text>) | Finished

  datatype Sys = Sys(pool: CP.Pool, closures: map<CP.Thread, Closure>, log: seq<Row>)

  datatype Step =
    | PoolStep(step: CP.Step)
    | ReadHead(t: CP.Thread)
    | ReadFails(t: CP.Thread)      // the error is taken for an empty log
    | InsertRow(t: CP.Thread, routeKey: Option<Text>, action: Text, result: Text, now: i64)
    | InsertFails(t: CP.Thread)

  ghost predicate InClosure(s: Sys, t: CP.Thread) {
    t in s.pool.threads && s.pool.threads[t].Holding? && t in s.closures
  }

  ghost predicate Enabled(s: Sys, step: Step) {
    match step
    case PoolStep(p) =>
      CP.Enabled(s.pool, p) && (p.Return? ==> p.t in s.closures && s.closures[p.t] == Finished)
    case ReadHead(t) => InClosure(s, t) && s.closures[t] == Fresh
    case ReadFails(t) => InClosure(s, t) && s.closures[t] == Fresh
    case InsertRow(t, _, _, _, _) => InClosure(s, t) && s.closures[t].HasRead?
    case InsertFails(t) => InClosure(s, t) && s.closures[t].HasRead?
  }

  ghost function Apply(h: Digest, s: Sys, step: Step): Sys
    requires Enabled(s, step)
  {
    match step
    case PoolStep(p) =>
      Sys(CP.Apply(s.pool, p), if p.Enter? then s.closures[p.t := Fresh] else s.closures, s.log)
    case ReadHead(t) => s.(closures := s.closures[t := HasRead(Head(s.log))])
    case ReadFails(t) => s.(closures := s.closures[t := HasRead(None)])
    case InsertRow(t, routeKey, action, result, now) =>
      s.(log := s.log + [RowAfter(h, s.closures[t].prev, |s.log| + 1, routeKey, action, result, now)],
         closures := s.closures[t := Finished])
    case InsertFails(t) => s.(closures := s.closures[t := Finished])
  }

  ghost predicate Next(h: Digest, s: Sys, step: Step, s': Sys) {
    Enabled(s, step) && s' == Apply(h, s, step)
  }

  ghost predicate Start(conns: seq<CP.Conn>, threads: set<CP.Thread>, s: Sys) {
    CP.Start(conns, s.pool) && s.pool.threads.Keys == threads && s.closures == map[] && s.log == []
  }

  ghost predicate IsRun(h: Digest, states: seq<Sys>, steps: seq<Step>) {
    && |states| == |steps| + 1
    && forall i :: 0 <= i < |steps| ==> Next(h, states[i], steps[i], states[i + 1])
  }

  // ---- any pool: exactly which runs leave an accepted log ----

  /** A row goes in on a head that is not, or no longer, the head of the log. */
  ghost predicate Stale(s: Sys, step: Step) {
    step.InsertRow? && step.t in s.closures && s.closures[step.t].HasRead? && s.closures[step.t].prev != Head(s.log)
  }

  ghost predicate StaleAt(states: seq<Sys>, steps: seq<Step>, k: nat)
    requires k < |steps| < |states|
  {
    Stale(states[k], steps[k])
  }

  lemma StepAcceptedExactly(h: Digest, s: Sys, step: Step, s': Sys)
    requires Next(h, s, step, s')
    ensures Accepted(h, s'.log) <==> Accepted(h, s.log) && !Stale(s, step)
  {
    if step.InsertRow? {
      var row := RowAfter(h, s.closures[step.t].prev, |s.log| + 1, step.routeKey, step.action, step.result, step.now);
      AppendAcceptedExactly(h, s.log, row);
    }
  }

  /** With any number of connections and any failures, the log is accepted if and only if no
      row was inserted on a stale head. */
  lemma {:induction false} AcceptedExactly(h: Digest, states: seq<Sys>, steps: seq<Step>, n: nat)
    requires IsRun(h, states, steps) && states[0].log == [] && n <= |steps|
    ensures Accepted(h, states[n].log) <==> !exists k :: 0 <= k < n && StaleAt(states, steps, k)
    decreases n
  {
    if n > 0 {
      AcceptedExactly(h, states, steps, n - 1);
      assert Next(h, states[n - 1], steps[n - 1], states[n]);
      StepAcceptedExactly(h, states[n - 1], steps[n - 1], states[n]);
      assert Stale(states[n - 1], steps[n - 1]) <==> StaleAt(states, steps, n - 1);
    }
  }

  // ---- one connection: only a failed read can make a head stale ----

  /** A closure that has read still holds its connection, and the head it read is current,
      or was taken for empty if reads may fail. */
  ghost predicate Inv(conns: set<CP.Conn>, s: Sys, readsFail: bool) {
    && CP.Partition(conns, s.pool)
    && (forall t :: t in s.closures && s.closures[t].HasRead? ==>
          && InClosure(s, t)
          && (s.closures[t].prev == Head(s.log) || (readsFail && s.closures[t].prev == None)))
    && (forall t :: t in s.pool.threads && s.pool.threads[t].Holding? ==> t in s.closures)
    && (forall t :: t in s.pool.threads && (s.pool.threads[t] == CP.Waiting || s.pool.threads[t] == CP.Notified) ==>
          t in s.closures && s.closures[t] == Fresh)
  }

  lemma OnlyHolder(conns: set<CP.Conn>, p: CP.Pool, t: CP.Thread, u: CP.Thread)
    requires CP.Partition(conns, p) && |conns| == 1
    requires t in p.threads && u in p.threads && p.threads[t].Holding? && p.threads[u].Holding?
    ensures t == u
  {
    var c, d := p.threads[t].conn, p.threads[u].conn;
    assert CP.Holds(p, t, c) && CP.Holds(p, u, d);
    assert c == d by {
      if c != d { assert {c, d} <= conns; SubsetCount({c, d}, conns); }
    }
  }

  lemma InsertKeepsInv(h: Digest, conns: set<CP.Conn>, s: Sys, step: Step, s': Sys, readsFail: bool)
    requires Inv(conns, s, readsFail) && |conns| == 1 && Next(h, s, step, s') && step.InsertRow?
    ensures Inv(conns, s', readsFail)
  {
    forall u | u in s'.closures && s'.closures[u].HasRead? ensures false {
      OnlyHolder(conns, s.pool, step.t, u);
    }
  }

  lemma StepKeepsInv(h: Digest, conns: set<CP.Conn>, s: Sys, step: Step, s': Sys, readsFail: bool)
    requires Inv(conns, s, readsFail) && |conns| == 1 && Next(h, s, step, s') && (step.ReadFails? ==> readsFail)
    ensures Inv(conns, s', readsFail)
  {
    match step
    case PoolStep(p) => CP.StepKeepsPartition(conns, s.pool, p, s'.pool);
    case ReadHead(t) =>
    case ReadFails(t) =>
    case InsertFails(t) =>
    case InsertRow(_, _, _, _, _) => InsertKeepsInv(h, conns, s, step, s', readsFail);
  }

  ghost predicate NoReadFails(steps: seq<Step>) {
    forall i :: 0 <= i < |steps| ==> !steps[i].ReadFails?
  }

  lemma {:induction false} OneConnectionInv(
      h: Digest, c: CP.Conn, threads: set<CP.Thread>, states: seq<Sys>, steps: seq<Step>, n: nat, readsFail: bool)
    requires IsRun(h, states, steps) && Start([c], threads, states[0]) && n <= |steps|
    requires readsFail || NoReadFails(steps)
    ensures Inv({c}, states[n], readsFail)
    decreases n
  {
    if n == 0 {
      CP.StartInv([c], states[0].pool);
      assert Elems([c]) == {c};
    } else {
      OneConnectionInv(h, c, threads, states, steps, n - 1, readsFail);
      assert Next(h, states[n - 1], steps[n - 1], states[n]);
      StepKeepsInv(h, {c}, states[n - 1], steps[n - 1], states[n], readsFail);
    }
  }

  /** A row without a link goes into a log that is not empty. */
  ghost predicate Unlinked(s: Sys, step: Step) {
    step.InsertRow? && step.t in s.closures && s.closures[step.t] == HasRead(None) && s.log != []
  }

  ghost predicate UnlinkedAt(states: seq<Sys>, steps: seq<Step>, k: nat)
    requires k < |steps| < |states|
  {
    Unlinked(states[k], steps[k])
  }

  /** With one connection, in every interleaving and with any failures: the log is accepted if
      and only if no insert followed a failed read of a log that was not empty. */
  lemma OneConnectionExactly(
      h: Digest, c: CP.Conn, threads: set<CP.Thread>, states: seq<Sys>, steps: seq<Step>, n: nat)
    requires IsRun(h, states, steps) && Start([c], threads, states[0]) && n <= |steps|
    ensures Accepted(h, states[n].log) <==> !exists k :: 0 <= k < n && UnlinkedAt(states, steps, k)
  {
    AcceptedExactly(h, states, steps, n);
    forall k | 0 <= k < n ensures StaleAt(states, steps, k) <==> UnlinkedAt(states, steps, k) {
      OneConnectionInv(h, c, threads, states, steps, k, true);
    }
  }

  /** And so accepted in every interleaving in which no read fails. */
  lemma OneConnectionSerialises(
      h: Digest, c: CP.Conn, threads: set<CP.Thread>, states: seq<Sys>, steps: seq<Step>, n: nat)
    requires IsRun(h, states, steps) && Start([c], threads, states[0]) && n <= |steps| && NoReadFails(steps)
    ensures Inv({c}, states[n], false) && Accepted(h, states[n].log)
  {
    OneConnectionInv(h, c, threads, states, steps, n, false);
    AcceptedExactly(h, states, steps, n);
    forall k | 0 <= k < n ensures !StaleAt(states, steps, k) {
      OneConnectionInv(h, c, threads, states, steps, k, false);
    }
  }

  // ---- two connections: two closures read the same head ----

  lemma ForkedLogIsRejected(h: Digest, a: Row, b: Row)
    requires a.prevHash == None && b.prevHash == None
    ensures !Accepted(h, [a, b])
  {
    assert !RowHolds(h, [a, b], 1);
  }

  lemma RunGrows(h: Digest, states: seq<Sys>, steps: seq<Step>, step: Step)
    requires IsRun(h, states, steps) && Enabled(states[|steps|], step)
    ensures IsRun(h, states + [Apply(h, states[|steps|], step)], steps + [step])
  {
    var states', steps' := states + [Apply(h, states[|steps|], step)], steps + [step];
    forall i | 0 <= i < |steps'| ensures Next(h, states'[i], steps'[i], states'[i + 1]) {
      if i < |steps| { assert Next(h, states[i], steps[i], states[i + 1]); }
    }
  }

  lemma BothEnter(h: Digest, conns: seq<CP.Conn>, threads: set<CP.Thread>, t: CP.Thread, u: CP.Thread, s0: Sys)
      returns (states: seq<Sys>, steps: seq<Step>)
    requires |conns| >= 2 && t in threads && u in threads && t != u && Start(conns, threads, s0)
    ensures IsRun(h, states, steps) && states[0] == s0 && NoReadFails(steps)
    ensures
      var s := states[|steps|];
      s.log == [] && InClosure(s, t) && InClosure(s, u) && s.closures == map[t := Fresh, u := Fresh]
  {
    states, steps := Extend(h, [s0], [], PoolStep(CP.Enter(t)));
    states, steps := Extend(h, states, steps, PoolStep(CP.Enter(u)));
  }

  /** Both threads enter, both read the empty head, both insert a genesis row. */
  lemma TwoConnectionsFork(h: Digest, conns: seq<CP.Conn>, threads: set<CP.Thread>, t: CP.Thread, u: CP.Thread, s0: Sys)
      returns (states: seq<Sys>, steps: seq<Step>)
    requires |conns| >= 2 && t in threads && u in threads && t != u && Start(conns, threads, s0)
    ensures IsRun(h, states, steps) && states[0] == s0 && NoReadFails(steps)
    ensures !Accepted(h, states[|steps|].log)
  {
    states, steps := BothEnter(h, conns, threads, t, u, s0);
    states, steps := Extend(h, states, steps, ReadHead(t));
    states, steps := Extend(h, states, steps, ReadHead(u));
    states, steps := Extend(h, states, steps, InsertRow(t, None, [], [], 0));
    states, steps := Extend(h, states, steps, InsertRow(u, None, [], [], 0));
    var row := RowAfter(h, None, 1, None, [], [], 0);
    assert states[|steps|].log == [row, row.(id := 2)];
    ForkedLogIsRejected(h, row, row.(id := 2));
  }

  lemma Extend(h: Digest, states: seq<Sys>, steps: seq<Step>, step: Step)
      returns (states': seq<Sys>, steps': seq<Step>)
    requires IsRun(h, states, steps) && Enabled(states[|steps|], step)
    ensures IsRun(h, states', steps') && states'[0] == states[0]
    ensures states'[|steps'|] == Apply(h, states[|steps|], step)
    ensures NoReadFails(steps) && !step.ReadFails? ==> NoReadFails(steps')
  {
    RunGrows(h, states, steps, step);
    states', steps' := states + [Apply(h, states[|steps|], step)], steps + [step];
  }

  /** One thread alone on one connection, between two calls of `record`. */
  ghost predicate Alone(s: Sys, c: CP.Conn, t: CP.Thread) {
    s.pool == CP.Pool([c], map[t := CP.Outside])
  }

  lemma EnterAndRead(h: Digest, states: seq<Sys>, steps: seq<Step>, c: CP.Conn, t: CP.Thread, read: Step)
      returns (states': seq<Sys>, steps': seq<Step>)
    requires IsRun(h, states, steps) && Alone(states[|steps|], c, t) && (read == ReadHead(t) || read == ReadFails(t))
    ensures IsRun(h, states', steps') && states'[0] == states[0]
    ensures
      var s, s' := states[|steps|], states'[|steps'|];
      && s'.pool == CP.Pool([], map[t := CP.Holding(c)]) && s'.log == s.log
      && t in s'.closures && s'.closures[t] == HasRead(if read.ReadHead? then Head(s.log) else None)
  {
    states', steps' := Extend(h, states, steps, PoolStep(CP.Enter(t)));
    states', steps' := Extend(h, states', steps', read);
  }

  lemma InsertAndReturn(h: Digest, states: seq<Sys>, steps: seq<Step>, c: CP.Conn, t: CP.Thread)
      returns (states': seq<Sys>, steps': seq<Step>)
    requires IsRun(h, states, steps) && states[|steps|].pool == CP.Pool([], map[t := CP.Holding(c)])
    requires t in states[|steps|].closures && states[|steps|].closures[t].HasRead?
    ensures IsRun(h, states', steps') && states'[0] == states[0] && Alone(states'[|steps'|], c, t)
    ensures
      var s, s' := states[|steps|], states'[|steps'|];
      s'.log == s.log + [RowAfter(h, s.closures[t].prev, |s.log| + 1, None, [], [], 0)]
  {
    states', steps' := Extend(h, states, steps, InsertRow(t, None, [], [], 0));
    states', steps' := Extend(h, states', steps', PoolStep(CP.Return(t, None)));
  }

  /** It does happen: a single thread on a single connection records once, then once more
      with a failed read, and the log is rejected. */
  lemma FailedReadForks(h: Digest, c: CP.Conn, t: CP.Thread) returns (states: seq<Sys>, steps: seq<Step>)
    ensures IsRun(h, states, steps) && Start([c], {t}, states[0]) && !Accepted(h, states[|steps|].log)
  {
    var s0 := Sys(CP.Pool([c], map[t := CP.Outside]), map[], []);
    states, steps := EnterAndRead(h, [s0], [], c, t, ReadHead(t));
    states, steps := InsertAndReturn(h, states, steps, c, t);
    states, steps := EnterAndRead(h, states, steps, c, t, ReadFails(t));
    states, steps := InsertAndReturn(h, states, steps, c, t);
    var row := RowAfter(h, None, 1, None, [], [], 0);
    assert states[|steps|].log == [row, row.(id := 2)];
    ForkedLogIsRejected(h, row, row.(id := 2));
  }

  /** In every run in which no read fails. */
  ghost predicate AlwaysAccepted(h: Digest, conns: seq<CP.Conn>, threads: set<CP.Thread>) {
    forall states: seq<Sys>, steps: seq<Step>, n: nat ::
      IsRun(h, states, steps) && Start(conns, threads, states[0]) && NoReadFails(steps) && n <= |steps| ==>
        Accepted(h, states[n].log)
  }

  /** With two or more recording threads, every run without a failed read leaves a log that
      startup verification accepts exactly when the pool has a single connection. */
  lemma SerialIffOneConnection(h: Digest, conns: seq<CP.Conn>, threads: set<CP.Thread>, t: CP.Thread, u: CP.Thread)
    requires CP.Distinct(conns) && conns != [] && t in threads && u in threads && t != u
    ensures AlwaysAccepted(h, conns, threads) <==> |conns| == 1
  {
    if |conns| == 1 {
      assert conns == [conns[0]];
      forall states: seq<Sys>, steps: seq<Step>, n: nat
        | IsRun(h, states, steps) && Start(conns, threads, states[0]) && NoReadFails(steps) && n <= |steps|
        ensures Accepted(h, states[n].log)
      {
        OneConnectionSerialises(h, conns[0], threads, states, steps, n);
      }
    } else {
      var s0 := Sys(CP.Pool(conns, map x | x in threads :: CP.Outside), map[], []);
      var states, steps := TwoConnectionsFork(h, conns, threads, t, u, s0);
      assert !Accepted(h, states[|steps|].log);
    }
  }
}
