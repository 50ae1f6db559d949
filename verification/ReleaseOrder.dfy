/** Release order of the reorder window: kept between flushes, and exactly when across them. */
module ReleaseOrder {
  import opened Prelude
  import opened Reorder
  import opened RouteWorker

  /** Arrival i is on time: its key is above the cutoff in force before it. */
  ghost predicate OnTime(windowMs: u64, events: seq<Event>, i: nat) {
    i < |events| && events[i].Receive? && SortKey(events[i].m) > Cutoff(windowMs, Fates(windowMs, events, i).latest)
  }

  function KeyOf(events: seq<Event>, i: nat): int {
    if i < |events| && events[i].Receive? then SortKey(events[i].m) else 0
  }

  /** The timer fires after arrival k and before arrival i. */
  predicate FlushBetween(events: seq<Event>, k: nat, i: nat) {
    exists j :: k < j < i && j < |events| && events[j].Timer?
  }

  // ---- what one event of a live worker does ----

  /** The window just before event n lets go of anything. */
  ghost function Leaving(windowMs: u64, events: seq<Event>, n: nat): map<int, nat>
    requires n < |events|
  {
    var s := Fates(windowMs, events, n);
    match events[n]
    case Receive(m, now) => UpTo(s.buffer[SortKey(m) := n], Cutoff(windowMs, Later(s.latest, now)))
    case Timer => s.buffer
    case Close => map[]
  }

  /** What event n released, in order. */
  ghost function ReleasedBy(windowMs: u64, events: seq<Event>, n: nat): seq<nat>
    requires n < |events|
  {
    Listed(Leaving(windowMs, events, n))
  }

  /** What the window releases is what the worker runs through the pipeline, in that order. */
  lemma ReleasedIsProcessed(windowMs: u64, events: seq<Event>, n: nat)
    requires n < |events| && Live(events, n + 1)
    ensures
      var s, s' := Fates(windowMs, events, n), Fates(windowMs, events, n + 1);
      && s.latest <= s'.latest && s'.processed == s.processed + ReleasedBy(windowMs, events, n)
      && (events[n].Receive? ==> s'.latest == Later(s.latest, events[n].now))
  {
    ClosedIffClose(windowMs, events, Self(), n);
    FatesStep(windowMs, events, n + 1);
  }

  ghost predicate Grown(s: State<nat>, s': State<nat>) {
    s.latest <= s'.latest && s.processed <= s'.processed
  }

  lemma LatestGrows(windowMs: u64, events: seq<Event>, a: nat, n: nat)
    requires a <= n <= |events| && Live(events, n)
    ensures Grown(Fates(windowMs, events, a), Fates(windowMs, events, n))
  {
    for i := a to n
      invariant Grown(Fates(windowMs, events, a), Fates(windowMs, events, i))
    {
      ReleasedIsProcessed(windowMs, events, i);
    }
  }

  lemma CutoffGrows(windowMs: u64, a: i64, b: i64)
    requires a <= b
    ensures Cutoff(windowMs, a) <= Cutoff(windowMs, b)
  {
  }

  /** What waits under key k is an arrival with that key, above the cutoff, that was on time
      and after which no timer has fired. */
  lemma Waiting(windowMs: u64, events: seq<Event>, k: int, n: nat)
    requires n <= |events| && Live(events, n) && k in Fates(windowMs, events, n).buffer
    ensures
      var s := Fates(windowMs, events, n);
      var i := s.buffer[k];
      && i < n && events[i].Receive? && SortKey(events[i].m) == k > Cutoff(windowMs, s.latest)
      && OnTime(windowMs, events, i) && !FlushBetween(events, i, n)
  {
    var i := Fates(windowMs, events, n).buffer[k];
    BufferClosedForm(windowMs, events, k, i, n);
    assert InBuffer(windowMs, events, k, i, n);
    LatestGrows(windowMs, events, i, n);
    CutoffGrows(windowMs, Fates(windowMs, events, i).latest, Fates(windowMs, events, n).latest);
  }

  // ---- the window in plain arithmetic ----

  ghost predicate LargestSoFar(events: seq<Event>, n: nat, latest: int) {
    && n <= |events| && latest >= 0
    && (forall i :: 0 <= i < n && events[i].Receive? ==> events[i].now <= latest)
    && (latest == 0 || exists i :: 0 <= i < n && events[i].Receive? && events[i].now == latest)
  }

  lemma LargestStep(events: seq<Event>, n: nat, latest: int, latest': int)
    requires n < |events| && LargestSoFar(events, n, latest)
    requires latest' == if events[n].Receive? && events[n].now > latest then events[n].now else latest
    ensures LargestSoFar(events, n + 1, latest')
  {
  }

  lemma LatestStep(windowMs: u64, events: seq<Event>, n: nat)
    requires n < |events| && Live(events, n + 1)
    ensures
      var latest := Fates(windowMs, events, n).latest;
      Fates(windowMs, events, n + 1).latest
      == if events[n].Receive? && events[n].now > latest then events[n].now else latest
  {
    ClosedIffClose(windowMs, events, Self(), n);
    FatesStep(windowMs, events, n + 1);
  }

  /** The clock the cutoff follows is the largest arrival time so far, and never below 0. */
  lemma LatestIsMax(windowMs: u64, events: seq<Event>, n: nat)
    requires n <= |events| && Live(events, n)
    ensures LargestSoFar(events, n, Fates(windowMs, events, n).latest)
  {
    for i := 0 to n
      invariant LargestSoFar(events, i, Fates(windowMs, events, i).latest)
    {
      LatestStep(windowMs, events, i);
      LargestStep(events, i, Fates(windowMs, events, i).latest, Fates(windowMs, events, i + 1).latest);
    }
  }

  /** Nothing but the cutoff can have moved arrival i: no timer and no equal key since. */
  ghost predicate Unmoved(events: seq<Event>, i: nat, n: nat) {
    && i < n <= |events| && events[i].Receive?
    && forall j :: i < j < n ==> !events[j].Timer? && !SameKey(events, i, j)
  }

  /** Such a message, known by its sequence number or else its timestamp, waits exactly while it
      is later than the latest arrival less the window. A window beyond the signed range wraps
      around to one that lies in the future. */
  lemma WaitsExactly(windowMs: u64, events: seq<Event>, i: nat, n: nat)
    requires Unmoved(events, i, n) && Live(events, n)
    ensures
      var m, s := events[i].m, Fates(windowMs, events, n);
      var key := if m.sequence.Some? then m.sequence.value else m.timestampMs;
      var waits := i in s.buffer.Values;
      && (windowMs < 0x8000_0000_0000_0000 ==>
            (waits <==> key > s.latest - windowMs && key > -0x8000_0000_0000_0000))
      && (windowMs >= 0x8000_0000_0000_0000 ==>
            (waits <==> key > s.latest + (0x1_0000_0000_0000_0000 - windowMs)))
  {
    BufferedSomewhere(windowMs, events, i, n);
    LatestIsMax(windowMs, events, n);
  }

  /** A message on time is one later than the latest arrival before it less the window. */
  lemma OnTimeMeans(windowMs: u64, events: seq<Event>, i: nat)
    requires i < |events| && events[i].Receive? && windowMs < 0x8000_0000_0000_0000
    ensures
      var m, latest := events[i].m, Fates(windowMs, events, i).latest;
      var key := if m.sequence.Some? then m.sequence.value else m.timestampMs;
      OnTime(windowMs, events, i) <==> key > latest - windowMs && key > -0x8000_0000_0000_0000
  {
  }

  // ---- the invariant over every live prefix ----

  /** x has left: through the cutoff, or because a timer fired after it. */
  ghost predicate Gone(windowMs: u64, events: seq<Event>, x: nat, n: nat)
    requires n <= |events|
  {
    && x < n && events[x].Receive?
    && (KeyOf(events, x) <= Cutoff(windowMs, Fates(windowMs, events, n).latest) || FlushBetween(events, x, n))
  }

  /** An on-time y that leaves after x has a larger key, or a timer fired between them. */
  ghost predicate PairOk(windowMs: u64, events: seq<Event>, x: nat, y: nat) {
    OnTime(windowMs, events, y) ==> KeyOf(events, x) < KeyOf(events, y) || FlushBetween(events, x, y)
  }

  ghost predicate AllGone(windowMs: u64, events: seq<Event>, xs: seq<nat>, n: nat)
    requires n <= |events|
  {
    forall p :: 0 <= p < |xs| ==> Gone(windowMs, events, xs[p], n)
  }

  ghost predicate PairsOk(windowMs: u64, events: seq<Event>, xs: seq<nat>) {
    forall p, q :: 0 <= p < q < |xs| ==> PairOk(windowMs, events, xs[p], xs[q])
  }

  ghost predicate OrderOk(windowMs: u64, events: seq<Event>, n: nat)
    requires n <= |events|
  {
    var xs := Fates(windowMs, events, n).processed;
    AllGone(windowMs, events, xs, n) && PairsOk(windowMs, events, xs)
  }

  /** A leaving arrival: gone after the event, and if on time then above the old cutoff. */
  ghost predicate LeavesOk(windowMs: u64, events: seq<Event>, y: nat, n: nat)
    requires n < |events|
  {
    && Gone(windowMs, events, y, n + 1) && !FlushBetween(events, y, n)
    && (OnTime(windowMs, events, y) ==> KeyOf(events, y) > Cutoff(windowMs, Fates(windowMs, events, n).latest))
  }

  lemma EachLeavesOk(windowMs: u64, events: seq<Event>, k: int, n: nat)
    requires n < |events| && Live(events, n + 1) && k in Leaving(windowMs, events, n)
    ensures KeyOf(events, Leaving(windowMs, events, n)[k]) == k
    ensures LeavesOk(windowMs, events, Leaving(windowMs, events, n)[k], n)
  {
    ReleasedIsProcessed(windowMs, events, n);
    var s := Fates(windowMs, events, n);
    if events[n].Timer? {
      Waiting(windowMs, events, k, n);
      assert FlushBetween(events, s.buffer[k], n + 1);
    } else if k != SortKey(events[n].m) {
      Waiting(windowMs, events, k, n);
    }
  }

  lemma AllLeaveOk(windowMs: u64, events: seq<Event>, n: nat)
    requires n < |events| && Live(events, n + 1)
    ensures
      var ys := ReleasedBy(windowMs, events, n);
      && (forall q :: 0 <= q < |ys| ==> LeavesOk(windowMs, events, ys[q], n))
      && forall p, q :: 0 <= p < q < |ys| ==> KeyOf(events, ys[p]) < KeyOf(events, ys[q])
  {
    var low, ys := Leaving(windowMs, events, n), ReleasedBy(windowMs, events, n);
    var keys := SortedKeys(low.Keys);
    ListedByKey(low);
    SortedKeysAscend(low.Keys);
    forall q | 0 <= q < |ys| ensures LeavesOk(windowMs, events, ys[q], n) && KeyOf(events, ys[q]) == keys[q] {
      EachLeavesOk(windowMs, events, keys[q], n);
    }
  }

  lemma StaysGone(windowMs: u64, events: seq<Event>, x: nat, n: nat)
    requires n < |events| && Live(events, n + 1) && Gone(windowMs, events, x, n)
    ensures Gone(windowMs, events, x, n + 1)
  {
    ReleasedIsProcessed(windowMs, events, n);
    CutoffGrows(windowMs, Fates(windowMs, events, n).latest, Fates(windowMs, events, n + 1).latest);
  }

  lemma GoneBefore(windowMs: u64, events: seq<Event>, x: nat, y: nat, n: nat)
    requires n < |events| && Gone(windowMs, events, x, n) && LeavesOk(windowMs, events, y, n)
    ensures PairOk(windowMs, events, x, y)
  {
    if OnTime(windowMs, events, y) && FlushBetween(events, x, n) {
      var j :| x < j < n && j < |events| && events[j].Timer?;
      assert j < y;
    }
  }

  lemma OrderStep(windowMs: u64, events: seq<Event>, n: nat)
    requires n < |events| && Live(events, n + 1) && OrderOk(windowMs, events, n)
    ensures OrderOk(windowMs, events, n + 1)
  {
    var xs, ys := Fates(windowMs, events, n).processed, ReleasedBy(windowMs, events, n);
    ReleasedIsProcessed(windowMs, events, n);
    AllLeaveOk(windowMs, events, n);
    forall p | 0 <= p < |xs| ensures Gone(windowMs, events, xs[p], n + 1) {
      StaysGone(windowMs, events, xs[p], n);
    }
    forall p, q | 0 <= p < |xs| && 0 <= q < |ys| ensures PairOk(windowMs, events, xs[p], ys[q]) {
      GoneBefore(windowMs, events, xs[p], ys[q], n);
    }
    AppendOk(windowMs, events, xs, ys, n + 1);
  }

  lemma AppendOk(windowMs: u64, events: seq<Event>, xs: seq<nat>, ys: seq<nat>, n: nat)
    requires n <= |events|
    requires AllGone(windowMs, events, xs, n) && AllGone(windowMs, events, ys, n)
    requires PairsOk(windowMs, events, xs) && PairsOk(windowMs, events, ys)
    requires forall p, q :: 0 <= p < |xs| && 0 <= q < |ys| ==> PairOk(windowMs, events, xs[p], ys[q])
    ensures AllGone(windowMs, events, xs + ys, n) && PairsOk(windowMs, events, xs + ys)
  {
  }

  lemma OrderHolds(windowMs: u64, events: seq<Event>, n: nat)
    requires n <= |events| && Live(events, n)
    ensures OrderOk(windowMs, events, n)
  {
    for i := 0 to n
      invariant OrderOk(windowMs, events, i)
    {
      OrderStep(windowMs, events, i);
    }
  }

  // ---- on-time keys as a list ----

  ghost function OnTimeKeys(windowMs: u64, events: seq<Event>, xs: seq<nat>): seq<int> {
    if xs == [] then []
    else
      var front, last := OnTimeKeys(windowMs, events, xs[..|xs| - 1]), xs[|xs| - 1];
      if OnTime(windowMs, events, last) then front + [KeyOf(events, last)] else front
  }

  ghost predicate AllBelow(ks: seq<int>, top: int) {
    forall q :: 0 <= q < |ks| ==> ks[q] < top
  }

  ghost predicate OnTimeBelow(windowMs: u64, events: seq<Event>, xs: seq<nat>, top: int) {
    forall p :: 0 <= p < |xs| && OnTime(windowMs, events, xs[p]) ==> KeyOf(events, xs[p]) < top
  }

  lemma BelowSnoc(ks: seq<int>, k: int, top: int)
    ensures AllBelow(ks + [k], top) <==> AllBelow(ks, top) && k < top
  {
    var all := ks + [k];
    assert all[|ks|] == k && forall q :: 0 <= q < |ks| ==> all[q] == ks[q];
  }

  lemma {:induction false} OnTimeKeysBelow(windowMs: u64, events: seq<Event>, xs: seq<nat>, top: int)
    ensures AllBelow(OnTimeKeys(windowMs, events, xs), top) <==> OnTimeBelow(windowMs, events, xs, top)
  {
    if xs != [] {
      var front, last := xs[..|xs| - 1], xs[|xs| - 1];
      OnTimeKeysBelow(windowMs, events, front, top);
      BelowSnoc(OnTimeKeys(windowMs, events, front), KeyOf(events, last), top);
      assert OnTimeBelow(windowMs, events, xs, top) <==>
          && OnTimeBelow(windowMs, events, front, top)
          && (OnTime(windowMs, events, last) ==> KeyOf(events, last) < top)
      by {
        assert forall p :: 0 <= p < |front| ==> front[p] == xs[p];
      }
    }
  }

  ghost predicate OnTimePairsAscend(windowMs: u64, events: seq<Event>, xs: seq<nat>) {
    forall p, q :: 0 <= p < q < |xs| && OnTime(windowMs, events, xs[p]) && OnTime(windowMs, events, xs[q]) ==>
      KeyOf(events, xs[p]) < KeyOf(events, xs[q])
  }

  lemma AscendingSnoc(ks: seq<int>, k: int)
    ensures Ascending(ks + [k]) <==> Ascending(ks) && AllBelow(ks, k)
  {
    var all := ks + [k];
    assert forall q :: 0 <= q < |ks| ==> all[q] == ks[q];
    if Ascending(all) {
      forall q | 0 <= q < |ks| ensures ks[q] < k { assert all[q] < all[|ks|]; }
      forall p, q | 0 <= p < q < |ks| ensures ks[p] < ks[q] { assert all[p] < all[q]; }
    }
  }

  lemma {:induction false} OnTimeKeysAscend(windowMs: u64, events: seq<Event>, xs: seq<nat>)
    ensures Ascending(OnTimeKeys(windowMs, events, xs)) <==> OnTimePairsAscend(windowMs, events, xs)
  {
    if xs != [] {
      var front, last := xs[..|xs| - 1], xs[|xs| - 1];
      OnTimeKeysAscend(windowMs, events, front);
      OnTimeKeysBelow(windowMs, events, front, KeyOf(events, last));
      AscendingSnoc(OnTimeKeys(windowMs, events, front), KeyOf(events, last));
      PairsSnoc(windowMs, events, front, last);
      assert xs == front + [last];
    }
  }

  lemma PairsSnoc(windowMs: u64, events: seq<Event>, front: seq<nat>, last: nat)
    ensures OnTimePairsAscend(windowMs, events, front + [last]) <==>
              && OnTimePairsAscend(windowMs, events, front)
              && (OnTime(windowMs, events, last) ==> OnTimeBelow(windowMs, events, front, KeyOf(events, last)))
  {
    var all := front + [last];
    assert forall p :: 0 <= p < |front| ==> all[p] == front[p];
    assert all[|front|] == last;
    if OnTimePairsAscend(windowMs, events, all) {
      forall p, q | 0 <= p < q < |front| && OnTime(windowMs, events, front[p]) && OnTime(windowMs, events, front[q])
        ensures KeyOf(events, front[p]) < KeyOf(events, front[q])
      {
        assert OnTime(windowMs, events, all[p]) && OnTime(windowMs, events, all[q]);
      }
    }
  }

  // ---- exactly when order is kept ----

  /** An on-time arrival that has been through the pipeline by n: in terms of the events,
      neither still waiting nor displaced. */
  ghost predicate Passed(windowMs: u64, events: seq<Event>, i: nat, n: nat)
    requires n <= |events|
  {
    && i < n && OnTime(windowMs, events, i)
    && !Buffered(windowMs, events, i, n) && !EverPushed(windowMs, events, i, n)
  }

  /** Of two on-time messages with a timer between their arrivals the later has the larger key. */
  ghost predicate FlushesInOrder(windowMs: u64, events: seq<Event>, n: nat)
    requires n <= |events|
  {
    forall k: nat, i: nat ::
      Passed(windowMs, events, k, n) && Passed(windowMs, events, i, n) && FlushBetween(events, k, i) ==>
        KeyOf(events, k) < KeyOf(events, i)
  }

  /** A timer between two processed arrivals separates them in the output too. */
  lemma FlushSeparates(windowMs: u64, events: seq<Event>, k: nat, i: nat, n: nat) returns (p: nat, q: nat)
    requires n <= |events| && Live(events, n) && FlushBetween(events, k, i)
    requires Passed(windowMs, events, k, n) && Passed(windowMs, events, i, n)
    ensures
      var xs := Fates(windowMs, events, n).processed;
      p < q < |xs| && xs[p] == k && xs[q] == i
  {
    var j: nat :| k < j < i && j < |events| && events[j].Timer?;
    var xs, early := Fates(windowMs, events, n).processed, Fates(windowMs, events, j + 1).processed;
    LatestGrows(windowMs, events, j + 1, n);
    ProcessedExactly(windowMs, events, k, j + 1);
    ProcessedExactly(windowMs, events, i, j + 1);
    ProcessedExactly(windowMs, events, i, n);
    assert k in early;
    p :| 0 <= p < |early| && early[p] == k;
    q :| 0 <= q < |xs| && xs[q] == i;
    assert q >= |early|;
  }

  lemma OrderNeedsFlushes(windowMs: u64, events: seq<Event>, n: nat)
    requires n <= |events| && Live(events, n)
    requires OnTimePairsAscend(windowMs, events, Fates(windowMs, events, n).processed)
    ensures FlushesInOrder(windowMs, events, n)
  {
    forall k: nat, i: nat
      | Passed(windowMs, events, k, n) && Passed(windowMs, events, i, n) && FlushBetween(events, k, i)
      ensures KeyOf(events, k) < KeyOf(events, i)
    {
      var p, q := FlushSeparates(windowMs, events, k, i, n);
    }
  }

  lemma FlushesGiveOrder(windowMs: u64, events: seq<Event>, n: nat)
    requires n <= |events| && Live(events, n) && FlushesInOrder(windowMs, events, n)
    ensures OnTimePairsAscend(windowMs, events, Fates(windowMs, events, n).processed)
  {
    var xs := Fates(windowMs, events, n).processed;
    OrderHolds(windowMs, events, n);
    forall p, q | 0 <= p < q < |xs| && OnTime(windowMs, events, xs[p]) && OnTime(windowMs, events, xs[q])
      ensures KeyOf(events, xs[p]) < KeyOf(events, xs[q])
    {
      assert PairOk(windowMs, events, xs[p], xs[q]);
      ProcessedExactly(windowMs, events, xs[p], n);
      ProcessedExactly(windowMs, events, xs[q], n);
      assert Passed(windowMs, events, xs[p], n) && Passed(windowMs, events, xs[q], n);
    }
  }

  /** Whatever arrives and whenever the timer fires: the on-time messages have gone through
      the pipeline in strictly increasing key order if and only if no two of them with a
      timer between their arrivals are out of order. */
  lemma OrderKeptExactly(windowMs: u64, events: seq<Event>, n: nat)
    requires n <= |events| && Live(events, n)
    ensures Ascending(OnTimeKeys(windowMs, events, Fates(windowMs, events, n).processed))
       <==> FlushesInOrder(windowMs, events, n)
  {
    var xs := Fates(windowMs, events, n).processed;
    OnTimeKeysAscend(windowMs, events, xs);
    if FlushesInOrder(windowMs, events, n) { FlushesGiveOrder(windowMs, events, n); }
    if OnTimePairsAscend(windowMs, events, xs) { OrderNeedsFlushes(windowMs, events, n); }
  }

  /** It does fail, for every window and clock: of two on-time messages the second with no
      larger key, a timer in between lets the first go first. */
  lemma FlushBreaksOrder(windowMs: u64, big: Message, small: Message, first: i64, second: i64)
    requires SortKey(small) <= SortKey(big) && SortKey(small) > Cutoff(windowMs, Later(0, first))
    ensures
      var events := [Receive(big, first), Timer, Receive(small, second), Timer];
      && Passed(windowMs, events, 0, 4) && Passed(windowMs, events, 2, 4)
      && !Ascending(OnTimeKeys(windowMs, events, Fates(windowMs, events, 4).processed))
  {
    var events := [Receive(big, first), Timer, Receive(small, second), Timer];
    assert events[1] == Timer && events[3] == Timer;
    FatesStep(windowMs, events, 1);
    FatesStep(windowMs, events, 2);
    CutoffGrows(windowMs, 0, Later(0, first));
    assert OnTime(windowMs, events, 0) && OnTime(windowMs, events, 2);
    assert Live(events, 4);
    NotDisplaced(windowMs, events);
    assert FlushBetween(events, 0, 2);
    OrderKeptExactly(windowMs, events, 4);
  }

  lemma NotDisplaced(windowMs: u64, events: seq<Event>)
    requires |events| == 4 && events[1].Timer? && events[3].Timer?
    ensures !EverPushed(windowMs, events, 0, 4) && !EverPushed(windowMs, events, 2, 4)
    ensures !Buffered(windowMs, events, 0, 4) && !Buffered(windowMs, events, 2, 4)
  {
    forall j: nat | j < 4 ensures !Pushed(windowMs, events, 0, j) && !Pushed(windowMs, events, 2, j) {
      if j == 2 { assert !Buffered(windowMs, events, 0, j); }
    }
  }

  // ---- between drains ----

  /** Events a..n of a live worker are all arrivals, starting from an empty window. */
  ghost predicate Undrained(windowMs: u64, events: seq<Event>, a: nat, n: nat) {
    && a <= n <= |events| && Live(events, a)
    && Fates(windowMs, events, a).buffer == map[]
    && forall i :: a <= i < n ==> events[i].Receive?
  }

  lemma Twice<T>(xs: seq<T>, p: nat, q: nat)
    requires p < q < |xs| && xs[p] == xs[q]
    ensures multiset(xs)[xs[p]] >= 2
  {
    assert xs == xs[..q] + [xs[q]] + xs[q + 1..];
    assert xs[..q][p] == xs[p];
  }

  lemma ProcessedOnce(windowMs: u64, events: seq<Event>, n: nat, p: nat, q: nat)
    requires n <= |events| && p < q < |Fates(windowMs, events, n).processed|
    ensures Fates(windowMs, events, n).processed[p] != Fates(windowMs, events, n).processed[q]
  {
    var xs := Fates(windowMs, events, n).processed;
    ArrivalsConserved(windowMs, events, n);
    ReceivedOnce(events, xs[p], n);
    if xs[p] == xs[q] { Twice(xs, p, q); }
  }

  lemma FoundEarly(windowMs: u64, events: seq<Event>, a: nat, n: nat, x: nat)
    requires a <= n <= |events| && Live(events, n) && Fates(windowMs, events, a).buffer == map[]
    requires x in Fates(windowMs, events, n).processed && x < a
    ensures x in Fates(windowMs, events, a).processed
  {
    ProcessedExactly(windowMs, events, x, n);
    ProcessedExactly(windowMs, events, x, a);
    BufferedSomewhere(windowMs, events, x, a);
  }

  /** What went through the pipeline since the window was empty had arrived since then. */
  lemma ProcessedIsRecent(windowMs: u64, events: seq<Event>, a: nat, n: nat, q: nat)
    requires a <= n <= |events| && Live(events, n) && Fates(windowMs, events, a).buffer == map[]
    requires |Fates(windowMs, events, a).processed| <= q < |Fates(windowMs, events, n).processed|
    ensures Fates(windowMs, events, n).processed[q] >= a
  {
    var early, x := Fates(windowMs, events, a).processed, Fates(windowMs, events, n).processed[q];
    if x < a {
      FoundEarly(windowMs, events, a, n, x);
      var p :| 0 <= p < |early| && early[p] == x;
      LatestGrows(windowMs, events, a, n);
      ProcessedOnce(windowMs, events, n, p, q);
    }
  }

  lemma LiveArrivals(events: seq<Event>, a: nat, n: nat)
    requires a <= n <= |events| && Live(events, a) && forall i :: a <= i < n ==> events[i].Receive?
    ensures Live(events, n)
  {
  }

  /** What went through the pipeline from event a to event n. */
  ghost function ProcessedSince(windowMs: u64, events: seq<Event>, a: nat, n: nat): seq<nat>
    requires a <= n <= |events| && Live(events, n)
  {
    LatestGrows(windowMs, events, a, n);
    Fates(windowMs, events, n).processed[|Fates(windowMs, events, a).processed|..]
  }

  /** Without a timer among the arrivals, every pair is in order. */
  lemma UnflushedAscend(windowMs: u64, events: seq<Event>, a: nat, n: nat, xs: seq<nat>)
    requires n <= |events| && forall i :: a <= i < n ==> events[i].Receive?
    requires PairsOk(windowMs, events, xs) && forall q :: 0 <= q < |xs| ==> a <= xs[q] < n
    ensures OnTimePairsAscend(windowMs, events, xs)
  {
    forall p, q | 0 <= p < q < |xs| && OnTime(windowMs, events, xs[p]) && OnTime(windowMs, events, xs[q])
      ensures KeyOf(events, xs[p]) < KeyOf(events, xs[q])
    {
      assert PairOk(windowMs, events, xs[p], xs[q]) && !FlushBetween(events, xs[p], xs[q]);
    }
  }

  lemma SuffixOk(windowMs: u64, events: seq<Event>, xs: seq<nat>, from: nat)
    requires from <= |xs| && PairsOk(windowMs, events, xs)
    ensures PairsOk(windowMs, events, xs[from..])
  {
    var ys := xs[from..];
    forall p, q | 0 <= p < q < |ys| ensures PairOk(windowMs, events, ys[p], ys[q]) {
      assert PairOk(windowMs, events, xs[from + p], xs[from + q]);
    }
  }

  lemma SinceIsRecent(windowMs: u64, events: seq<Event>, a: nat, n: nat)
    requires Undrained(windowMs, events, a, n) && Live(events, n) && OrderOk(windowMs, events, n)
    ensures PairsOk(windowMs, events, ProcessedSince(windowMs, events, a, n))
    ensures forall q :: 0 <= q < |ProcessedSince(windowMs, events, a, n)| ==>
              a <= ProcessedSince(windowMs, events, a, n)[q] < n
  {
    LatestGrows(windowMs, events, a, n);
    var xs, from := Fates(windowMs, events, n).processed, |Fates(windowMs, events, a).processed|;
    SuffixOk(windowMs, events, xs, from);
    forall q | 0 <= q < |xs| - from ensures a <= xs[from..][q] < n {
      ProcessedIsRecent(windowMs, events, a, n, from + q);
      assert Gone(windowMs, events, xs[from + q], n);
    }
  }

  /** Between drains, whatever the arrival clock does, the on-time messages leave the window
      in strictly increasing key order. */
  lemma OnTimeReleasedInOrder(windowMs: u64, events: seq<Event>, a: nat, n: nat)
    requires Undrained(windowMs, events, a, n)
    ensures Live(events, n)
    ensures Ascending(OnTimeKeys(windowMs, events, ProcessedSince(windowMs, events, a, n)))
  {
    LiveArrivals(events, a, n);
    OrderHolds(windowMs, events, n);
    SinceIsRecent(windowMs, events, a, n);
    UnflushedAscend(windowMs, events, a, n, ProcessedSince(windowMs, events, a, n));
    OnTimeKeysAscend(windowMs, events, ProcessedSince(windowMs, events, a, n));
  }

  // ---- late messages ----

  /** A late message is released by the very arrival that brought it, before anything else,
      and nothing else late is released with it. */
  lemma LateReleasedAtOnce(windowMs: u64, events: seq<Event>, i: nat)
    requires i < |events| && Live(events, i) && events[i].Receive? && !OnTime(windowMs, events, i)
    ensures ReleasedBy(windowMs, events, i) != [] && ReleasedBy(windowMs, events, i)[0] == i
    ensures forall j :: 1 <= j < |ReleasedBy(windowMs, events, i)| ==>
              OnTime(windowMs, events, ReleasedBy(windowMs, events, i)[j])
  {
    var s, key, low := Fates(windowMs, events, i), SortKey(events[i].m), Leaving(windowMs, events, i);
    CutoffGrows(windowMs, s.latest, Later(s.latest, events[i].now));
    assert key in low && low[key] == i;
    forall k | k in low && k != key ensures key < k && OnTime(windowMs, events, low[k]) {
      assert k in s.buffer && low[k] == s.buffer[k];
      Waiting(windowMs, events, k, i);
    }
    ListedHead(low, key);
    ListedByKey(low);
    SortedKeysAscend(low.Keys);
    var xs, keys := Listed(low), SortedKeys(low.Keys);
    assert Least(low.Keys) == key;
    forall j | 1 <= j < |xs| ensures OnTime(windowMs, events, xs[j]) {
      assert keys[0] == key && keys[0] < keys[j];
      assert keys[j] in low && xs[j] == low[keys[j]];
    }
  }
}
