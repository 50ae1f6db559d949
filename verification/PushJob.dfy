/** Push jobs: every pending item of a job is resolved to delivery targets and fanned out
    into one outbox row per target. */
module PushJob {
  import opened Wrappers
  import opened Prelude
  import opened Binding

  type ItemId = string

  datatype ItemStatus = Pending | Queued | Failed

  /** The stored target list: absent, unreadable JSON, or a list. */
  datatype Requested = Absent | Unreadable | Listed(targets: seq<Target>)

  datatype Item = Item(
    jobId: string, project: string, text: string, mode: string,
    requested: Requested, status: ItemStatus, createdAt: int)

  /** An outbox row: its route key is computed from the target, its payload from the text. */
  datatype OutRow = OutRow(target: Target, text: string)

  datatype Summary = Summary(total: nat, queued: nat, failed: nat, enqueued: nat)

  // ---- resolving an item ----

  ghost predicate NoRepeats<T>(s: seq<T>) {
    forall i, j :: 0 <= i < j < |s| ==> s[i] != s[j]
  }

  /** The bound target ids of a project, each once, and the target row of each. */
  ghost predicate Joins(b: Bindings, project: string, ids: seq<string>, ts: seq<Target>) {
    && NoRepeats(ids) && |ids| == |ts|
    && (forall id :: id in ids <==> (project, id) in b.pairs && id in b.targets)
    && forall i :: 0 <= i < |ids| ==> ids[i] in b.targets && ts[i] == b.targets[ids[i]]
  }

  /** The join of bindings and targets for a project, in whatever order SQL gives it. */
  ghost predicate IsBroadcast(b: Bindings, project: string, ts: seq<Target>) {
    exists ids: seq<string> :: Joins(b, project, ids, ts)
  }

  ghost predicate AllBound(b: Bindings, project: string, ts: seq<Target>) {
    forall i :: 0 <= i < |ts| ==> (project, TargetId(ts[i])) in b.pairs
  }

  /** What `resolve_item_targets` may answer: None is any of its errors. */
  ghost predicate ResolvesTo(b: Bindings, item: Item, r: Option<seq<Target>>) {
    if item.mode == "broadcast" then
      && (r.Some? ==> r.value != [] && IsBroadcast(b, item.project, r.value))
      && (r.None? ==> IsBroadcast(b, item.project, []))
    else if item.mode == "targeted" && item.requested.Listed? && item.requested.targets != []
         && AllBound(b, item.project, item.requested.targets) then
      r == Some(item.requested.targets)
    else r == None
  }

  /** What became of one item. */
  datatype Outcome = Outcome(id: ItemId, resolved: Option<seq<Target>>, rows: seq<OutRow>)

  function StatusOf(o: Outcome): ItemStatus {
    if o.rows != [] then Queued else Failed
  }

  /** Which accesses succeed: reading the bindings for an item, and its k-th insert. */
  datatype Faults = Faults(readOk: ItemId -> bool, insertOk: (ItemId, nat) -> bool)

  ghost predicate NoFaults(ok: Faults) {
    (forall id :: ok.readOk(id)) && forall id, k: nat :: ok.insertOk(id, k)
  }

  /** The rows written for the first n targets: one per successful insert, in order. */
  function FanOut(id: ItemId, ts: seq<Target>, text: string, ok: Faults, n: nat): seq<OutRow>
    requires n <= |ts|
  {
    if n == 0 then []
    else FanOut(id, ts, text, ok, n - 1) + if ok.insertOk(id, n - 1) then [OutRow(ts[n - 1], text)] else []
  }

  ghost predicate GoodOutcome(b: Bindings, items: map<ItemId, Item>, ok: Faults, o: Outcome) {
    && o.id in items && (if ok.readOk(o.id) then ResolvesTo(b, items[o.id], o.resolved) else o.resolved == None)
    && o.rows == if o.resolved.None? then []
                 else FanOut(o.id, o.resolved.value, items[o.id].text, ok, |o.resolved.value|)
  }

  lemma {:induction false} FanOutTargets(id: ItemId, ts: seq<Target>, text: string, ok: Faults, n: nat, k: nat)
    requires n <= |ts| && k < |FanOut(id, ts, text, ok, n)|
    ensures FanOut(id, ts, text, ok, n)[k].target in ts && FanOut(id, ts, text, ok, n)[k].text == text
  {
    if k < |FanOut(id, ts, text, ok, n - 1)| { FanOutTargets(id, ts, text, ok, n - 1, k); }
  }

  /** With no failing insert, one row per target. */
  lemma {:induction false} FanOutComplete(id: ItemId, ts: seq<Target>, text: string, ok: Faults, n: nat)
    requires n <= |ts| && forall k: nat :: k < n ==> ok.insertOk(id, k)
    ensures FanOut(id, ts, text, ok, n) == seq(n, i requires 0 <= i < n => OutRow(ts[i], text))
  {
    if n > 0 { FanOutComplete(id, ts, text, ok, n - 1); }
  }

  /** Insert by insert: one row for each that succeeds, in target order, and no other. */
  lemma {:induction false} FanOutExactly(id: ItemId, ts: seq<Target>, text: string, ok: Faults, n: nat)
    requires n <= |ts|
    ensures |FanOut(id, ts, text, ok, n)| == |Succeeding(id, ok, n)|
    ensures forall k :: 0 <= k < |Succeeding(id, ok, n)| ==>
              && Succeeding(id, ok, n)[k] < n
              && FanOut(id, ts, text, ok, n)[k] == OutRow(ts[Succeeding(id, ok, n)[k]], text)
  {
    if n > 0 { FanOutExactly(id, ts, text, ok, n - 1); }
  }

  /** The numbers below n of the inserts that succeed. */
  function Succeeding(id: ItemId, ok: Faults, n: nat): seq<nat> {
    if n == 0 then []
    else if ok.insertOk(id, n - 1) then Succeeding(id, ok, n - 1) + [n - 1]
    else Succeeding(id, ok, n - 1)
  }

  lemma {:induction false} SucceedingMeans(id: ItemId, ok: Faults, n: nat, k: nat)
    ensures k in Succeeding(id, ok, n) <==> k < n && ok.insertOk(id, k)
  {
    if n > 0 { SucceedingMeans(id, ok, n - 1, k); }
  }

  lemma {:induction false} SucceedingAscends(id: ItemId, ok: Faults, n: nat)
    ensures forall i :: 0 <= i < |Succeeding(id, ok, n)| ==> Succeeding(id, ok, n)[i] < n
    ensures forall i, j :: 0 <= i < j < |Succeeding(id, ok, n)| ==> Succeeding(id, ok, n)[i] < Succeeding(id, ok, n)[j]
  {
    if n > 0 { SucceedingAscends(id, ok, n - 1); }
  }

  /** A target's row is written if and only if the insert for one of its places succeeds. */
  lemma WrittenIffInserted(id: ItemId, ts: seq<Target>, text: string, ok: Faults, t: Target)
    ensures OutRow(t, text) in FanOut(id, ts, text, ok, |ts|) <==>
              exists k: nat :: k < |ts| && ts[k] == t && ok.insertOk(id, k)
  {
    FanOutExactly(id, ts, text, ok, |ts|);
    var good, rows := Succeeding(id, ok, |ts|), FanOut(id, ts, text, ok, |ts|);
    if OutRow(t, text) in rows {
      var k :| 0 <= k < |rows| && rows[k] == OutRow(t, text);
      SucceedingMeans(id, ok, |ts|, good[k]);
    }
    if k: nat :| k < |ts| && ts[k] == t && ok.insertOk(id, k) {
      SucceedingMeans(id, ok, |ts|, k);
      var i :| 0 <= i < |good| && good[i] == k;
      assert rows[i] == OutRow(t, text);
    }
  }

  ghost function PendingOf(items: map<ItemId, Item>, job: string): set<ItemId> {
    set id | id in items && items[id].jobId == job && items[id].status == Pending
  }

  function AllRows(os: seq<Outcome>): seq<OutRow> {
    if os == [] then [] else AllRows(os[..|os| - 1]) + os[|os| - 1].rows
  }

  function CountStatus(os: seq<Outcome>, s: ItemStatus): nat {
    if os == [] then 0 else CountStatus(os[..|os| - 1], s) + if StatusOf(os[|os| - 1]) == s then 1 else 0
  }

  /** The items after each outcome has been marked. */
  function Marked(items: map<ItemId, Item>, os: seq<Outcome>): map<ItemId, Item> {
    if os == [] then items
    else
      var done, o := Marked(items, os[..|os| - 1]), os[|os| - 1];
      if o.id in done then done[o.id := done[o.id].(status := StatusOf(o))] else done
  }

  function SummaryOf(os: seq<Outcome>): Summary {
    Summary(|os|, CountStatus(os, Queued), CountStatus(os, Failed), |AllRows(os)|)
  }

  /** Every item ends queued or failed: the counters add up for every pattern of failures. */
  lemma {:induction false} CountsAddUp(os: seq<Outcome>)
    ensures CountStatus(os, Queued) + CountStatus(os, Failed) == |os|
  {
    if os != [] { CountsAddUp(os[..|os| - 1]); }
  }

  function IdsOf(os: seq<Outcome>): set<ItemId> {
    if os == [] then {} else IdsOf(os[..|os| - 1]) + {os[|os| - 1].id}
  }

  /** Marked items have left `pending`; all the others are as they were. */
  lemma {:induction false} MarkedPointwise(items: map<ItemId, Item>, os: seq<Outcome>, id: ItemId)
    ensures id in Marked(items, os) <==> id in items
    ensures id in items && id !in IdsOf(os) ==> Marked(items, os)[id] == items[id]
    ensures id in items && id in IdsOf(os) ==> Marked(items, os)[id].status != Pending
    ensures id in items ==> Marked(items, os)[id].jobId == items[id].jobId
  {
    if os != [] {
      var front, o := os[..|os| - 1], os[|os| - 1];
      MarkedPointwise(items, front, id);
    }
  }

  /** A handled item ends up queued if a row was written for it and failed if none was, and is
      otherwise as it was. */
  lemma {:induction false} MarkedStatus(items: map<ItemId, Item>, os: seq<Outcome>, k: nat)
    requires DistinctItems(os) && k < |os| && os[k].id in items
    ensures os[k].id in Marked(items, os)
    ensures Marked(items, os)[os[k].id] == items[os[k].id].(status := if os[k].rows == [] then Failed else Queued)
  {
    var front := os[..|os| - 1];
    MarkedPointwise(items, front, os[k].id);
    if k < |front| {
      MarkedStatus(items, front, k);
    } else {
      LastIsApart(os);
    }
  }

  ghost function WithStatus(items: map<ItemId, Item>, ids: set<ItemId>, s: ItemStatus): set<ItemId> {
    set id | id in ids && id in items && items[id].status == s
  }

  lemma StatusAdded(items: map<ItemId, Item>, ids: set<ItemId>, id: ItemId, st: ItemStatus, s: ItemStatus)
    requires id in items && id !in ids
    ensures |WithStatus(items[id := items[id].(status := st)], ids + {id}, s)|
         == |WithStatus(items, ids, s)| + if st == s then 1 else 0
  {
    var before, after := WithStatus(items, ids, s), WithStatus(items[id := items[id].(status := st)], ids + {id}, s);
    if st == s {
      assert after == before + {id};
    } else {
      assert after == before;
    }
  }

  /** The counters count items by the status they end up with. */
  lemma {:induction false} CountIsCardinality(items: map<ItemId, Item>, os: seq<Outcome>, s: ItemStatus)
    requires DistinctItems(os) && IdsOf(os) <= items.Keys
    ensures CountStatus(os, s) == |WithStatus(Marked(items, os), IdsOf(os), s)|
  {
    if os != [] {
      var front, o := os[..|os| - 1], os[|os| - 1];
      CountIsCardinality(items, front, s);
      LastIsApart(os);
      MarkedPointwise(items, front, o.id);
      StatusAdded(Marked(items, front), IdsOf(front), o.id, StatusOf(o), s);
    }
  }

  /** Once every pending item of a job is marked, nothing is pending: a second run of the
      job fetches no item and therefore adds no row. */
  lemma NothingLeft(items: map<ItemId, Item>, job: string, os: seq<Outcome>)
    requires IdsOf(os) == PendingOf(items, job)
    ensures PendingOf(Marked(items, os), job) == {}
  {
    forall id | id in Marked(items, os)
      ensures !(Marked(items, os)[id].jobId == job && Marked(items, os)[id].status == Pending)
    {
      MarkedPointwise(items, os, id);
    }
  }

  // ---- only bound targets ----

  /** A targeted item puts a row for t into the outbox. */
  ghost predicate Enqueues(records: seq<Record>, items: map<ItemId, Item>, ok: Faults, o: Outcome, t: Target) {
    && GoodOutcome(ApplyAll(records), items, ok, o) && items[o.id].mode == "targeted"
    && exists k :: 0 <= k < |o.rows| && o.rows[k].target == t
  }

  /** Whatever the bindings and the items, t reaches the outbox through a targeted item only
      after it was bound to the item's project. */
  ghost predicate Guarded(t: Target) {
    forall records: seq<Record>, items: map<ItemId, Item>, ok: Faults, o: Outcome ::
      Enqueues(records, items, ok, o, t) ==> WasBound(records, items[o.id].project, t)
  }

  lemma TargetedRowsWereBound(records: seq<Record>, items: map<ItemId, Item>, ok: Faults, o: Outcome, t: Target)
    requires Enqueues(records, items, ok, o, t) && CutsOneWay(t)
    ensures WasBound(records, items[o.id].project, t)
  {
    var item := items[o.id];
    var k :| 0 <= k < |o.rows| && o.rows[k].target == t;
    FanOutTargets(o.id, o.resolved.value, item.text, ok, |o.resolved.value|, k);
    BoundIdIsBoundTuple(records, item.project, t);
  }

  /** An item for one target whose id looks bound goes through. */
  lemma BoundIdGoesThrough(records: seq<Record>, project: string, t: Target)
      returns (items: map<ItemId, Item>, ok: Faults, o: Outcome)
    requires (project, TargetId(t)) in ApplyAll(records).pairs
    ensures Enqueues(records, items, ok, o, t) && items[o.id].project == project
  {
    items := map["i" := Item("j", project, "", "targeted", Listed([t]), Pending, 0)];
    ok := Faults(id => true, (id, k) => true);
    o := Outcome("i", Some([t]), [OutRow(t, "")]);
    assert FanOut("i", [t], "", ok, 1) == [] + [OutRow(t, "")];
    assert o.rows[0].target == t;
  }

  /** The exact condition: the binding check of targeted items keeps out everything unbound
      for a target if and only if the target's id can be cut up in one way only. */
  lemma GuardedIffCutsOneWay(t: Target)
    ensures Guarded(t) <==> CutsOneWay(t)
  {
    SafeIffCutsOneWay(t);
    if CutsOneWay(t) {
      forall records: seq<Record>, items: map<ItemId, Item>, ok: Faults, o: Outcome
        | Enqueues(records, items, ok, o, t)
        ensures WasBound(records, items[o.id].project, t)
      {
        TargetedRowsWereBound(records, items, ok, o, t);
      }
    }
    if Guarded(t) {
      forall records, project | (project, TargetId(t)) in ApplyAll(records).pairs
        ensures WasBound(records, project, t)
      {
        var items, ok, o := BoundIdGoesThrough(records, project, t);
      }
    }
  }

  /** It does fail: with only (x|y, p) bound, a targeted item for (x, y|p) goes through. */
  lemma PipedTargetSlipsThrough()
      returns (records: seq<Record>, items: map<ItemId, Item>, ok: Faults, o: Outcome, asked: Target)
    ensures records == [Record("proj", Target("x|y", "p", "c", "t", None))]
    ensures asked == Target("x", "y|p", "c", "t", None)
    ensures Enqueues(records, items, ok, o, asked) && !WasBound(records, items[o.id].project, asked)
  {
    var bound := Target("x|y", "p", "c", "t", None);
    asked := Target("x", "y|p", "c", "t", None);
    records := [Record("proj", bound)];
    BindOne("proj", bound);
    assert TargetId(bound) == "x|y|p|c|t|" == TargetId(asked);
    items, ok, o := BoundIdGoesThrough(records, "proj", asked);
    assert bound.channel != asked.channel;
  }

  // ---- an item whose update failed ----

  lemma SameBroadcast(b: Bindings, project: string, ts: seq<Target>, ts': seq<Target>, t: Target)
    requires IsBroadcast(b, project, ts) && IsBroadcast(b, project, ts') && t in ts
    ensures t in ts'
  {
    var ids :| Joins(b, project, ids, ts);
    var ids' :| Joins(b, project, ids', ts');
    var i :| 0 <= i < |ts| && ts[i] == t;
    assert ids[i] in ids;
    var j :| 0 <= j < |ids'| && ids'[j] == ids[i];
    assert ts'[j] == t;
  }

  /** An item still pending with the same bindings is enqueued again: every row its failed run
      wrote is written once more, if nothing fails then. */
  lemma FailedItemRepeats(b: Bindings, items: map<ItemId, Item>, ok: Faults, o: Outcome,
                          items': map<ItemId, Item>, ok': Faults, o': Outcome, row: OutRow)
    requires GoodOutcome(b, items, ok, o) && GoodOutcome(b, items', ok', o')
    requires o.id == o'.id && items[o.id] == items'[o.id] && row in o.rows && NoFaults(ok')
    ensures row in o'.rows
  {
    var item, ts := items[o.id], o.resolved.value;
    var k :| 0 <= k < |o.rows| && o.rows[k] == row;
    FanOutTargets(o.id, ts, item.text, ok, |ts|, k);
    if item.mode == "broadcast" {
      var ts' := if o'.resolved.Some? then o'.resolved.value else [];
      SameBroadcast(b, item.project, ts, ts', row.target);
    }
    var ts' := o'.resolved.value;
    FanOutComplete(o.id, ts', item.text, ok', |ts'|);
    var j :| 0 <= j < |ts'| && ts'[j] == row.target;
    assert o'.rows[j] == row;
  }

  ghost predicate DistinctItems(os: seq<Outcome>) {
    forall i, j :: 0 <= i < j < |os| ==> os[i].id != os[j].id
  }

  /** One run of a job from `items` to `items'`: it handled `os`, one item each, and either got
      through all pending items or stopped at the last one, whose update failed. */
  ghost predicate JobRun(b: Bindings, items: map<ItemId, Item>, job: string, ok: Faults, os: seq<Outcome>,
                         stopped: bool, items': map<ItemId, Item>)
  {
    && AllGood(b, items, ok, os) && DistinctItems(os) && IdsOf(os) <= PendingOf(items, job)
    && if stopped then os != [] && items' == Marked(items, os[..|os| - 1])
       else IdsOf(os) == PendingOf(items, job) && items' == Marked(items, os)
  }

  lemma {:induction false} IdsOfHas(os: seq<Outcome>, id: ItemId)
    ensures id in IdsOf(os) <==> exists i :: 0 <= i < |os| && os[i].id == id
  {
    if os != [] {
      var front := os[..|os| - 1];
      IdsOfHas(front, id);
      assert forall i :: 0 <= i < |front| ==> front[i] == os[i];
    }
  }

  lemma LastIsApart(os: seq<Outcome>)
    requires os != [] && DistinctItems(os)
    ensures os[|os| - 1].id !in IdsOf(os[..|os| - 1])
  {
    var front := os[..|os| - 1];
    IdsOfHas(front, os[|os| - 1].id);
  }

  /** Of the items a run handled, exactly the one whose update failed is pending for the next. */
  lemma LeftPendingExactly(b: Bindings, items: map<ItemId, Item>, job: string, ok: Faults, os: seq<Outcome>,
                           stopped: bool, items': map<ItemId, Item>, id: ItemId)
    requires JobRun(b, items, job, ok, os, stopped, items') && id in IdsOf(os)
    ensures id in PendingOf(items', job) <==> stopped && id == os[|os| - 1].id
    ensures id in PendingOf(items', job) ==> items'[id] == items[id]
  {
    var marked := if stopped then os[..|os| - 1] else os;
    MarkedPointwise(items, marked, id);
    LastIsApart(os);
  }

  /** The row is written for the same item by both runs. */
  ghost predicate WrittenByBoth(os: seq<Outcome>, os': seq<Outcome>, row: OutRow) {
    exists i, j ::
      0 <= i < |os| && 0 <= j < |os'| && os[i].id == os'[j].id && row in os[i].rows && row in os'[j].rows
  }

  /** When the second run gets through without faults: a row is written again if and
      only if the first run stopped at an item for which it had already written that row. */
  lemma WrittenTwiceExactly(b: Bindings, items: map<ItemId, Item>, job: string, ok: Faults, os: seq<Outcome>,
                            stopped: bool, items': map<ItemId, Item>, ok': Faults, os': seq<Outcome>,
                            items'': map<ItemId, Item>, row: OutRow)
    requires JobRun(b, items, job, ok, os, stopped, items')
    requires JobRun(b, items', job, ok', os', false, items'') && NoFaults(ok')
    ensures WrittenByBoth(os, os', row) <==> stopped && row in os[|os| - 1].rows
  {
    if WrittenByBoth(os, os', row) {
      var i, j :| 0 <= i < |os| && 0 <= j < |os'| && os[i].id == os'[j].id && row in os[i].rows && row in os'[j].rows;
      IdsOfHas(os, os[i].id);
      IdsOfHas(os', os[i].id);
      LeftPendingExactly(b, items, job, ok, os, stopped, items', os[i].id);
      assert i == |os| - 1;
    }
    if stopped && row in os[|os| - 1].rows {
      StoppedRepeats(b, items, job, ok, os, items', ok', os', items'', row);
    }
  }

  lemma StoppedRepeats(b: Bindings, items: map<ItemId, Item>, job: string, ok: Faults, os: seq<Outcome>,
                       items': map<ItemId, Item>, ok': Faults, os': seq<Outcome>,
                       items'': map<ItemId, Item>, row: OutRow)
    requires JobRun(b, items, job, ok, os, true, items') && row in os[|os| - 1].rows
    requires JobRun(b, items', job, ok', os', false, items'') && NoFaults(ok')
    ensures WrittenByBoth(os, os', row)
  {
    var last := |os| - 1;
    IdsOfHas(os, os[last].id);
    LeftPendingExactly(b, items, job, ok, os, true, items', os[last].id);
    IdsOfHas(os', os[last].id);
    var j :| 0 <= j < |os'| && os'[j].id == os[last].id;
    FailedItemRepeats(b, items, ok, os[last], items', ok', os'[j], row);
  }

  /** And a job without a failing update gets through and leaves nothing for the next run. */
  lemma ThroughIsFinal(b: Bindings, items: map<ItemId, Item>, job: string, ok: Faults, os: seq<Outcome>,
                       items': map<ItemId, Item>, ok': Faults, os': seq<Outcome>,
                       stopped': bool, items'': map<ItemId, Item>)
    requires JobRun(b, items, job, ok, os, false, items')
    requires JobRun(b, items', job, ok', os', stopped', items'')
    ensures os' == [] && AllRows(os') == [] && items'' == items'
  {
    NothingLeft(items, job, os);
    assert IdsOf(os') == {};
  }

  class PushStore {
    var items: map<ItemId, Item>
    var outbox: seq<OutRow>
    var bindings: Bindings

    constructor ()
      ensures items == map[] && outbox == [] && bindings == ApplyAll([])
    {
      items, outbox, bindings := map[], [], Bindings(map[], {});
    }

    method ApplyBindingRecord(r: Record) returns (ok: bool)
      modifies this`bindings
      ensures bindings == ApplyRecord(old(bindings), r)
      ensures ok <==> Accepts(old(bindings), r)
      ensures bindings.pairs
           == old(bindings).pairs + if ok then {(Trim(r.project), TargetId(TargetOf(r)))} else {}
      ensures bindings.targets
           == if Complete(r) && TargetId(TargetOf(r)) !in old(bindings).targets
              then old(bindings).targets[TargetId(TargetOf(r)) := TargetOf(r)] else old(bindings).targets
    {
      if !Complete(r) {
        return false;
      }
      var target, project := TargetOf(r), Trim(r.project);
      var upserted := UpsertTarget(bindings, target);
      if upserted.Err? {
        return false;
      }
      bindings := upserted.value;
      if PairConflict(bindings, project, TargetId(target)) {
        return false;
      }
      bindings := bindings.(pairs := bindings.pairs + {(project, TargetId(target))});
      return true;
    }

    method EnqueueAll(id: ItemId, ts: seq<Target>, text: string, ok: Faults) returns (rows: seq<OutRow>)
      modifies this`outbox
      ensures rows == FanOut(id, ts, text, ok, |ts|) && outbox == old(outbox) + rows
    {
      rows := [];
      for k := 0 to |ts|
        invariant rows == FanOut(id, ts, text, ok, k) && outbox == old(outbox) + rows
      {
        if ok.insertOk(id, k) {
          outbox := outbox + [OutRow(ts[k], text)];
          rows := rows + [OutRow(ts[k], text)];
        }
      }
    }

    method ResolveItemTargets(item: Item, readOk: bool) returns (r: Option<seq<Target>>)
      ensures if readOk then ResolvesTo(bindings, item, r) else r == None
    {
      if !readOk {
        r := None;
      } else if item.mode == "broadcast" {
        var ts := BroadcastTargets(bindings, item.project);
        r := if ts == [] then None else Some(ts);
      } else if item.mode == "targeted" && item.requested.Listed? && item.requested.targets != [] {
        var bound := AreBound(bindings, item.project, item.requested.targets);
        r := if bound then Some(item.requested.targets) else None;
      } else {
        r := None;
      }
    }

    method HandleItem(id: ItemId, ok: Faults) returns (o: Outcome)
      requires id in items
      modifies this`outbox
      ensures o.id == id && GoodOutcome(bindings, items, ok, o) && outbox == old(outbox) + o.rows
      ensures
        var item := items[id];
        o.rows != [] && item.mode == "targeted" ==>
          item.requested.Listed? && AllBound(bindings, item.project, item.requested.targets)
    {
      var resolved := ResolveItemTargets(items[id], ok.readOk(id));
      var rows := [];
      if resolved.Some? {
        rows := EnqueueAll(id, resolved.value, items[id].text, ok);
      }
      o := Outcome(id, resolved, rows);
    }

    /** Run a job: `ok` decides each read and insert, `markOk` each item update. */
    method RunPushJob(job: string, ok: Faults, markOk: ItemId -> bool)
      returns (r: Result<Summary, ItemId>, ghost os: seq<Outcome>)
      modifies this`items, this`outbox
      ensures JobRun(bindings, old(items), job, ok, os, r.Err?, items) && outbox == old(outbox) + AllRows(os)
      ensures r.Ok? <==> forall id :: id in PendingOf(old(items), job) ==> markOk(id)
      ensures r.Ok? ==>
                && r.value == SummaryOf(os) && r.value.total == |PendingOf(old(items), job)|
                && r.value.queued == |WithStatus(items, PendingOf(old(items), job), Queued)|
                && r.value.failed == |WithStatus(items, PendingOf(old(items), job), Failed)|
                && r.value.total == r.value.queued + r.value.failed
                && |outbox| == |old(outbox)| + r.value.enqueued
                && PendingOf(items, job) == {}
      ensures r.Err? ==>
                && os[|os| - 1].id == r.error && !markOk(r.error)
                && r.error in PendingOf(items, job) && items[r.error] == old(items)[r.error]
      ensures PendingOf(old(items), job) == {} ==>
                r == Ok(Summary(0, 0, 0, 0)) && outbox == old(outbox) && items == old(items)
    {
      var ids := FetchPendingItems(items, job);
      var failed, sum;
      failed, sum, os := HandleAll(ids, job, ok, markOk);
      assert forall id :: id in PendingOf(old(items), job) <==> id in Elems(ids);
      if failed.Some? {
        StopsHere(bindings, old(items), job, ok, ids, os, items);
        r := Err(failed.value);
      } else {
        RanToTheEnd(old(items), old(outbox), ids, os, items, outbox, sum, job);
        GetsThrough(bindings, old(items), job, ok, ids, os, items);
        CountIsCardinality(old(items), os, Queued);
        CountIsCardinality(old(items), os, Failed);
        r := Ok(sum);
      }
    }

    /** The loop over the fetched items, up to the first whose update fails. */
    method HandleAll(ids: seq<ItemId>, job: string, ok: Faults, markOk: ItemId -> bool)
      returns (failed: Option<ItemId>, sum: Summary, ghost os: seq<Outcome>)
      requires NoRepeats(ids) && Elems(ids) == PendingOf(items, job)
      modifies this`items, this`outbox
      ensures AllGood(bindings, old(items), ok, os) && InTurn(ids, os) && outbox == old(outbox) + AllRows(os)
      ensures failed.None? ==>
                && Ran(old(items), old(outbox), ids, |ids|, os, items, outbox, sum)
                && forall k :: 0 <= k < |ids| ==> markOk(ids[k])
      ensures failed.Some? ==>
                && os != [] && os[|os| - 1].id == failed.value && !markOk(failed.value)
                && IdsOf(os) <= Elems(ids) && items == Marked(old(items), os[..|os| - 1])
    {
      sum := Summary(0, 0, 0, 0);
      os := [];
      assert ids[..0] == [] && Elems<ItemId>([]) == {};
      for n := 0 to |ids|
        invariant AllGood(bindings, old(items), ok, os)
        invariant Ran(old(items), old(outbox), ids, n, os, items, outbox, sum)
        invariant forall k :: 0 <= k < n ==> markOk(ids[k])
      {
        var id := ids[n];
        StillPending(old(items), os, ids, n, job);
        ghost var rows := outbox;
        var o := HandleItem(id, ok);
        GoodAppended(bindings, old(items), items, ok, os, o);
        RanStep(old(items), old(outbox), ids, n, os, items, rows, sum, o);
        os := os + [o];
        if !markOk(id) {
          return Some(id), sum, os;
        }
        items := items[id := items[id].(status := StatusOf(o))];
        sum := Counted(sum, o);
      }
      return None, sum, os;
    }
  }

  /** The counters after one more item. */
  function Counted(s: Summary, o: Outcome): Summary {
    if o.rows != [] then Summary(s.total + 1, s.queued + 1, s.failed, s.enqueued + |o.rows|)
    else Summary(s.total + 1, s.queued, s.failed + 1, s.enqueued)
  }

  /** The job after its first n items: what was done, and what the store and counters say. */
  ghost predicate Ran(items0: map<ItemId, Item>, rows0: seq<OutRow>, ids: seq<ItemId>, n: nat,
                      os: seq<Outcome>, items: map<ItemId, Item>, rows: seq<OutRow>, sum: Summary)
  {
    && n <= |ids| && |os| == n && IdsOf(os) == Elems(ids[..n])
    && InTurn(ids, os)
    && items == Marked(items0, os) && rows == rows0 + AllRows(os) && sum == SummaryOf(os)
  }

  /** The outcomes are those of the first items fetched, one each. */
  ghost predicate InTurn(ids: seq<ItemId>, os: seq<Outcome>) {
    |os| <= |ids| && forall i :: 0 <= i < |os| ==> os[i].id == ids[i]
  }

  lemma InTurnStep(ids: seq<ItemId>, os: seq<Outcome>, o: Outcome)
    requires InTurn(ids, os) && |os| < |ids| && o.id == ids[|os|]
    ensures InTurn(ids, os + [o])
  {
  }

  lemma GetsThrough(b: Bindings, items: map<ItemId, Item>, job: string, ok: Faults,
                    ids: seq<ItemId>, os: seq<Outcome>, items': map<ItemId, Item>)
    requires NoRepeats(ids) && InTurn(ids, os) && IdsOf(os) == PendingOf(items, job)
    requires AllGood(b, items, ok, os) && items' == Marked(items, os)
    ensures JobRun(b, items, job, ok, os, false, items')
  {
  }

  lemma StopsHere(b: Bindings, items: map<ItemId, Item>, job: string, ok: Faults,
                  ids: seq<ItemId>, os: seq<Outcome>, items': map<ItemId, Item>)
    requires NoRepeats(ids) && InTurn(ids, os) && os != [] && IdsOf(os) <= PendingOf(items, job)
    requires AllGood(b, items, ok, os) && items' == Marked(items, os[..|os| - 1])
    ensures JobRun(b, items, job, ok, os, true, items')
    ensures
      var id := os[|os| - 1].id;
      id in PendingOf(items, job) && id in PendingOf(items', job) && items'[id] == items[id]
  {
    IdsOfHas(os, os[|os| - 1].id);
    LeftPendingExactly(b, items, job, ok, os, true, items', os[|os| - 1].id);
  }

  lemma RanStep(items0: map<ItemId, Item>, rows0: seq<OutRow>, ids: seq<ItemId>, n: nat,
                os: seq<Outcome>, items: map<ItemId, Item>, rows: seq<OutRow>, sum: Summary, o: Outcome)
    requires Ran(items0, rows0, ids, n, os, items, rows, sum) && n < |ids| && o.id == ids[n] && o.id in items
    ensures Ran(items0, rows0, ids, n + 1, os + [o], items[o.id := items[o.id].(status := StatusOf(o))],
                rows + o.rows, Counted(sum, o))
    ensures InTurn(ids, os + [o]) && IdsOf(os + [o]) <= Elems(ids) && (os + [o])[..|os|] == os && (os + [o])[|os|] == o
  {
    OutcomeAppended(items0, os, o);
    ElemsStep(ids, n);
    ElemsPrefix(ids, n + 1);
    Associate(rows0, AllRows(os), o.rows);
    InTurnStep(ids, os, o);
  }

  lemma RanToTheEnd(items0: map<ItemId, Item>, rows0: seq<OutRow>, ids: seq<ItemId>,
                    os: seq<Outcome>, items: map<ItemId, Item>, rows: seq<OutRow>, sum: Summary, job: string)
    requires Ran(items0, rows0, ids, |ids|, os, items, rows, sum) && Elems(ids) == PendingOf(items0, job)
    ensures IdsOf(os) == PendingOf(items0, job) && PendingOf(items, job) == {}
    ensures sum.total == sum.queued + sum.failed && |rows| == |rows0| + sum.enqueued
  {
    assert ids[..|ids|] == ids;
    CountsAddUp(os);
    NothingLeft(items0, job, os);
  }

  ghost predicate AllGood(b: Bindings, items: map<ItemId, Item>, ok: Faults, os: seq<Outcome>) {
    forall i :: 0 <= i < |os| ==> GoodOutcome(b, items, ok, os[i])
  }

  lemma ElemsStep<T>(s: seq<T>, n: nat)
    requires n < |s|
    ensures Elems(s[..n + 1]) == Elems(s[..n]) + {s[n]}
  {
    assert s[..n + 1] == s[..n] + [s[n]];
  }

  lemma ElemsPrefix<T>(s: seq<T>, n: nat)
    requires n <= |s|
    ensures Elems(s[..n]) <= Elems(s)
  {
  }

  /** An item not reached yet is still as it was fetched. */
  lemma StillPending(items: map<ItemId, Item>, os: seq<Outcome>, ids: seq<ItemId>, n: nat, job: string)
    requires n < |ids| && NoRepeats(ids) && Elems(ids) == PendingOf(items, job) && IdsOf(os) == Elems(ids[..n])
    ensures ids[n] in items && ids[n] in Marked(items, os) && Marked(items, os)[ids[n]] == items[ids[n]]
  {
    assert ids[n] in Elems(ids);
    assert ids[n] !in ids[..n];
    MarkedPointwise(items, os, ids[n]);
  }

  lemma GoodAppended(b: Bindings, items: map<ItemId, Item>, now: map<ItemId, Item>, ok: Faults,
                     os: seq<Outcome>, o: Outcome)
    requires AllGood(b, items, ok, os) && GoodOutcome(b, now, ok, o) && o.id in items && now[o.id] == items[o.id]
    ensures AllGood(b, items, ok, os + [o])
  {
  }

  lemma OutcomeAppended(items: map<ItemId, Item>, os: seq<Outcome>, o: Outcome)
    requires o.id in Marked(items, os)
    ensures (os + [o])[..|os|] == os && (os + [o])[|os|] == o
    ensures IdsOf(os + [o]) == IdsOf(os) + {o.id}
    ensures Marked(items, os + [o]) == Marked(items, os)[o.id := Marked(items, os)[o.id].(status := StatusOf(o))]
    ensures AllRows(os + [o]) == AllRows(os) + o.rows
    ensures SummaryOf(os + [o]) == Counted(SummaryOf(os), o)
  {
    assert (os + [o])[..|os|] == os;
  }

  function AgeIn(items: map<ItemId, Item>): ItemId -> int {
    id => if id in items then items[id].createdAt else 0
  }

  /** The pending items of a job, oldest first. */
  method FetchPendingItems(items: map<ItemId, Item>, job: string) returns (ids: seq<ItemId>)
    ensures NoRepeats(ids) && Elems(ids) == PendingOf(items, job) && |ids| == |PendingOf(items, job)|
    ensures OldestFirst(items, ids)
  {
    ids := [];
    var rest := set id | id in items && items[id].jobId == job && items[id].status == Pending;
    while rest != {}
      invariant rest <= items.Keys && Splits(PendingOf(items, job), ids, rest) && Precedes(items, ids, rest)
      decreases |rest|
    {
      var oldest := PickLeast(rest, AgeIn(items));
      SplitsStep(PendingOf(items, job), ids, rest, oldest);
      PrecedesStep(items, ids, rest, oldest);
      ids := ids + [oldest];
      rest := rest - {oldest};
    }
  }

  ghost predicate OldestFirst(items: map<ItemId, Item>, ids: seq<ItemId>) {
    && (forall i :: 0 <= i < |ids| ==> ids[i] in items)
    && forall i, j :: 0 <= i < j < |ids| ==> items[ids[i]].createdAt <= items[ids[j]].createdAt
  }

  /** `ids` without repeats and `rest` together make up `all`. */
  ghost predicate Splits(all: set<ItemId>, ids: seq<ItemId>, rest: set<ItemId>) {
    NoRepeats(ids) && rest !! Elems(ids) && rest + Elems(ids) == all && |ids| + |rest| == |all|
  }

  lemma SplitsStep(all: set<ItemId>, ids: seq<ItemId>, rest: set<ItemId>, x: ItemId)
    requires Splits(all, ids, rest) && x in rest
    ensures Splits(all, ids + [x], rest - {x})
  {
    assert x !in Elems(ids);
    assert Elems(ids + [x]) == Elems(ids) + {x};
    assert |rest - {x}| == |rest| - 1;
  }

  ghost predicate Precedes(items: map<ItemId, Item>, ids: seq<ItemId>, rest: set<ItemId>) {
    && OldestFirst(items, ids)
    && forall i, id :: 0 <= i < |ids| && id in rest && id in items ==> items[ids[i]].createdAt <= items[id].createdAt
  }

  lemma PrecedesStep(items: map<ItemId, Item>, ids: seq<ItemId>, rest: set<ItemId>, x: ItemId)
    requires Precedes(items, ids, rest) && rest <= items.Keys && IsLeast(rest, AgeIn(items), x)
    ensures Precedes(items, ids + [x], rest - {x})
  {
  }

  method BroadcastTargets(b: Bindings, project: string) returns (ts: seq<Target>)
    ensures IsBroadcast(b, project, ts)
  {
    ts := [];
    ghost var ids: seq<string> := [];
    var rest := set q | q in b.pairs && q.0 == project && q.1 in b.targets;
    while rest != {}
      invariant NoRepeats(ids) && |ids| == |ts|
      invariant forall q :: q in rest ==> q in b.pairs && q.0 == project && q.1 in b.targets && q.1 !in ids
      invariant forall id :: id in ids ==> (project, id) in b.pairs && id in b.targets
      invariant forall q :: q in b.pairs && q.0 == project && q.1 in b.targets ==> q in rest || q.1 in ids
      invariant forall i :: 0 <= i < |ids| ==> ids[i] in b.targets && ts[i] == b.targets[ids[i]]
      decreases |rest|
    {
      var q :| q in rest;
      ts := ts + [b.targets[q.1]];
      ids := ids + [q.1];
      rest := rest - {q};
    }
    forall id ensures id in ids <==> (project, id) in b.pairs && id in b.targets {
      if (project, id) in b.pairs && id in b.targets {
        assert (project, id).0 == project && (project, id).1 == id;
      }
    }
    assert Joins(b, project, ids, ts);
  }

  method AreBound(b: Bindings, project: string, ts: seq<Target>) returns (all: bool)
    ensures all <==> AllBound(b, project, ts)
  {
    all := true;
    for i := 0 to |ts|
      invariant all <==> AllBound(b, project, ts[..i])
    {
      assert ts[..i + 1] == ts[..i] + [ts[i]];
      all := all && (project, TargetId(ts[i])) in b.pairs;
    }
    assert ts[..|ts|] == ts;
  }
}
