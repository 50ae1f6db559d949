/** The reorder window: a buffer sorted by sort key, released up to a cutoff that follows
    the latest arrival. */
module Reorder {
  import opened Wrappers
  import opened Prelude

  const I64_MIN: int := -0x8000_0000_0000_0000
  const I64_MAX: int := 0x7FFF_FFFF_FFFF_FFFF

  datatype Message = Message(id: string, sequence: Option<i64>, timestampMs: i64, content: string)

  function SortKey(m: Message): i64 {
    if m.sequence.Some? then m.sequence.value else m.timestampMs
  }

  /** `window_ms as i64`. */
  function Width(windowMs: u64): i64 {
    if windowMs <= I64_MAX then windowMs else windowMs - 0x1_0000_0000_0000_0000
  }

  /** `latest.saturating_sub(window as i64)`. */
  function Cutoff(windowMs: u64, latest: i64): i64 {
    var d := latest - Width(windowMs);
    if d < I64_MIN then I64_MIN else if d > I64_MAX then I64_MAX else d
  }

  function Later(a: i64, b: i64): i64 {
    if a >= b then a else b
  }

  // ---- a BTreeMap listed in key order ----

  ghost function Least(keys: set<int>): (least: int)
    requires keys != {}
    ensures least in keys && forall k :: k in keys ==> least <= k
  {
    LeastExists(keys, k => k);
    var least :| IsLeast(keys, k => k, least);
    least
  }

  ghost function SortedKeys(keys: set<int>): seq<int> {
    if keys == {} then [] else [Least(keys)] + SortedKeys(keys - {Least(keys)})
  }

  /** The values in ascending order of their keys. */
  ghost function Listed<T>(b: map<int, T>): seq<T> {
    if b == map[] then [] else [b[Least(b.Keys)]] + Listed(b - {Least(b.Keys)})
  }

  ghost predicate Ascending(keys: seq<int>) {
    forall i, j :: 0 <= i < j < |keys| ==> keys[i] < keys[j]
  }

  lemma {:induction false} SortedKeysAscend(keys: set<int>)
    ensures Ascending(SortedKeys(keys))
    ensures forall i :: 0 <= i < |SortedKeys(keys)| ==> SortedKeys(keys)[i] in keys
  {
    if keys != {} { SortedKeysAscend(keys - {Least(keys)}); }
  }

  lemma {:induction false} ListedByKey<T>(b: map<int, T>)
    ensures |Listed(b)| == |SortedKeys(b.Keys)|
    ensures forall i :: 0 <= i < |Listed(b)| ==>
              SortedKeys(b.Keys)[i] in b && Listed(b)[i] == b[SortedKeys(b.Keys)[i]]
  {
    if b != map[] {
      var rest := b - {Least(b.Keys)};
      assert rest.Keys == b.Keys - {Least(b.Keys)};
      ListedByKey(rest);
    }
  }

  /** The buffered values as a bag. */
  ghost function Bag<T>(b: map<int, T>): multiset<T> {
    if b == map[] then multiset{}
    else multiset{b[Least(b.Keys)]} + Bag(b - {Least(b.Keys)})
  }

  lemma Swap<T>(x: T, y: T, rest: multiset<T>)
    ensures multiset{x} + (multiset{y} + rest) == multiset{y} + (multiset{x} + rest)
  {
  }

  lemma LeastAfterRemoval(keys: set<int>, k: int)
    requires k in keys && k != Least(keys)
    ensures Least(keys) in keys - {k} && Least(keys - {k}) == Least(keys)
  {
    assert Least(keys) in keys - {k};
  }

  /** A buffer's bag is taken apart at any key. */
  lemma {:induction false} BagSplit<T>(b: map<int, T>, k: int)
    requires k in b
    ensures Bag(b) == multiset{b[k]} + Bag(b - {k})
    decreases |b|
  {
    var least := Least(b.Keys);
    if k != least {
      LeastAfterRemoval(b.Keys, k);
      var rest := b - {least};
      assert (b - {k}).Keys == b.Keys - {k};
      assert b - {k} - {least} == rest - {k};
      BagSplit(rest, k);
      Swap(b[least], b[k], Bag(rest - {k}));
    }
  }

  lemma {:induction false} BagHas<T>(b: map<int, T>, v: T)
    ensures v in Bag(b) <==> v in b.Values
    decreases |b|
  {
    if b != map[] {
      var least := Least(b.Keys);
      var rest := b - {least};
      BagHas(rest, v);
      assert b.Values == rest.Values + {b[least]};
    }
  }

  lemma {:induction false} ListedIsBag<T>(b: map<int, T>)
    ensures multiset(Listed(b)) == Bag(b)
  {
    if b != map[] {
      var least := Least(b.Keys);
      ListedIsBag(b - {least});
      BagSplit(b, least);
    }
  }

  function UpTo<T>(b: map<int, T>, cutoff: int): map<int, T> {
    map k | k in b && k <= cutoff :: b[k]
  }

  function Above<T>(b: map<int, T>, cutoff: int): map<int, T> {
    map k | k in b && k > cutoff :: b[k]
  }

  lemma Regroup<T>(x: T, a: multiset<T>, b: multiset<T>)
    ensures multiset{x} + (a + b) == (multiset{x} + a) + b
    ensures multiset{x} + (a + b) == a + (multiset{x} + b)
  {
  }

  lemma {:induction false} BagCut<T>(b: map<int, T>, cutoff: int)
    ensures Bag(b) == Bag(UpTo(b, cutoff)) + Bag(Above(b, cutoff))
    decreases |b|
  {
    if b == map[] {
      assert UpTo(b, cutoff) == map[] && Above(b, cutoff) == map[];
    } else {
      var k := Least(b.Keys);
      BagCut(b - {k}, cutoff);
      CutRest(b, k, cutoff);
      Regroup(b[k], Bag(UpTo(b - {k}, cutoff)), Bag(Above(b - {k}, cutoff)));
      if k <= cutoff {
        BagSplit(UpTo(b, cutoff), k);
      } else {
        BagSplit(Above(b, cutoff), k);
      }
    }
  }

  lemma CutRest<T>(b: map<int, T>, k: int, cutoff: int)
    requires k in b
    ensures UpTo(b - {k}, cutoff) == UpTo(b, cutoff) - {k}
    ensures Above(b - {k}, cutoff) == Above(b, cutoff) - {k}
    ensures k <= cutoff ==> Above(b, cutoff) - {k} == Above(b, cutoff)
    ensures k > cutoff ==> UpTo(b, cutoff) - {k} == UpTo(b, cutoff)
  {
  }

  lemma BagPut<T>(b: map<int, T>, k: int, v: T)
    ensures Bag(b[k := v]) == multiset{v} + Bag(b - {k})
  {
    var b' := b[k := v];
    assert b' - {k} == b - {k};
    BagSplit(b', k);
  }

  lemma BagAdd<T>(b: map<int, T>, k: int, v: T)
    requires k !in b
    ensures Bag(b[k := v]) == multiset{v} + Bag(b)
  {
    BagPut(b, k, v);
    assert b - {k} == b;
  }

  lemma Trade<T>(v: T, x: T, rest: multiset<T>)
    ensures (multiset{v} + rest) + multiset{x} == multiset{v} + (multiset{x} + rest)
  {
  }

  /** Filing under an occupied key pushes out the occupant, and only that. */
  lemma BagReplace<T>(b: map<int, T>, k: int, v: T)
    requires k in b
    ensures Bag(b[k := v]) + multiset{b[k]} == multiset{v} + Bag(b)
  {
    BagSplit(b, k);
    BagPut(b, k, v);
    Trade(v, b[k], Bag(b - {k}));
  }

  // ---- the window itself ----

  type Buffer = map<int, Message>

  ghost predicate Filed(b: Buffer) {
    forall k :: k in b ==> SortKey(b[k]) == k
  }

  lemma ListedHead<T>(b: map<int, T>, k: int)
    requires k in b && forall j :: j in b.Keys ==> k <= j
    ensures Listed(b) == [b[k]] + Listed(b - {k})
  {
    assert Least(b.Keys) == k;
  }

  lemma CollectStep<T>(ms: seq<T>, b: map<int, T>, k: int)
    requires k in b && forall j :: j in b.Keys ==> k <= j
    ensures (ms + [b[k]]) + Listed(b - {k}) == ms + Listed(b)
    ensures |b - {k}| < |b|
  {
    ListedHead(b, k);
    assert (b - {k}).Keys == b.Keys - {k};
  }

  method Collect(b: Buffer) returns (ms: seq<Message>)
    ensures ms == Listed(b)
  {
    ms := [];
    var rest := b;
    while rest != map[]
      invariant ms + Listed(rest) == Listed(b)
      decreases |rest|
    {
      var least := PickLeast(rest.Keys, k => k);
      CollectStep(ms, rest, least);
      ms := ms + [rest[least]];
      rest := rest - {least};
    }
  }

  class ReorderWindow {
    var buffer: Buffer
    const windowMs: u64
    var latestArrivalMs: i64

    ghost predicate Valid()
      reads this
    {
      Filed(buffer) && forall k :: k in buffer ==> k > Cutoff(windowMs, latestArrivalMs)
    }

    constructor (windowMs: u64)
      ensures Valid() && buffer == map[] && this.windowMs == windowMs && latestArrivalMs == 0
    {
      this.windowMs := windowMs;
      buffer, latestArrivalMs := map[], 0;
    }

    method Insert(m: Message, arrivalMs: i64) returns (ready: seq<Message>)
      requires Valid()
      modifies this
      ensures Valid() && latestArrivalMs == Later(old(latestArrivalMs), arrivalMs)
      ensures
        var cutoff := Cutoff(windowMs, latestArrivalMs);
        var filed := old(buffer)[SortKey(m) := m];
        ready == Listed(UpTo(filed, cutoff)) && buffer == Above(filed, cutoff)
    {
      var key := SortKey(m);
      buffer := buffer[key := m];
      latestArrivalMs := Later(latestArrivalMs, arrivalMs);
      var cutoff := Cutoff(windowMs, latestArrivalMs);
      ready := Collect(UpTo(buffer, cutoff));
      buffer := RemoveAll(buffer, cutoff, ready);
    }

    method FlushAll() returns (drained: seq<Message>)
      requires Valid()
      modifies this`buffer
      ensures Valid() && buffer == map[] && drained == Listed(old(buffer))
    {
      drained := Collect(buffer);
      buffer := map[];
    }
  }

  /** The removal loop: taking out the keys of what was collected leaves what is above the cutoff. */
  method RemoveAll(b: Buffer, cutoff: i64, ready: seq<Message>) returns (rest: Buffer)
    requires Filed(b) && ready == Listed(UpTo(b, cutoff))
    ensures rest == Above(b, cutoff)
  {
    rest := b;
    for i := 0 to |ready|
      invariant Filed(rest) && Above(rest, cutoff) == Above(b, cutoff) && ready[i..] == Listed(UpTo(rest, cutoff))
    {
      RemoveStep(rest, cutoff, ready[i..]);
      rest := rest - {SortKey(ready[i])};
    }
    assert UpTo(rest, cutoff) == map[];
    forall k | k in rest ensures k > cutoff {
      assert k !in UpTo(rest, cutoff);
    }
    assert rest == Above(rest, cutoff);
  }

  lemma RemoveStep(b: Buffer, cutoff: i64, ready: seq<Message>)
    requires Filed(b) && ready == Listed(UpTo(b, cutoff)) && ready != []
    ensures ready[1..] == Listed(UpTo(b - {SortKey(ready[0])}, cutoff))
    ensures Above(b - {SortKey(ready[0])}, cutoff) == Above(b, cutoff)
  {
    var low := UpTo(b, cutoff);
    var least := Least(low.Keys);
    assert ready[0] == b[least] && SortKey(ready[0]) == least;
    assert UpTo(b - {least}, cutoff) == low - {least};
  }
}
