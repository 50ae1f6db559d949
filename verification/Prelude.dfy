/** Fixed-width integers, and small facts about collections and division used throughout. */
module Prelude {

  type byte = b: int | 0 <= b < 256
  type u32 = x: int | 0 <= x <= 0xFFFF_FFFF
  type u64 = x: int | 0 <= x <= 0xFFFF_FFFF_FFFF_FFFF
  type i64 = x: int | -0x8000_0000_0000_0000 <= x <= 0x7FFF_FFFF_FFFF_FFFF

  ghost function Elems<T>(s: seq<T>): set<T> {
    set x | x in s
  }

  ghost predicate IsLeast<T>(s: set<T>, rank: T -> int, x: T) {
    x in s && forall y :: y in s ==> rank(x) <= rank(y)
  }

  lemma {:induction false} LeastExists<T>(s: set<T>, rank: T -> int)
    requires s != {}
    ensures exists x :: IsLeast(s, rank, x)
    decreases |s|
  {
    var x :| x in s;
    if s == {x} {
      assert IsLeast(s, rank, x);
    } else {
      var rest := s - {x};
      LeastExists(rest, rank);
      var y :| IsLeast(rest, rank, y);
      assert forall z :: z in s ==> z == x || z in rest;
      assert IsLeast(s, rank, if rank(x) < rank(y) then x else y);
    }
  }

  /** The first in the order of `rank`; ties are broken in any way. */
  method PickLeast<T(==)>(s: set<T>, rank: T -> int) returns (least: T)
    requires s != {}
    ensures IsLeast(s, rank, least)
  {
    LeastExists(s, rank);
    ghost var x :| IsLeast(s, rank, x);
    least :| least in s && forall y :: y in s ==> rank(least) <= rank(y);
  }

  lemma SubsetCount<T>(a: set<T>, b: set<T>)
    requires a <= b
    ensures |a| <= |b|
  {
    assert b == a + (b - a);
  }

  lemma UnionCount<T>(a: set<T>, b: set<T>)
    ensures |a + b| <= |a| + |b|
  {
  }

  lemma Associate<T>(x: seq<T>, y: seq<T>, z: seq<T>)
    ensures (x + y) + z == x + (y + z)
  {
  }

  /** Two texts cut at their first separator are equal part by part. */
  lemma FirstSeparator<T>(sep: T, a: seq<T>, x: seq<T>, b: seq<T>, y: seq<T>)
    requires sep !in a && sep !in b && a + [sep] + x == b + [sep] + y
    ensures a == b && x == y
  {
    var s, t := a + [sep] + x, b + [sep] + y;
    assert forall i :: 0 <= i < |a| ==> s[i] == a[i] && a[i] in a;
    assert forall i :: 0 <= i < |b| ==> t[i] == b[i] && b[i] in b;
    assert s[|a|] == sep && t[|b|] == sep;
    assert |a| == |b|;
    assert a == s[..|a|] && b == t[..|b|];
    assert x == s[|a| + 1..] && y == t[|b| + 1..];
  }

  lemma CutAt<T>(sep: T, s: seq<T>) returns (x: seq<T>, y: seq<T>)
    requires sep in s
    ensures s == x + [sep] + y
  {
    var i :| 0 <= i < |s| && s[i] == sep;
    x, y := s[..i], s[i + 1..];
  }

  lemma BelowOneFactor(d: nat, x: int)
    requires d * x < d
    ensures x <= 0
  {
  }

  lemma QuotientAtLeast(x: nat, d: nat, q: nat)
    requires d > 0 && q * d <= x
    ensures q <= x / d
  {
    assert d * (q - x / d) == q * d - d * (x / d);
    BelowOneFactor(d, q - x / d);
  }

  lemma MulMonotone(a: nat, x: nat, y: nat)
    requires x <= y
    ensures a * x <= a * y
  {
  }
}
