/** The tamper-evident audit chain: hashing of rows, verification of a log, and what the
    head hash commits to. SHA-256 (section 6.2 of FIPS 180-4) is a parameter. */
module AuditChain {
  import opened Wrappers
  import opened Prelude

  /** Strings are their UTF-8 bytes, which is also how Rust compares them. */
  type Text = seq<byte>

  /** The digest function: any function into 32 bytes. */
  type Digest = seq<byte> -> seq<byte>

  ghost predicate Is256Bit(h: Digest) {
    forall x :: |h(x)| == 32
  }

  const PIPE: byte := 124

  datatype Row = Row(
    id: int,
    prevHash: Option<Text>,
    entryHash: Text,
    routeKey: Option<Text>,
    action: Text,
    result: Text,
    createdAt: i64)

  datatype ChainError =
    | HeadMismatch(id: int, expectedPrev: Option<Text>, actualPrev: Option<Text>)
    | HashMismatch(id: int, expected: Text, actual: Text)

  // ---- hexadecimal ----

  function HexDigit(d: int): byte
    requires 0 <= d < 16
  {
    if d < 10 then 48 + d else 87 + d
  }

  function Hex(bytes: seq<byte>): Text {
    if bytes == [] then []
    else Hex(bytes[..|bytes| - 1]) + [HexDigit(bytes[|bytes| - 1] / 16), HexDigit(bytes[|bytes| - 1] % 16)]
  }

  method ToHex(bytes: seq<byte>) returns (out: Text)
    ensures out == Hex(bytes)
    ensures |out| == 2 * |bytes|
    ensures forall i :: 0 <= i < |bytes| ==>
              out[2 * i] == HexDigit(bytes[i] / 16) && out[2 * i + 1] == HexDigit(bytes[i] % 16)
  {
    out := [];
    for k := 0 to |bytes|
      invariant out == Hex(bytes[..k]) && |out| == 2 * k
      invariant forall i :: 0 <= i < k ==>
                  out[2 * i] == HexDigit(bytes[i] / 16) && out[2 * i + 1] == HexDigit(bytes[i] % 16)
    {
      assert bytes[..k + 1][..k] == bytes[..k];
      out := out + [HexDigit(bytes[k] / 16)] + [HexDigit(bytes[k] % 16)];
    }
    assert bytes[..|bytes|] == bytes;
  }

  lemma {:induction false} HexShape(bytes: seq<byte>)
    ensures |Hex(bytes)| == 2 * |bytes| && PIPE !in Hex(bytes)
  {
    if bytes != [] { HexShape(bytes[..|bytes| - 1]); }
  }

  lemma {:induction false} HexInjective(a: seq<byte>, b: seq<byte>)
    requires Hex(a) == Hex(b)
    ensures a == b
  {
    HexShape(a);
    HexShape(b);
    if a != [] {
      var n := |a| - 1;
      HexShape(a[..n]);
      HexShape(b[..n]);
      assert Hex(a[..n]) == Hex(a)[..2 * n] == Hex(b[..n]);
      HexInjective(a[..n], b[..n]);
      var x, y := a[n], b[n];
      assert Hex(a)[2 * n] == HexDigit(x / 16) && Hex(b)[2 * n] == HexDigit(y / 16);
      assert Hex(a)[2 * n + 1] == HexDigit(x % 16) && Hex(b)[2 * n + 1] == HexDigit(y % 16);
      assert a == a[..n] + [x] && b == b[..n] + [y];
    }
  }

  /** The value of a digit, from its character code. */
  function DigitValue(ch: byte): int {
    if 48 <= ch <= 57 then ch - 48 else if 97 <= ch <= 102 then ch - 97 + 10 else -1
  }

  /** Every character is '0'..'9' or 'a'..'f', and the i-th pair spells the i-th byte. */
  lemma {:induction false} HexReadsBack(bytes: seq<byte>, i: nat)
    requires i < |bytes|
    ensures |Hex(bytes)| == 2 * |bytes|
    ensures DigitValue(Hex(bytes)[2 * i]) >= 0 && DigitValue(Hex(bytes)[2 * i + 1]) >= 0
    ensures 16 * DigitValue(Hex(bytes)[2 * i]) + DigitValue(Hex(bytes)[2 * i + 1]) == bytes[i]
  {
    var n := |bytes| - 1;
    HexShape(bytes);
    HexShape(bytes[..n]);
    if i < n { HexReadsBack(bytes[..n], i); }
  }

  // ---- the hashed bytes of a row ----

  function Power256(n: nat): nat {
    if n == 0 then 1 else 256 * Power256(n - 1)
  }

  /** The n low-order bytes of x, most significant first. */
  function BigEndian(x: nat, n: nat): (r: seq<byte>)
    ensures |r| == n
  {
    if n == 0 then [] else BigEndian(x / 256, n - 1) + [x % 256]
  }

  /** `i64::to_be_bytes`: two's complement, eight bytes. */
  function TimeBytes(x: i64): seq<byte> {
    BigEndian(if x >= 0 then x else x + 0x1_0000_0000_0000_0000, 8)
  }

  function BigEndianValue(s: seq<byte>): nat {
    if s == [] then 0 else 256 * BigEndianValue(s[..|s| - 1]) + s[|s| - 1]
  }

  lemma {:induction false} BigEndianReadsBack(x: nat, n: nat)
    requires x < Power256(n)
    ensures BigEndianValue(BigEndian(x, n)) == x
  {
    if n > 0 {
      BigEndianReadsBack(x / 256, n - 1);
      assert BigEndian(x, n)[..n - 1] == BigEndian(x / 256, n - 1);
    }
  }

  /** The time bytes, read as a big-endian two's complement number, are the time. */
  lemma TimeReadsBack(x: i64)
    ensures
      var v := BigEndianValue(TimeBytes(x));
      |TimeBytes(x)| == 8 && x == if v < 0x8000_0000_0000_0000 then v else v - 0x1_0000_0000_0000_0000
  {
    EightBytes();
    BigEndianReadsBack(if x >= 0 then x else x + 0x1_0000_0000_0000_0000, 8);
  }

  lemma EightBytes()
    ensures Power256(8) == 0x1_0000_0000_0000_0000
  {
    assert Power256(4) == 256 * 256 * Power256(2) == 0x1_0000_0000;
    assert Power256(8) == 256 * 256 * Power256(6) && Power256(6) == 256 * 256 * Power256(4);
  }

  function OrEmpty(t: Option<Text>): Text {
    if t.Some? then t.value else []
  }

  function Fields(routeKey: Text, action: Text, result: Text, createdAt: i64): seq<byte> {
    routeKey + [PIPE] + (action + [PIPE] + (result + [PIPE] + TimeBytes(createdAt)))
  }

  /** What `compute_entry_hash` feeds to the hasher. */
  function Preimage(prev: Text, routeKey: Text, action: Text, result: Text, createdAt: i64): seq<byte> {
    prev + [PIPE] + Fields(routeKey, action, result, createdAt)
  }

  function EntryHash(h: Digest, prev: Text, routeKey: Text, action: Text, result: Text, createdAt: i64): Text {
    Hex(h(Preimage(prev, routeKey, action, result, createdAt)))
  }

  function RowBytes(r: Row): seq<byte> {
    Preimage(OrEmpty(r.prevHash), OrEmpty(r.routeKey), r.action, r.result, r.createdAt)
  }

  lemma {:induction false} BigEndianInjective(x: nat, y: nat, n: nat)
    requires x < Power256(n) && y < Power256(n) && BigEndian(x, n) == BigEndian(y, n)
    ensures x == y
  {
    if n > 0 {
      var a, b := BigEndian(x, n), BigEndian(y, n);
      assert BigEndian(x / 256, n - 1) == a[..n - 1] == b[..n - 1] == BigEndian(y / 256, n - 1);
      assert x % 256 == a[n - 1] == b[n - 1] == y % 256;
      BigEndianInjective(x / 256, y / 256, n - 1);
    }
  }

  lemma TimeInjective(x: i64, y: i64)
    requires TimeBytes(x) == TimeBytes(y)
    ensures x == y
  {
    TimeReadsBack(x);
    TimeReadsBack(y);
  }

  /** Which field stands where in the hashed text: link, route key, action and result, each
      followed by one '|' (124), then the time; a missing link or route key has no bytes. */
  lemma RowLayout(r: Row)
    ensures
      var prev := if r.prevHash.Some? then r.prevHash.value else [];
      var key := if r.routeKey.Some? then r.routeKey.value else [];
      RowBytes(r) == prev + [124] + key + [124] + r.action + [124] + r.result + [124] + TimeBytes(r.createdAt)
  {
    var tail := r.result + [124] + TimeBytes(r.createdAt);
    var key := OrEmpty(r.routeKey);
    assert key + [124] + (r.action + [124] + tail) == key + [124] + r.action + [124] + tail;
    assert key + [124] + r.action + [124] + tail
        == key + [124] + r.action + [124] + r.result + [124] + TimeBytes(r.createdAt);
  }

  /** The hashed bytes determine the fields when route key and action hold no separator;
      the result may hold any, since the eight time bytes are cut off from the end. */
  lemma FieldsInjective(rk: Text, ac: Text, re: Text, at: i64, rk': Text, ac': Text, re': Text, at': i64)
    requires PIPE !in rk && PIPE !in ac && PIPE !in rk' && PIPE !in ac'
    requires Fields(rk, ac, re, at) == Fields(rk', ac', re', at')
    ensures rk == rk' && ac == ac' && re == re' && at == at'
  {
    var tail, tail' := re + [PIPE] + TimeBytes(at), re' + [PIPE] + TimeBytes(at');
    FirstSeparator(PIPE, rk, ac + [PIPE] + tail, rk', ac' + [PIPE] + tail');
    FirstSeparator(PIPE, ac, tail, ac', tail');
    assert TimeBytes(at) == tail[|tail| - 8..] && TimeBytes(at') == tail'[|tail'| - 8..];
    TimeInjective(at, at');
    assert re == tail[..|tail| - 9] && re' == tail'[..|tail'| - 9];
  }

  /** No other fields give the same bytes. */
  ghost predicate Identified(rk: Text, ac: Text, re: Text, at: i64) {
    forall rk', ac', re', at' :: Fields(rk', ac', re', at') == Fields(rk, ac, re, at) ==>
      rk' == rk && ac' == ac && re' == re && at' == at
  }

  function Texts(rk: Text, ac: Text, re: Text): seq<byte> {
    rk + [PIPE] + (ac + [PIPE] + re)
  }

  lemma PipesInTexts(rk: Text, ac: Text, re: Text)
    ensures multiset(Texts(rk, ac, re))[PIPE] == multiset(rk)[PIPE] + multiset(ac)[PIPE] + multiset(re)[PIPE] + 2
  {
  }

  lemma FieldsEndInTime(rk: Text, ac: Text, re: Text, at: i64)
    ensures
      var f := Fields(rk, ac, re, at);
      |f| >= 9 && f[..|f| - 9] == Texts(rk, ac, re)
  {
    assert Fields(rk, ac, re, at) == Texts(rk, ac, re) + [PIPE] + TimeBytes(at);
  }

  lemma PlainFieldsDiffer(rk: Text, ac: Text, re: Text, at: i64, rk': Text, ac': Text, re': Text, at': i64)
    requires PIPE !in rk && PIPE !in ac && PIPE !in re && Fields(rk', ac', re', at') == Fields(rk, ac, re, at)
    ensures rk' == rk && ac' == ac && re' == re && at' == at
  {
    FieldsEndInTime(rk, ac, re, at);
    FieldsEndInTime(rk', ac', re', at');
    PipesInTexts(rk, ac, re);
    PipesInTexts(rk', ac', re');
    FieldsInjective(rk', ac', re', at', rk, ac, re, at);
  }

  /** With a separator inside, other fields hash the same bytes, whatever the digest. */
  lemma PipedFieldsAreShared(rk: Text, ac: Text, re: Text, at: i64)
    requires PIPE in rk || PIPE in ac || PIPE in re
    ensures !Identified(rk, ac, re, at)
  {
    var tail := re + [PIPE] + TimeBytes(at);
    if PIPE in rk {
      var x, y := CutAt(PIPE, rk);
      assert x + [PIPE] + (y + [PIPE] + ac + [PIPE] + tail) == rk + [PIPE] + (ac + [PIPE] + tail);
      assert Fields(x, y + [PIPE] + ac, re, at) == Fields(rk, ac, re, at);
    } else if PIPE in ac {
      var x, y := CutAt(PIPE, ac);
      assert rk + [PIPE] + x + [PIPE] + (y + [PIPE] + tail) == rk + [PIPE] + (ac + [PIPE] + tail);
      assert Fields(rk + [PIPE] + x, y, re, at) == Fields(rk, ac, re, at);
    } else {
      var x, y := CutAt(PIPE, re);
      assert ac + [PIPE] + x + [PIPE] + (y + [PIPE] + TimeBytes(at)) == ac + [PIPE] + tail;
      assert Fields(rk, ac + [PIPE] + x, y, at) == Fields(rk, ac, re, at);
    }
  }

  /** The hashed bytes single out one tuple of fields exactly when none holds a separator. */
  lemma IdentifiedIffPlain(rk: Text, ac: Text, re: Text, at: i64)
    ensures Identified(rk, ac, re, at) <==> PIPE !in rk && PIPE !in ac && PIPE !in re
  {
    if PIPE !in rk && PIPE !in ac && PIPE !in re {
      forall rk', ac', re', at' | Fields(rk', ac', re', at') == Fields(rk, ac, re, at)
        ensures rk' == rk && ac' == ac && re' == re && at' == at
      {
        PlainFieldsDiffer(rk, ac, re, at, rk', ac', re', at');
      }
    } else {
      PipedFieldsAreShared(rk, ac, re, at);
    }
  }

  // ---- verification ----

  function ExpectedPrev(rows: seq<Row>, i: nat): Option<Text>
    requires i < |rows|
  {
    if i == 0 then None else Some(rows[i - 1].entryHash)
  }

  predicate RowHolds(h: Digest, rows: seq<Row>, i: nat)
    requires i < |rows|
  {
    rows[i].prevHash == ExpectedPrev(rows, i) && rows[i].entryHash == Hex(h(RowBytes(rows[i])))
  }

  /** A log is accepted when every row links to its predecessor and hashes to its own hash. */
  ghost predicate Accepted(h: Digest, rows: seq<Row>) {
    forall i :: 0 <= i < |rows| ==> RowHolds(h, rows, i)
  }

  function Head(rows: seq<Row>): Option<Text> {
    if rows == [] then None else Some(rows[|rows| - 1].entryHash)
  }

  /** Acceptance and head, row by row. */
  lemma AcceptedMeans(h: Digest, rows: seq<Row>)
    ensures Accepted(h, rows) <==> forall i :: 0 <= i < |rows| ==>
              && rows[i].prevHash == (if i == 0 then None else Some(rows[i - 1].entryHash))
              && rows[i].entryHash == Hex(h(RowBytes(rows[i])))
    ensures Head(rows) == if rows == [] then None else Some(rows[|rows| - 1].entryHash)
  {
    if forall i :: 0 <= i < |rows| ==>
         && rows[i].prevHash == (if i == 0 then None else Some(rows[i - 1].entryHash))
         && rows[i].entryHash == Hex(h(RowBytes(rows[i])))
    {
      forall i | 0 <= i < |rows| ensures RowHolds(h, rows, i) {}
    }
    if Accepted(h, rows) {
      forall i | 0 <= i < |rows|
        ensures rows[i].prevHash == (if i == 0 then None else Some(rows[i - 1].entryHash))
        ensures rows[i].entryHash == Hex(h(RowBytes(rows[i])))
      {
        assert RowHolds(h, rows, i);
      }
    }
  }

  /** Row i is bad and this is its error: a wrong link is reported before a wrong hash. */
  ghost predicate Reported(h: Digest, rows: seq<Row>, i: nat, error: ChainError) {
    && i < |rows|
    && var r, prev := rows[i], if i == 0 then None else Some(rows[i - 1].entryHash);
       var hash := Hex(h(RowBytes(r)));
       if r.prevHash != prev then error == HeadMismatch(r.id, prev, r.prevHash)
       else r.entryHash != hash && error == HashMismatch(r.id, hash, r.entryHash)
  }

  method Verify(h: Digest, rows: seq<Row>) returns (r: Result<Option<Text>, ChainError>)
    ensures r.Ok? <==> Accepted(h, rows)
    ensures r.Ok? ==> r.value == Head(rows)
    ensures r.Err? ==> exists i :: 0 <= i < |rows| && Accepted(h, rows[..i]) && Reported(h, rows, i, r.error)
  {
    var expectedPrev: Option<Text> := None;
    var lastHash: Option<Text> := None;
    for i := 0 to |rows|
      invariant forall k :: 0 <= k < i ==> RowHolds(h, rows, k)
      invariant expectedPrev == lastHash == Head(rows[..i])
    {
      var row := rows[i];
      assert expectedPrev == ExpectedPrev(rows, i);
      assert Accepted(h, rows[..i]) by {
        forall k | 0 <= k < i ensures RowHolds(h, rows[..i], k) { assert RowHolds(h, rows, k); }
      }
      if row.prevHash != expectedPrev {
        assert !RowHolds(h, rows, i) && Reported(h, rows, i, HeadMismatch(row.id, expectedPrev, row.prevHash));
        return Err(HeadMismatch(row.id, expectedPrev, row.prevHash));
      }
      var bytes := Preimage(OrEmpty(row.prevHash), OrEmpty(row.routeKey), row.action, row.result, row.createdAt);
      var computed := ToHex(h(bytes));
      if computed != row.entryHash {
        assert !RowHolds(h, rows, i) && Reported(h, rows, i, HashMismatch(row.id, computed, row.entryHash));
        return Err(HashMismatch(row.id, computed, row.entryHash));
      }
      expectedPrev := Some(computed);
      lastHash := Some(computed);
    }
    assert rows[..|rows|] == rows;
    return Ok(lastHash);
  }

  // ---- what an accepted log commits to ----

  /** A digest collision between rows of the two logs. (That some collision exists somewhere
      is true of every bounded digest; the theorems exhibit one in the logs themselves.) */
  ghost predicate Collide(h: Digest, a: seq<Row>, b: seq<Row>) {
    exists i, j :: 0 <= i < |a| && 0 <= j < |b|
      && RowBytes(a[i]) != RowBytes(b[j]) && h(RowBytes(a[i])) == h(RowBytes(b[j]))
  }

  /** Equal entry hashes mean equal bytes, hence equal links. */
  lemma SameHashSameLink(h: Digest, a: seq<Row>, i: nat, b: seq<Row>, j: nat)
    requires Is256Bit(h) && Accepted(h, a) && Accepted(h, b) && !Collide(h, a, b) && i < |a| && j < |b|
    requires a[i].entryHash == b[j].entryHash
    ensures RowBytes(a[i]) == RowBytes(b[j])
    ensures (i == 0 <==> j == 0) && a[i].prevHash == b[j].prevHash
  {
    assert RowHolds(h, a, i) && RowHolds(h, b, j);
    HexInjective(h(RowBytes(a[i])), h(RowBytes(b[j])));
    assert RowBytes(a[i]) == RowBytes(b[j]);
    LinkShape(h, a, i);
    LinkShape(h, b, j);
    var x, y := a[i], b[j];
    FirstSeparator(PIPE, OrEmpty(x.prevHash), Fields(OrEmpty(x.routeKey), x.action, x.result, x.createdAt),
              OrEmpty(y.prevHash), Fields(OrEmpty(y.routeKey), y.action, y.result, y.createdAt));
  }

  /** The genesis link is empty and every other link is 64 hexadecimal digits. */
  lemma LinkShape(h: Digest, a: seq<Row>, i: nat)
    requires Is256Bit(h) && Accepted(h, a) && i < |a|
    ensures PIPE !in OrEmpty(a[i].prevHash)
    ensures |OrEmpty(a[i].prevHash)| == if i == 0 then 0 else 64
  {
    assert RowHolds(h, a, i);
    if i > 0 {
      assert RowHolds(h, a, i - 1);
      HexShape(h(RowBytes(a[i - 1])));
    }
  }

  lemma {:induction false} SameHashSameHistory(h: Digest, a: seq<Row>, i: nat, b: seq<Row>, j: nat)
    requires Is256Bit(h) && Accepted(h, a) && Accepted(h, b) && !Collide(h, a, b) && i < |a| && j < |b|
    requires a[i].entryHash == b[j].entryHash
    ensures i == j && forall k :: 0 <= k <= i ==> RowBytes(a[k]) == RowBytes(b[k])
  {
    SameHashSameLink(h, a, i, b, j);
    if i > 0 {
      assert RowHolds(h, a, i) && RowHolds(h, b, j);
      SameHashSameHistory(h, a, i - 1, b, j - 1);
    }
  }

  ghost predicate SameBytes(a: seq<Row>, b: seq<Row>) {
    |a| == |b| && forall k :: 0 <= k < |a| ==> RowBytes(a[k]) == RowBytes(b[k])
  }

  /** The head commits to the whole log: short of a collision between their rows, two
      accepted logs have the same head exactly when they have the same hashed bytes. */
  lemma HeadCommits(h: Digest, a: seq<Row>, b: seq<Row>)
    requires Is256Bit(h) && Accepted(h, a) && Accepted(h, b) && !Collide(h, a, b)
    ensures Head(a) == Head(b) <==> SameBytes(a, b)
  {
    if a != [] && b != [] && Head(a) == Head(b) { SameHashSameHistory(h, a, |a| - 1, b, |b| - 1); }
    if SameBytes(a, b) { SameBytesSameHead(h, a, b); }
  }

  lemma SameBytesSameHead(h: Digest, a: seq<Row>, b: seq<Row>)
    requires Accepted(h, a) && Accepted(h, b) && SameBytes(a, b)
    ensures Head(a) == Head(b)
  {
    if a != [] {
      var n := |a| - 1;
      assert RowHolds(h, a, n) && RowHolds(h, b, n);
      assert RowBytes(a[n]) == RowBytes(b[n]);
    }
  }

  ghost predicate SeparatorFree(rows: seq<Row>) {
    forall k :: 0 <= k < |rows| ==> PIPE !in OrEmpty(rows[k].routeKey) && PIPE !in rows[k].action
  }

  predicate SameContent(r: Row, s: Row) {
    && r.prevHash == s.prevHash && r.entryHash == s.entryHash
    && OrEmpty(r.routeKey) == OrEmpty(s.routeKey) && r.action == s.action
    && r.result == s.result && r.createdAt == s.createdAt
  }

  /** And, for separator-free fields, to every field of every row (NULL and empty route
      keys being the same bytes). */
  lemma HeadCommitsToFields(h: Digest, a: seq<Row>, b: seq<Row>)
    requires Is256Bit(h) && Accepted(h, a) && Accepted(h, b) && !Collide(h, a, b)
    requires SeparatorFree(a) && SeparatorFree(b)
    requires Head(a) == Head(b)
    ensures |a| == |b| && forall k :: 0 <= k < |a| ==> SameContent(a[k], b[k])
  {
    HeadCommits(h, a, b);
    forall k | 0 <= k < |a| ensures SameContent(a[k], b[k]) {
      assert RowHolds(h, a, k) && RowHolds(h, b, k);
      SameHashSameLink(h, a, k, b, k);
      var x, y := a[k], b[k];
      LinkShape(h, a, k);
      LinkShape(h, b, k);
      FirstSeparator(PIPE, OrEmpty(x.prevHash), Fields(OrEmpty(x.routeKey), x.action, x.result, x.createdAt),
                OrEmpty(y.prevHash), Fields(OrEmpty(y.routeKey), y.action, y.result, y.createdAt));
      FieldsInjective(OrEmpty(x.routeKey), x.action, x.result, x.createdAt,
                      OrEmpty(y.routeKey), y.action, y.result, y.createdAt);
    }
  }

  ghost predicate SameFields(a: seq<Row>, b: seq<Row>) {
    |a| == |b| && forall k :: 0 <= k < |a| ==> SameContent(a[k], b[k])
  }

  /** Short of a collision, every accepted log with the head of a has the fields of a. */
  ghost predicate HeadFixesFields(h: Digest, a: seq<Row>) {
    forall b :: Accepted(h, b) && Head(b) == Head(a) && !Collide(h, a, b) ==> SameFields(a, b)
  }

  predicate PlainRow(r: Row) {
    PIPE !in OrEmpty(r.routeKey) && PIPE !in r.action && PIPE !in r.result
  }

  ghost predicate AllPlain(rows: seq<Row>) {
    forall k :: 0 <= k < |rows| ==> PlainRow(rows[k])
  }

  /** A plain row and any row with the same link and bytes have the same fields. */
  lemma PlainRowFixed(h: Digest, a: seq<Row>, b: seq<Row>, k: nat)
    requires Is256Bit(h) && Accepted(h, a) && Accepted(h, b) && SameBytes(a, b) && k < |a| && PlainRow(a[k])
    ensures SameContent(a[k], b[k])
  {
    var x, y := a[k], b[k];
    LinkShape(h, a, k);
    LinkShape(h, b, k);
    FirstSeparator(PIPE, OrEmpty(x.prevHash), Fields(OrEmpty(x.routeKey), x.action, x.result, x.createdAt),
                   OrEmpty(y.prevHash), Fields(OrEmpty(y.routeKey), y.action, y.result, y.createdAt));
    PlainFieldsDiffer(OrEmpty(x.routeKey), x.action, x.result, x.createdAt,
                      OrEmpty(y.routeKey), y.action, y.result, y.createdAt);
    assert RowHolds(h, a, k) && RowHolds(h, b, k);
    if k > 0 {
      assert RowHolds(h, a, k - 1) && RowHolds(h, b, k - 1);
    }
  }

  lemma PlainLogFixed(h: Digest, a: seq<Row>)
    requires Is256Bit(h) && Accepted(h, a) && AllPlain(a)
    ensures HeadFixesFields(h, a)
  {
    forall b | Accepted(h, b) && Head(b) == Head(a) && !Collide(h, a, b) ensures SameFields(a, b) {
      HeadCommits(h, a, b);
      forall k | 0 <= k < |a| ensures SameContent(a[k], b[k]) {
        PlainRowFixed(h, a, b, k);
      }
    }
  }

  /** A row rewritten to other fields with the same bytes leaves the chain intact. */
  lemma RewrittenIsAccepted(h: Digest, a: seq<Row>, k: nat, row: Row)
    requires Accepted(h, a) && k < |a| && RowBytes(row) == RowBytes(a[k])
    requires row.prevHash == a[k].prevHash && row.entryHash == a[k].entryHash
    ensures Accepted(h, a[k := row]) && Head(a[k := row]) == Head(a)
    ensures SameBytes(a, a[k := row])
  {
    var b := a[k := row];
    forall i | 0 <= i < |b| ensures RowHolds(h, b, i) {
      assert RowHolds(h, a, i);
    }
  }

  /** Logs of the same bytes collide with a only where a collides with itself. */
  lemma SameBytesNoCollision(h: Digest, a: seq<Row>, b: seq<Row>)
    requires SameBytes(a, b) && !Collide(h, a, a)
    ensures !Collide(h, a, b)
  {
  }

  lemma PipedRowRewritten(a: Row) returns (row: Row)
    requires !PlainRow(a)
    ensures RowBytes(row) == RowBytes(a) && row.prevHash == a.prevHash && row.entryHash == a.entryHash
    ensures !SameContent(a, row)
  {
    PipedFieldsAreShared(OrEmpty(a.routeKey), a.action, a.result, a.createdAt);
    var rk, ac, re, at :| Fields(rk, ac, re, at) == Fields(OrEmpty(a.routeKey), a.action, a.result, a.createdAt)
      && !(rk == OrEmpty(a.routeKey) && ac == a.action && re == a.result && at == a.createdAt);
    row := a.(routeKey := Some(rk), action := ac, result := re, createdAt := at);
  }

  /** The exact condition on the honest log alone: its head fixes every field against every
      other log if and only if none of its texts holds a separator. */
  lemma HeadFixesFieldsIffPlain(h: Digest, a: seq<Row>)
    requires Is256Bit(h) && Accepted(h, a) && !Collide(h, a, a)
    ensures HeadFixesFields(h, a) <==> AllPlain(a)
  {
    if AllPlain(a) {
      PlainLogFixed(h, a);
    } else {
      var k :| 0 <= k < |a| && !PlainRow(a[k]);
      var row := PipedRowRewritten(a[k]);
      RewrittenIsAccepted(h, a, k, row);
      SameBytesNoCollision(h, a, a[k := row]);
      assert a[k := row][k] == row;
    }
  }

  /** No entry hash occurs twice: a repeat would repeat its predecessor, down to genesis. */
  lemma HashesDistinct(h: Digest, a: seq<Row>, i: nat, j: nat)
    requires Is256Bit(h) && Accepted(h, a) && !Collide(h, a, a) && i < |a| && j < |a|
    requires a[i].entryHash == a[j].entryHash
    ensures i == j
  {
    SameHashSameHistory(h, a, i, a, j);
  }

  lemma PrefixAccepted(h: Digest, a: seq<Row>, n: nat)
    requires Accepted(h, a) && n <= |a|
    ensures Accepted(h, a[..n])
  {
    forall k | 0 <= k < n ensures RowHolds(h, a[..n], k) { assert RowHolds(h, a, k); }
  }

  /** A row with the link expected after a[..n] can only be a[n]. */
  lemma LinkFixesPosition(h: Digest, a: seq<Row>, n: nat, k: nat)
    requires Is256Bit(h) && Accepted(h, a) && !Collide(h, a, a) && n <= |a| && k < |a|
    requires a[k].prevHash == Head(a[..n])
    ensures k == n
  {
    assert RowHolds(h, a, k);
    if n > 0 && k > 0 {
      assert a[..n][n - 1] == a[n - 1];
      HashesDistinct(h, a, k - 1, n - 1);
    }
  }

  /** Deleting, reordering or repeating rows of an accepted log gives a rejected log,
      except for cutting off its end. */
  lemma {:induction false} RearrangedIsPrefix(h: Digest, a: seq<Row>, b: seq<Row>)
    requires Is256Bit(h) && Accepted(h, a) && Accepted(h, b) && !Collide(h, a, a)
    requires forall i :: 0 <= i < |b| ==> b[i] in a
    ensures b <= a
  {
    if b != [] {
      var n := |b| - 1;
      PrefixAccepted(h, b, n);
      RearrangedIsPrefix(h, a, b[..n]);
      var k :| 0 <= k < |a| && a[k] == b[n];
      LinkOfRow(h, b, n);
      PrefixEqual(b[..n], a);
      LinkFixesPosition(h, a, n, k);
      PrefixGrows(b, a, n);
    }
  }

  lemma LinkOfRow(h: Digest, b: seq<Row>, n: nat)
    requires Accepted(h, b) && n < |b|
    ensures b[n].prevHash == Head(b[..n])
  {
    assert RowHolds(h, b, n);
  }

  lemma PrefixEqual<T>(p: seq<T>, s: seq<T>)
    requires p <= s
    ensures s[..|p|] == p
  {
  }

  lemma PrefixGrows<T>(p: seq<T>, s: seq<T>, n: nat)
    requires |p| == n + 1 && n < |s| && p[..n] <= s && p[n] == s[n]
    ensures p <= s
  {
    forall i | 0 <= i < |p| ensures p[i] == s[i] {
      if i < n { assert p[i] == p[..n][i]; }
    }
  }

  // ---- recording ----

  function NextRow(h: Digest, log: seq<Row>, routeKey: Option<Text>, action: Text, result: Text, now: i64): Row {
    RowAfter(h, Head(log), |log| + 1, routeKey, action, result, now)
  }

  /** The row `record` inserts when it read `prev` as the chain head. */
  function RowAfter(
      h: Digest, prev: Option<Text>, id: int, routeKey: Option<Text>, action: Text, result: Text, now: i64): Row
  {
    Row(id, prev, EntryHash(h, OrEmpty(prev), OrEmpty(routeKey), action, result, now), routeKey, action, result, now)
  }

  /** A row that hashes to its own hash extends an accepted log exactly when it links to its head. */
  lemma AppendAcceptedExactly(h: Digest, log: seq<Row>, row: Row)
    requires row.entryHash == Hex(h(RowBytes(row)))
    ensures Accepted(h, log + [row]) <==> Accepted(h, log) && row.prevHash == Head(log)
  {
    var log' := log + [row];
    if Accepted(h, log') {
      PrefixAccepted(h, log', |log|);
      LinkOfRow(h, log', |log|);
      assert log'[..|log|] == log;
    }
    if Accepted(h, log) && row.prevHash == Head(log) {
      forall i | 0 <= i < |log'| ensures RowHolds(h, log', i) {
        if i < |log| { assert RowHolds(h, log, i); }
      }
    }
  }

  lemma RecordKeepsAccepted(
      h: Digest, log: seq<Row>, routeKey: Option<Text>, action: Text, result: Text, now: i64)
    requires Accepted(h, log)
    ensures Accepted(h, log + [NextRow(h, log, routeKey, action, result, now)])
  {
    AppendAcceptedExactly(h, log, NextRow(h, log, routeKey, action, result, now));
  }

  /** The `audit_log` table with one writer. */
  class AuditLog {
    const h: Digest
    var rows: seq<Row>

    constructor (h: Digest)
      ensures this.h == h && rows == []
    {
      this.h := h;
      rows := [];
    }

    /** A failed read of the head is taken for an empty log; a failed insert is only logged. */
    method Record(routeKey: Option<Text>, action: Text, result: Text, now: i64, readOk: bool, insertOk: bool)
      modifies this
      ensures !insertOk ==> rows == old(rows)
      ensures insertOk ==>
                rows == old(rows) + [RowAfter(h, if readOk then Head(old(rows)) else None, |old(rows)| + 1,
                                              routeKey, action, result, now)]
      ensures insertOk ==>
                var row := rows[|rows| - 1];
                && row.id == |rows| && row.routeKey == routeKey && row.action == action && row.result == result
                && row.createdAt == now && row.entryHash == Hex(h(RowBytes(row)))
                && row.prevHash
                   == if readOk && old(rows) != [] then Some(old(rows)[|old(rows)| - 1].entryHash) else None
      ensures Accepted(h, rows) <==> old(Accepted(h, rows)) && (insertOk && !readOk ==> old(rows) == [])
    {
      var prevHash := None;
      if readOk && rows != [] { prevHash := Some(rows[|rows| - 1].entryHash); }
      if insertOk {
        var bytes := Preimage(OrEmpty(prevHash), OrEmpty(routeKey), action, result, now);
        var entryHash := ToHex(h(bytes));
        var row := Row(|rows| + 1, prevHash, entryHash, routeKey, action, result, now);
        AppendAcceptedExactly(h, rows, row);
        rows := rows + [row];
      }
    }

    /** `failure` is the storage error, if reading the rows fails. */
    method VerifyChain(failure: Option<Text>) returns (r: Result<Option<Text>, ChainError>)
      ensures failure.Some? ==> r == Err(HeadMismatch(0, None, failure))
      ensures failure.None? ==>
                && (r.Ok? <==> Accepted(h, rows))
                && (r.Ok? ==> r.value == Head(rows))
                && (r.Err? ==>
                      exists i :: 0 <= i < |rows| && Accepted(h, rows[..i]) && Reported(h, rows, i, r.error))
    {
      if failure.Some? {
        return Err(HeadMismatch(0, None, failure));
      }
      r := Verify(h, rows);
    }
  }
}
