/** Delivery targets, their derived ids, and the bindings of projects to targets. */
module Binding {
  import opened Wrappers
  import opened Prelude

  datatype Target = Target(
    channel: string, peerId: string, conversationId: string, conversationType: string, accountScope: Option<string>)

  function Scope(t: Target): string {
    if t.accountScope.Some? then t.accountScope.value else ""
  }

  function TargetId(t: Target): string {
    t.channel + "|" + (t.peerId + "|" + (t.conversationId + "|" + (t.conversationType + "|" + Scope(t))))
  }

  /** The fields in the order of the source, and no scope the same as an empty one. */
  lemma IdSpelledOut()
    ensures TargetId(Target("chan", "peer", "conv", "kind", Some("scope"))) == "chan|peer|conv|kind|scope"
    ensures TargetId(Target("chan", "peer", "conv", "kind", None)) == "chan|peer|conv|kind|"
  {
  }

  /** The UNIQUE tuple of `delivery_targets`: a missing scope is the empty one. */
  predicate SameTuple(a: Target, b: Target) {
    && a.channel == b.channel && a.peerId == b.peerId && a.conversationId == b.conversationId
    && a.conversationType == b.conversationType && Scope(a) == Scope(b)
  }

  predicate PipeFree(t: Target) {
    && '|' !in t.channel && '|' !in t.peerId && '|' !in t.conversationId && '|' !in t.conversationType
    && '|' !in Scope(t)
  }

  // ---- when the id determines the tuple ----

  function Pipes(s: string): nat {
    if s == "" then 0 else (if s[0] == '|' then 1 else 0) + Pipes(s[1..])
  }

  lemma {:induction false} PipesConcat(a: string, b: string)
    ensures Pipes(a + b) == Pipes(a) + Pipes(b)
  {
    if a == "" {
      assert a + b == b;
    } else {
      PipesConcat(a[1..], b);
      assert (a + b)[1..] == a[1..] + b;
    }
  }

  lemma {:induction false} NoPipes(s: string)
    ensures Pipes(s) == 0 <==> '|' !in s
  {
    if s != "" {
      NoPipes(s[1..]);
      assert s == [s[0]] + s[1..];
    }
  }

  lemma PipesJoin(a: string, b: string)
    ensures Pipes(a + "|" + b) == Pipes(a) + 1 + Pipes(b)
  {
    PipesConcat(a + "|", b);
    PipesConcat(a, "|");
  }

  lemma PipesOfId(t: Target)
    ensures Pipes(TargetId(t)) == 4 + Pipes(t.channel) + Pipes(t.peerId) + Pipes(t.conversationId)
                                    + Pipes(t.conversationType) + Pipes(Scope(t))
  {
    var tail3 := t.conversationType + "|" + Scope(t);
    var tail2 := t.conversationId + "|" + tail3;
    PipesJoin(t.conversationType, Scope(t));
    PipesJoin(t.conversationId, tail3);
    PipesJoin(t.peerId, tail2);
    PipesJoin(t.channel, t.peerId + "|" + tail2);
  }

  /** An id has four pipes exactly when its tuple has none inside. */
  lemma FourPipes(t: Target)
    ensures Pipes(TargetId(t)) == 4 <==> PipeFree(t)
  {
    PipesOfId(t);
    NoPipes(t.channel);
    NoPipes(t.peerId);
    NoPipes(t.conversationId);
    NoPipes(t.conversationType);
    NoPipes(Scope(t));
  }

  /** A pipe-free tuple is determined by its id among all tuples, pipe-free or not. */
  lemma IdDeterminesTuple(a: Target, b: Target)
    requires PipeFree(a) && TargetId(a) == TargetId(b)
    ensures SameTuple(a, b)
  {
    FourPipes(a);
    FourPipes(b);
    FirstSeparator('|', a.channel, a.peerId + "|" + (a.conversationId + "|" + (a.conversationType + "|" + Scope(a))),
              b.channel, b.peerId + "|" + (b.conversationId + "|" + (b.conversationType + "|" + Scope(b))));
    FirstSeparator('|', a.peerId, a.conversationId + "|" + (a.conversationType + "|" + Scope(a)),
              b.peerId, b.conversationId + "|" + (b.conversationType + "|" + Scope(b)));
    FirstSeparator('|', a.conversationId, a.conversationType + "|" + Scope(a),
                   b.conversationId, b.conversationType + "|" + Scope(b));
    FirstSeparator('|', a.conversationType, Scope(a), b.conversationType, Scope(b));
  }

  /** A pipe inside a field can be read as the one beside it. */
  lemma JoinShifts(a: string, b: string, rest: string)
    ensures a + "|" + b + "|" + rest == a + "|" + (b + "|" + rest)
  {
  }

  /** And a tuple with a pipe anywhere inside always shares its id with another. */
  lemma PipedIdIsShared(t: Target) returns (other: Target)
    requires !PipeFree(t)
    ensures TargetId(other) == TargetId(t) && !SameTuple(other, t)
  {
    var tail3 := t.conversationType + "|" + Scope(t);
    var tail2 := t.conversationId + "|" + tail3;
    if '|' in t.channel {
      var x, y := CutAt('|', t.channel);
      other := t.(channel := x, peerId := y + "|" + t.peerId);
      JoinShifts(x, y, t.peerId + "|" + tail2);
      JoinShifts(y, t.peerId, tail2);
    } else if '|' in t.peerId {
      var x, y := CutAt('|', t.peerId);
      other := t.(channel := t.channel + "|" + x, peerId := y);
      JoinShifts(t.channel, x, y + "|" + tail2);
      JoinShifts(x, y, tail2);
    } else if '|' in t.conversationId {
      var x, y := CutAt('|', t.conversationId);
      other := t.(peerId := t.peerId + "|" + x, conversationId := y);
      JoinShifts(t.peerId, x, y + "|" + tail3);
      JoinShifts(x, y, tail3);
    } else if '|' in t.conversationType {
      var x, y := CutAt('|', t.conversationType);
      other := t.(conversationId := t.conversationId + "|" + x, conversationType := y);
      JoinShifts(t.conversationId, x, y + "|" + Scope(t));
      JoinShifts(x, y, Scope(t));
    } else {
      var x, y := CutAt('|', Scope(t));
      other := t.(conversationType := t.conversationType + "|" + x, accountScope := Some(y));
      JoinShifts(t.conversationType, x, y);
    }
  }

  ghost predicate OwnsItsId(t: Target) {
    forall other :: TargetId(other) == TargetId(t) ==> SameTuple(other, t)
  }

  /** A tuple is the only one with its id exactly when no field holds a pipe. */
  lemma OwnsIdIffPipeFree(t: Target)
    ensures OwnsItsId(t) <==> PipeFree(t)
  {
    if PipeFree(t) {
      forall other | TargetId(other) == TargetId(t) ensures SameTuple(other, t) {
        IdDeterminesTuple(t, other);
      }
    } else {
      var other := PipedIdIsShared(t);
    }
  }

  // ---- trimming ----

  // On characters, since these texts are strings from the start; Utf8.Trim is the same
  // function on the UTF-8 bytes of a stream (TextForms.TrimAgrees).

  /** `char::is_whitespace`: the Unicode white-space characters. */
  predicate IsSpace(ch: char) {
    var x := ch as int;
    || 0x9 <= x <= 0xD || x == 0x20 || x == 0x85 || x == 0xA0 || x == 0x1680 || 0x2000 <= x <= 0x200A
    || x == 0x2028 || x == 0x2029 || x == 0x202F || x == 0x205F || x == 0x3000
  }

  function Trim(s: string): string {
    if s == "" then s
    else if IsSpace(s[0]) then Trim(s[1..])
    else if IsSpace(s[|s| - 1]) then Trim(s[..|s| - 1])
    else s
  }

  /** Non-empty, with no white space at either end. */
  predicate Solid(s: string) {
    s != "" && !IsSpace(s[0]) && !IsSpace(s[|s| - 1])
  }

  lemma {:induction false} TrimIsSolid(s: string)
    ensures Trim(s) == "" || Solid(Trim(s))
    ensures Solid(s) ==> Trim(s) == s
    decreases |s|
  {
    if s != "" {
      if IsSpace(s[0]) { TrimIsSolid(s[1..]); } else if IsSpace(s[|s| - 1]) { TrimIsSolid(s[..|s| - 1]); }
    }
  }

  // ---- the two tables ----

  datatype Bindings = Bindings(targets: map<string, Target>, pairs: set<(string, string)>)

  /** An import record, as read from the file. */
  datatype Record = Record(project: string, target: Target)

  /** The target a record stands for: every field but the scope is trimmed. */
  function TargetOf(r: Record): Target {
    var t := r.target;
    Target(Trim(t.channel), Trim(t.peerId), Trim(t.conversationId), Trim(t.conversationType), t.accountScope)
  }

  function BindingId(project: string, targetId: string): string {
    project + "|" + targetId
  }

  predicate AllPresent(t: Target) {
    t.channel != "" && t.peerId != "" && t.conversationId != "" && t.conversationType != ""
  }

  predicate Complete(r: Record) {
    Trim(r.project) != "" && AllPresent(TargetOf(r))
  }

  /** Upsert of the target row: an id already standing for another tuple is a key conflict. */
  function UpsertTarget(b: Bindings, t: Target): Result<Bindings, string> {
    var id := TargetId(t);
    if id !in b.targets then Ok(b.(targets := b.targets[id := t]))
    else if SameTuple(b.targets[id], t) then Ok(b)
    else Err("target_id conflict")
  }

  /** Another pair already stands under the binding's own id. */
  predicate PairConflict(b: Bindings, project: string, targetId: string) {
    exists q :: q in b.pairs && q != (project, targetId) && BindingId(q.0, q.1) == BindingId(project, targetId)
  }

  function UpsertBinding(b: Bindings, project: string, targetId: string): Result<Bindings, string> {
    if PairConflict(b, project, targetId) then Err("binding id conflict")
    else Ok(b.(pairs := b.pairs + {(project, targetId)}))
  }

  /** The record goes through: it is complete and meets no key conflict. */
  predicate Accepts(b: Bindings, r: Record) {
    && Complete(r) && UpsertTarget(b, TargetOf(r)).Ok?
    && !PairConflict(b, Trim(r.project), TargetId(TargetOf(r)))
  }

  /** One import record; a failed second write keeps the first. */
  function ApplyRecord(b: Bindings, r: Record): Bindings {
    if !Complete(r) then b
    else
      match UpsertTarget(b, TargetOf(r))
      case Err(_) => b
      case Ok(b1) =>
        match UpsertBinding(b1, Trim(r.project), TargetId(TargetOf(r)))
        case Err(_) => b1
        case Ok(b2) => b2
  }

  function ApplyAll(records: seq<Record>): Bindings {
    if records == [] then Bindings(map[], {})
    else ApplyRecord(ApplyAll(records[..|records| - 1]), records[|records| - 1])
  }

  /** The n-th record went through. */
  predicate WentThrough(records: seq<Record>, n: nat) {
    n < |records| && Accepts(ApplyAll(records[..n]), records[n])
  }

  predicate Binds(r: Record, project: string, t: Target) {
    Trim(r.project) == project && SameTuple(TargetOf(r), t)
  }

  /** Some record that went through bound the project to this very tuple. */
  ghost predicate WasBound(records: seq<Record>, project: string, t: Target) {
    exists n: nat :: WentThrough(records, n) && Binds(records[n], project, t)
  }

  /** A stored pair stems from a record that went through with that project and target id. */
  lemma {:induction false} PairsComeFromRecords(records: seq<Record>, project: string, id: string) returns (n: nat)
    requires (project, id) in ApplyAll(records).pairs
    ensures WentThrough(records, n) && Trim(records[n].project) == project && TargetId(TargetOf(records[n])) == id
  {
    var front := records[..|records| - 1];
    if (project, id) in ApplyAll(front).pairs {
      n := PairsComeFromRecords(front, project, id);
      assert front[..n] == records[..n];
    } else {
      n := |records| - 1;
    }
  }

  // ---- no conflicts ----

  ghost predicate PlainProjects(records: seq<Record>) {
    forall i :: 0 <= i < |records| ==> '|' !in Trim(records[i].project)
  }

  lemma PairsHavePlainProjects(records: seq<Record>, project: string, id: string)
    requires PlainProjects(records) && (project, id) in ApplyAll(records).pairs
    ensures '|' !in project
  {
    var n := PairsComeFromRecords(records, project, id);
  }

  /** With project keys free of pipes no two bindings share a binding id. */
  lemma NoPairConflict(records: seq<Record>, project: string, id: string)
    requires PlainProjects(records) && '|' !in project
    ensures !PairConflict(ApplyAll(records), project, id)
  {
    var pairs := ApplyAll(records).pairs;
    forall q | q in pairs && BindingId(q.0, q.1) == BindingId(project, id) ensures q == (project, id) {
      assert (q.0, q.1) == q;
      PairsHavePlainProjects(records, q.0, q.1);
      FirstSeparator('|', q.0, q.1, project, id);
    }
  }

  lemma {:induction false} TargetsComeFromRecords(records: seq<Record>, id: string) returns (n: nat)
    requires id in ApplyAll(records).targets
    ensures n < |records| && Complete(records[n])
    ensures ApplyAll(records).targets[id] == TargetOf(records[n]) && TargetId(TargetOf(records[n])) == id
  {
    var front := records[..|records| - 1];
    if id in ApplyAll(front).targets {
      n := TargetsComeFromRecords(front, id);
    } else {
      n := |records| - 1;
    }
  }

  // ---- exactly which targets an id check keeps out when they were not bound ----

  /** No sequence of records makes the id of t look bound without binding t itself. */
  ghost predicate Safe(t: Target) {
    forall records, project ::
      (project, TargetId(t)) in ApplyAll(records).pairs ==> WasBound(records, project, t)
  }

  /** Four pipes of s that cut off four solid fields. */
  predicate Cuts(s: string, i: nat, j: nat, k: nat, l: nat) {
    && i < j < k < l < |s| && s[i] == '|' && s[j] == '|' && s[k] == '|' && s[l] == '|'
    && Solid(s[..i]) && Solid(s[i + 1..j]) && Solid(s[j + 1..k]) && Solid(s[k + 1..l])
  }

  function CutUp(s: string, i: nat, j: nat, k: nat, l: nat): Target
    requires i < j < k < l < |s|
  {
    Target(s[..i], s[i + 1..j], s[j + 1..k], s[k + 1..l], Some(s[l + 1..]))
  }

  /** The id of t can be cut into four solid fields and a scope in no way other than into t's own. */
  ghost predicate CutsOneWay(t: Target) {
    forall i, j, k, l :: Cuts(TargetId(t), i, j, k, l) ==> SameTuple(CutUp(TargetId(t), i, j, k, l), t)
  }

  /** Cutting at four pipes and joining again gives the id back. */
  lemma CutUpJoins(s: string, i: nat, j: nat, k: nat, l: nat)
    requires i < j < k < l < |s| && s[i] == '|' && s[j] == '|' && s[k] == '|' && s[l] == '|'
    ensures TargetId(CutUp(s, i, j, k, l)) == s
  {
    assert s[k + 1..] == s[k + 1..l] + "|" + s[l + 1..];
    assert s[j + 1..] == s[j + 1..k] + "|" + s[k + 1..];
    assert s[i + 1..] == s[i + 1..j] + "|" + s[j + 1..];
    assert s == s[..i] + "|" + s[i + 1..];
  }

  /** And a joined tuple is cut up again at its own four pipes. */
  lemma JoinCutsUp(t: Target) returns (i: nat, j: nat, k: nat, l: nat)
    requires Solid(t.channel) && Solid(t.peerId) && Solid(t.conversationId) && Solid(t.conversationType)
    ensures Cuts(TargetId(t), i, j, k, l) && SameTuple(CutUp(TargetId(t), i, j, k, l), t)
  {
    var tail3 := t.conversationType + "|" + Scope(t);
    var tail2 := t.conversationId + "|" + tail3;
    var tail1 := t.peerId + "|" + tail2;
    i, j, k, l := FindPipes(TargetId(t), t, tail1, tail2, tail3);
    FieldsCutUp(TargetId(t), t, i, j, k, l);
  }

  lemma FindPipes(s: string, t: Target, tail1: string, tail2: string, tail3: string)
      returns (i: nat, j: nat, k: nat, l: nat)
    requires s == t.channel + "|" + tail1 && tail1 == t.peerId + "|" + tail2
    requires tail2 == t.conversationId + "|" + tail3 && tail3 == t.conversationType + "|" + Scope(t)
    ensures i < j < k < l < |s| && s[i] == '|' && s[j] == '|' && s[k] == '|' && s[l] == '|'
    ensures s[0..i] == t.channel && s[i + 1..j] == t.peerId && s[j + 1..k] == t.conversationId
    ensures s[k + 1..l] == t.conversationType && s[l + 1..] == Scope(t)
  {
    assert s[0..] == s;
    i := SplitAt(s, t.channel, tail1, 0);
    j := SplitAt(s, t.peerId, tail2, i + 1);
    k := SplitAt(s, t.conversationId, tail3, j + 1);
    l := SplitAt(s, t.conversationType, Scope(t), k + 1);
  }

  lemma FieldsCutUp(s: string, t: Target, i: nat, j: nat, k: nat, l: nat)
    requires Solid(t.channel) && Solid(t.peerId) && Solid(t.conversationId) && Solid(t.conversationType)
    requires i < j < k < l < |s| && s[i] == '|' && s[j] == '|' && s[k] == '|' && s[l] == '|'
    requires s[0..i] == t.channel && s[i + 1..j] == t.peerId && s[j + 1..k] == t.conversationId
    requires s[k + 1..l] == t.conversationType && s[l + 1..] == Scope(t)
    ensures Cuts(s, i, j, k, l) && SameTuple(CutUp(s, i, j, k, l), t)
  {
    assert s[..i] == s[0..i];
  }

  /** From `from` on s is a field, a pipe and the rest. */
  lemma SplitAt(s: string, field: string, rest: string, from: nat) returns (end: nat)
    requires from <= |s| && s[from..] == field + "|" + rest
    ensures from <= end < |s| && s[from..end] == field && s[end] == '|' && s[end + 1..] == rest
  {
    var n := |field|;
    end := from + n;
    assert s[from..][..n] == field && s[from..][n] == '|' && s[from..][n + 1..] == rest;
  }

  lemma CompleteIsSolid(r: Record)
    requires Complete(r)
    ensures
      var t := TargetOf(r);
      Solid(t.channel) && Solid(t.peerId) && Solid(t.conversationId) && Solid(t.conversationType)
  {
    TrimIsSolid(r.target.channel);
    TrimIsSolid(r.target.peerId);
    TrimIsSolid(r.target.conversationId);
    TrimIsSolid(r.target.conversationType);
  }

  /** If the id of a target that cuts up one way is bound to a project, the target was. */
  lemma BoundIdIsBoundTuple(records: seq<Record>, project: string, t: Target)
    requires CutsOneWay(t) && (project, TargetId(t)) in ApplyAll(records).pairs
    ensures WasBound(records, project, t)
  {
    var n := PairsComeFromRecords(records, project, TargetId(t));
    CompleteIsSolid(records[n]);
    var i, j, k, l := JoinCutsUp(TargetOf(records[n]));
    assert Cuts(TargetId(t), i, j, k, l);
    assert WentThrough(records, n) && Binds(records[n], project, t);
  }

  /** Binding one solid tuple binds its id, on its own and to nothing else. */
  lemma BindOne(project: string, t: Target)
    requires Solid(project)
    requires Solid(t.channel) && Solid(t.peerId) && Solid(t.conversationId) && Solid(t.conversationType)
    ensures
      var r := Record(project, t);
      && Complete(r) && Trim(project) == project && TargetOf(r) == t
      && ApplyAll([r]) == Bindings(map[TargetId(t) := t], {(project, TargetId(t))})
  {
    TrimIsSolid(project);
    TrimIsSolid(t.channel);
    TrimIsSolid(t.peerId);
    TrimIsSolid(t.conversationId);
    TrimIsSolid(t.conversationType);
    assert [Record(project, t)][..0] == [];
  }

  lemma BoundAlone(project: string, bound: Target, t: Target)
    requires TargetOf(Record(project, bound)) == bound && WasBound([Record(project, bound)], project, t)
    ensures SameTuple(bound, t)
  {
  }

  lemma SafeCutsOneWay(t: Target, i: nat, j: nat, k: nat, l: nat)
    requires Safe(t) && Cuts(TargetId(t), i, j, k, l)
    ensures SameTuple(CutUp(TargetId(t), i, j, k, l), t)
  {
    var other := CutUp(TargetId(t), i, j, k, l);
    CutUpJoins(TargetId(t), i, j, k, l);
    BindOne("p", other);
    assert ("p", TargetId(t)) in ApplyAll([Record("p", other)]).pairs;
    BoundAlone("p", other, t);
  }

  /** The exact condition: a target whose id looks bound was bound, whatever the records,
      if and only if its id can be cut up in no other way. */
  lemma SafeIffCutsOneWay(t: Target)
    ensures Safe(t) <==> CutsOneWay(t)
  {
    if CutsOneWay(t) {
      forall records, project | (project, TargetId(t)) in ApplyAll(records).pairs
        ensures WasBound(records, project, t)
      {
        BoundIdIsBoundTuple(records, project, t);
      }
    }
    if Safe(t) {
      forall i, j, k, l | Cuts(TargetId(t), i, j, k, l)
        ensures SameTuple(CutUp(TargetId(t), i, j, k, l), t)
      {
        SafeCutsOneWay(t, i, j, k, l);
      }
    }
  }

  /** Without pipes there is only one way. */
  lemma PipeFreeCutsOneWay(t: Target)
    requires PipeFree(t)
    ensures CutsOneWay(t)
  {
    forall i, j, k, l | Cuts(TargetId(t), i, j, k, l)
      ensures SameTuple(CutUp(TargetId(t), i, j, k, l), t)
    {
      CutUpJoins(TargetId(t), i, j, k, l);
      IdDeterminesTuple(t, CutUp(TargetId(t), i, j, k, l));
    }
  }

  const HARMLESS: Target := Target("a", "|", "c", "d", None)

  lemma HarmlessId()
    ensures TargetId(HARMLESS) == "a|||c|d|"
  {
  }

  lemma HarmlessFields()
    ensures CutUp("a|||c|d|", 1, 3, 5, 7) == HARMLESS.(accountScope := Some(""))
  {
    var s := "a|||c|d|";
    assert s[..1] == "a" && s[2..3] == "|" && s[4..5] == "c" && s[6..7] == "d" && s[8..] == "";
  }

  /** Pipes need not harm: the peer "|" leaves no other way to cut. */
  lemma PipeCanBeHarmless()
    ensures !PipeFree(HARMLESS) && CutsOneWay(HARMLESS)
  {
    HarmlessId();
    HarmlessFields();
    assert HARMLESS.peerId[0] == '|';
    var s := TargetId(HARMLESS);
    forall i, j, k, l | Cuts(s, i, j, k, l) ensures i == 1 && j == 3 && k == 5 && l == 7 {
      FieldsTakeRoom(s, i, j, k, l);
    }
  }

  /** Solid fields are at least one character long, so eight characters fit one way. */
  lemma FieldsTakeRoom(s: string, i: nat, j: nat, k: nat, l: nat)
    requires Cuts(s, i, j, k, l)
    ensures 0 < i && i + 1 < j && j + 1 < k && k + 1 < l
    ensures |s| == 8 ==> i == 1 && j == 3 && k == 5 && l == 7
  {
  }

  /** With project keys free of pipes and a target id that cuts up one way, a record goes
      through exactly when it is complete. */
  lemma PlainRecordGoesThrough(records: seq<Record>, r: Record)
    requires PlainProjects(records) && '|' !in Trim(r.project) && CutsOneWay(TargetOf(r))
    ensures Accepts(ApplyAll(records), r) <==> Complete(r)
  {
    var t, b := TargetOf(r), ApplyAll(records);
    NoPairConflict(records, Trim(r.project), TargetId(t));
    if TargetId(t) in b.targets {
      var n := TargetsComeFromRecords(records, TargetId(t));
      CompleteIsSolid(records[n]);
      var i, j, k, l := JoinCutsUp(TargetOf(records[n]));
    }
  }
}
