/** JSON Patch diffs of cumulative JSON streaming, and what applying them under RFC 6902 section 4 gives. */
module JsonPatch {
  import opened Common
  import opened JsonPointer

  datatype OpKind = Add | Remove | Replace
  datatype Operation = Operation(op: OpKind, path: string, value: JSON)   // a remove carries no value

  // ----- applying a patch; arrays are only ever replaced whole, so only object members are addressed -----

  /** doc with the value at p set; the object that is to hold it must exist. */
  function PutAt(doc: JSON, p: seq<string>, v: JSON): Option<JSON>
    decreases |p|
  {
    if p == [] then Some(v)
    else if !doc.Object? then None
    else if |p| == 1 then Some(Object(doc.members[p[0] := v]))
    else if p[0] !in doc.members then None
    else
      var inner := PutAt(doc.members[p[0]], p[1..], v);
      if inner.None? then None else Some(Object(doc.members[p[0] := inner.value]))
  }

  /** doc without the member at p, which must exist; the whole document cannot be removed. */
  function RemoveAt(doc: JSON, p: seq<string>): Option<JSON>
    decreases |p|
  {
    if p == [] || !doc.Object? || p[0] !in doc.members then None
    else if |p| == 1 then Some(Object(doc.members - {p[0]}))
    else
      var inner := RemoveAt(doc.members[p[0]], p[1..]);
      if inner.None? then None else Some(Object(doc.members[p[0] := inner.value]))
  }

  function ApplyOne(doc: JSON, o: Operation): Option<JSON> {
    var pointer := Pointer(o.path);
    if pointer.None? then None
    else
      match o.op
      case Add => PutAt(doc, pointer.value, o.value)
      case Replace => if GetAt(doc, pointer.value).None? then None else PutAt(doc, pointer.value, o.value)
      case Remove => RemoveAt(doc, pointer.value)
  }

  /** Operations in sequence; the first that cannot be applied fails the patch. */
  function ApplyAll(doc: JSON, ops: seq<Operation>): Option<JSON>
    decreases |ops|
  {
    if ops == [] then Some(doc)
    else
      var next := ApplyOne(doc, ops[0]);
      if next.None? then None else ApplyAll(next.value, ops[1..])
  }

  lemma {:induction false} ApplyAppend(doc: JSON, a: seq<Operation>, b: seq<Operation>)
    ensures ApplyAll(doc, a + b) == if ApplyAll(doc, a).None? then None else ApplyAll(ApplyAll(doc, a).value, b)
    decreases |a|
  {
    if a == [] {
      assert a + b == b;
    } else {
      assert (a + b)[1..] == a[1..] + b && (a + b)[0] == a[0];
      if ApplyOne(doc, a[0]).Some? {
        ApplyAppend(ApplyOne(doc, a[0]).value, a[1..], b);
      }
    }
  }

  // ----- an object inside a document -----

  lemma {:induction false} PutSame(doc: JSON, p: seq<string>)
    requires GetAt(doc, p).Some?
    ensures PutAt(doc, p, GetAt(doc, p).value) == Some(doc)
    decreases |p|
  {
    if p != [] {
      PutSame(doc.members[p[0]], p[1..]);
      assert doc.members[p[0] := doc.members[p[0]]] == doc.members;
      if |p| == 1 {
        assert p[1..] == [];
      }
    }
  }

  lemma {:induction false} PutThenGet(doc: JSON, p: seq<string>, v: JSON, w: JSON)
    requires GetAt(doc, p).Some?
    ensures PutAt(doc, p, v).Some? && GetAt(PutAt(doc, p, v).value, p) == Some(v)
    ensures PutAt(PutAt(doc, p, v).value, p, w) == PutAt(doc, p, w)
    decreases |p|
  {
    if p != [] {
      PutThenGet(doc.members[p[0]], p[1..], v, w);
      PutThenGet(doc.members[p[0]], p[1..], w, w);
      var once := PutAt(doc, p, v).value.members[p[0]];
      assert doc.members[p[0] := once] == PutAt(doc, p, v).value.members;
      assert doc.members[p[0] := once][p[0] := w] == doc.members[p[0] := w];
      if |p| == 1 {
        assert p[1..] == [];
      } else {
        var twice := PutAt(once, p[1..], w).value;
        assert doc.members[p[0] := once][p[0] := twice] == doc.members[p[0] := twice];
      }
    }
  }

  /** Setting, removing or reading a member of the object at p. */
  lemma {:induction false} MemberAt(doc: JSON, p: seq<string>, m: map<string, JSON>, k: string, w: JSON)
    requires GetAt(doc, p) == Some(Object(m))
    ensures GetAt(doc, p + [k]) == if k in m then Some(m[k]) else None
    ensures PutAt(doc, p + [k], w) == PutAt(doc, p, Object(m[k := w]))
    ensures RemoveAt(doc, p + [k]) == if k in m then PutAt(doc, p, Object(m - {k})) else None
    decreases |p|
  {
    var q := p + [k];
    if p == [] {
      assert q == [k] && q[1..] == [];
    } else {
      assert q[0] == p[0] && q[1..] == p[1..] + [k] && |q| >= 2;
      MemberAt(doc.members[p[0]], p[1..], m, k, w);
      PutThenGet(doc, p, Object(m[k := w]), w);
      if |p| == 1 {
        assert p[1..] == [];
      }
    }
  }

  // ----- the diff -----

  /** What applying the diff of prev and next to prev gives: next without the members that went from a value to null. */
  function Pruned(prev: JSON, next: JSON): JSON
    decreases prev
  {
    if prev.Object? && next.Object? then
      Object(map k | k in next.members && !(k in prev.members && ToNull(prev.members[k], next.members[k])) ::
               if k in prev.members then Pruned(prev.members[k], next.members[k]) else next.members[k])
    else next
  }

  predicate ToNull(prev: JSON, next: JSON) { prev != Null && next == Null }

  /** No value, at the root or in an object on both sides, goes from non-null to null. */
  predicate Clean(prev: JSON, next: JSON)
    decreases prev
  {
    && !ToNull(prev, next)
    && (prev.Object? && next.Object? ==>
          forall k :: k in prev.members && k in next.members ==> Clean(prev.members[k], next.members[k]))
  }

  lemma {:induction false} PrunedIffClean(prev: JSON, next: JSON)
    requires !ToNull(prev, next)
    ensures Pruned(prev, next) == next <==> Clean(prev, next)
    decreases prev
  {
    if prev.Object? && next.Object? {
      var pruned := Pruned(prev, next).members;
      forall k | k in prev.members && k in next.members
        ensures Clean(prev.members[k], next.members[k]) <==> k in pruned && pruned[k] == next.members[k]
      {
        if !ToNull(prev.members[k], next.members[k]) {
          PrunedIffClean(prev.members[k], next.members[k]);
        }
      }
      if forall k :: k in prev.members && k in next.members ==> Clean(prev.members[k], next.members[k]) {
        assert pruned == next.members;
      }
    }
  }

  /** What the diff does to a document that holds prev at p. */
  function Effect(doc: JSON, p: seq<string>, prev: JSON, next: JSON): Option<JSON> {
    if ToNull(prev, next) then RemoveAt(doc, p) else PutAt(doc, p, Pruned(prev, next))
  }

  lemma ApplySingle(doc: JSON, o: Operation)
    ensures ApplyAll(doc, [o]) == ApplyOne(doc, o)
  {
    assert [o][1..] == [];
  }

  /** The members of the object part-way through the diff: those in done are as they will be, the others as they were. */
  ghost predicate PartWay(prev: map<string, JSON>, next: map<string, JSON>, done: set<string>, m: map<string, JSON>) {
    forall k ::
      if k in done then
        if k in Pruned(Object(prev), Object(next)).members
        then k in m && m[k] == Pruned(Object(prev), Object(next)).members[k] else k !in m
      else if k in prev then k in m && m[k] == prev[k]
      else k !in m
  }

  /** The operations emitted so far take a document holding prev at p to one holding m. */
  ghost predicate Reaches(doc: JSON, p: seq<string>, ops: seq<Operation>, m: map<string, JSON>) {
    ApplyAll(doc, ops) == PutAt(doc, p, Object(m))
  }

  /** ops is extended by what changes member k. */
  lemma Extend(doc: JSON, p: seq<string>, ops: seq<Operation>, m: map<string, JSON>, k: string, more: seq<Operation>, after: map<string, JSON>)
    requires GetAt(doc, p).Some? && Reaches(doc, p, ops, m)
    requires PutAt(doc, p, Object(m)).Some?
    requires (k in m && after == m - {k} && ApplyAll(PutAt(doc, p, Object(m)).value, more) == RemoveAt(PutAt(doc, p, Object(m)).value, p + [k]))
             || exists w :: after == m[k := w]
                            && ApplyAll(PutAt(doc, p, Object(m)).value, more) == PutAt(PutAt(doc, p, Object(m)).value, p + [k], w)
    ensures Reaches(doc, p, ops + more, after)
  {
    ApplyAppend(doc, ops, more);
    var here := PutAt(doc, p, Object(m)).value;
    PutThenGet(doc, p, Object(m), Object(after));
    if w :| after == m[k := w] && ApplyAll(here, more) == PutAt(here, p + [k], w) {
      MemberAt(here, p, m, k, w);
    } else {
      MemberAt(here, p, m, k, Null);
    }
  }

  /** Reach the next state of the object by the operations for one more member. */
  lemma RemoveMember(doc: JSON, p: seq<string>, ops: seq<Operation>, prev: map<string, JSON>, next: map<string, JSON>,
                     done: set<string>, m: map<string, JSON>, k: string, more: seq<Operation>)
    requires GetAt(doc, p).Some? && Reaches(doc, p, ops, m) && PutAt(doc, p, Object(m)).Some?
    requires PartWay(prev, next, done, m) && k in prev && k !in done
    requires k !in Pruned(Object(prev), Object(next)).members
    requires ApplyAll(PutAt(doc, p, Object(m)).value, more) == RemoveAt(PutAt(doc, p, Object(m)).value, p + [k])
    ensures Reaches(doc, p, ops + more, m - {k}) && PartWay(prev, next, done + {k}, m - {k})
  {
    Extend(doc, p, ops, m, k, more, m - {k});
  }

  lemma SetMember(doc: JSON, p: seq<string>, ops: seq<Operation>, prev: map<string, JSON>, next: map<string, JSON>,
                  done: set<string>, m: map<string, JSON>, k: string, more: seq<Operation>, w: JSON)
    requires GetAt(doc, p).Some? && Reaches(doc, p, ops, m) && PutAt(doc, p, Object(m)).Some?
    requires PartWay(prev, next, done, m) && k !in done
    requires k in Pruned(Object(prev), Object(next)).members && Pruned(Object(prev), Object(next)).members[k] == w
    requires ApplyAll(PutAt(doc, p, Object(m)).value, more) == PutAt(PutAt(doc, p, Object(m)).value, p + [k], w)
    ensures Reaches(doc, p, ops + more, m[k := w]) && PartWay(prev, next, done + {k}, m[k := w])
  {
    Extend(doc, p, ops, m, k, more, m[k := w]);
  }

  lemma AllDone(prev: map<string, JSON>, next: map<string, JSON>, done: set<string>, m: map<string, JSON>)
    requires PartWay(prev, next, done, m) && prev.Keys + next.Keys <= done
    ensures Object(m) == Pruned(Object(prev), Object(next))
  {
    var pruned := Pruned(Object(prev), Object(next)).members;
    assert forall k :: k in pruned ==> k in next;
    assert forall k :: k in m <==> k in pruned;
    assert m == pruned;
  }

  lemma HoldsMember(doc: JSON, p: seq<string>, prev: map<string, JSON>, next: map<string, JSON>, done: set<string>,
                    m: map<string, JSON>, k: string)
    requires GetAt(doc, p).Some? && PartWay(prev, next, done, m) && k in prev && k !in done
    ensures PutAt(doc, p, Object(m)).Some? && GetAt(PutAt(doc, p, Object(m)).value, p + [k]) == Some(prev[k])
  {
    PutThenGet(doc, p, Object(m), Null);
    MemberAt(PutAt(doc, p, Object(m)).value, p, m, k, Null);
  }

  // ----- which operations a diff consists of -----

  predicate HoldsObject(place: Option<JSON>) { place.Some? && place.value.Object? }

  predicate ObjectsAt(prev: JSON, next: JSON, q: seq<string>) {
    HoldsObject(GetAt(prev, q)) && HoldsObject(GetAt(next, q))
  }

  /** The two values differ at q and are not both objects there, but are both objects at every place above it. */
  ghost predicate Changed(prev: JSON, next: JSON, q: seq<string>) {
    && GetAt(prev, q) != GetAt(next, q)
    && !ObjectsAt(prev, next, q)
    && forall j :: 0 <= j < |q| ==> ObjectsAt(prev, next, q[..j])
  }

  /**
   The operation that takes a place from x to y: a remove if the new value is missing or a null in the place of
   another value, an add if the old value is missing or a null in the place of another value, a replace otherwise.
   */
  predicate Fits(o: Operation, x: Option<JSON>, y: Option<JSON>) {
    && (o.op == Remove <==> y == None || (y == Some(Null) && x != None))
    && (o.op == Add <==> x == None || (x == Some(Null) && y != None))
    && (o.op != Remove ==> y == Some(o.value))
  }

  /** o is the operation for the changed place q below p. */
  ghost predicate Entry(p: seq<string>, prev: JSON, next: JSON, o: Operation, q: seq<string>) {
    && Pointer(o.path) == Some(p + q)
    && Changed(prev, next, q) && Fits(o, GetAt(prev, q), GetAt(next, q))
  }

  ghost predicate Distinct(at: seq<seq<string>>) {
    forall i, j :: 0 <= i < j < |at| ==> at[i] != at[j]
  }

  /** The operations are one for each changed place, each the fitting one, and no others; at says where they apply. */
  ghost predicate IsDiff(p: seq<string>, prev: JSON, next: JSON, ops: seq<Operation>, at: seq<seq<string>>) {
    && |at| == |ops| && Distinct(at)
    && (forall i :: 0 <= i < |ops| ==> Entry(p, prev, next, ops[i], at[i]))
    && (forall q :: Changed(prev, next, q) ==> q in at)
  }

  /** The same for the members of two objects whose keys are in done. */
  ghost predicate IsPartDiff(p: seq<string>, prev: JSON, next: JSON, done: set<string>, ops: seq<Operation>, at: seq<seq<string>>) {
    && |at| == |ops| && Distinct(at)
    && (forall i :: 0 <= i < |ops| ==> Entry(p, prev, next, ops[i], at[i]) && at[i] != [] && at[i][0] in done)
    && (forall q :: q != [] && q[0] in done && Changed(prev, next, q) ==> q in at)
  }

  /** Reading below member k, and at the places above. */
  lemma PrefixBelow(m: map<string, JSON>, k: string, q: seq<string>, j: nat)
    requires j <= |q|
    ensures ([k] + q)[..j + 1] == [k] + q[..j]
    ensures GetAt(Object(m), ([k] + q)[..j + 1]) == if k in m then GetAt(m[k], q[..j]) else None
  {
    GetBelow(m, k, q[..j]);
    assert ([k] + q)[..j + 1] == [k] + q[..j];
  }

  /** A place below a member of both objects is changed if it is changed from the one member to the other. */
  lemma ChangedBelowBoth(before: map<string, JSON>, after: map<string, JSON>, k: string, q: seq<string>)
    requires k in before && k in after
    ensures Changed(Object(before), Object(after), [k] + q) <==> Changed(before[k], after[k], q)
  {
    var prev, next, all := Object(before), Object(after), [k] + q;
    GetBelow(before, k, q);
    GetBelow(after, k, q);
    forall j | 0 <= j < |q|
      ensures ObjectsAt(prev, next, all[..j + 1]) <==> ObjectsAt(before[k], after[k], q[..j])
    {
      PrefixBelow(before, k, q, j);
      PrefixBelow(after, k, q, j);
    }
    assert ObjectsAt(prev, next, all[..0]);
    if Changed(before[k], after[k], q) {
      forall j | 0 <= j < |all|
        ensures ObjectsAt(prev, next, all[..j])
      {
        assert j > 0 ==> ObjectsAt(before[k], after[k], q[..j - 1]);
      }
    }
    if Changed(prev, next, all) {
      forall j | 0 <= j < |q|
        ensures ObjectsAt(before[k], after[k], q[..j])
      {
        assert ObjectsAt(prev, next, all[..j + 1]);
      }
    }
  }

  /** Of a member only one side has, the member itself is the changed place. */
  lemma ChangedBelowOne(before: map<string, JSON>, after: map<string, JSON>, k: string, q: seq<string>)
    requires k in before <==> k !in after
    ensures Changed(Object(before), Object(after), [k] + q) <==> q == []
  {
    var all := [k] + q;
    GetBelow(before, k, q);
    GetBelow(after, k, q);
    PrefixBelow(before, k, q, 0);
    PrefixBelow(after, k, q, 0);
    assert q[..0] == [] && all[..0] == [];
    if q != [] {
      assert !ObjectsAt(Object(before), Object(after), all[..1]);
    }
  }

  /** Unless both values are objects the only place that can be changed is the root. */
  lemma ChangedAtRoot(prev: JSON, next: JSON, q: seq<string>)
    requires !(prev.Object? && next.Object?)
    ensures Changed(prev, next, q) <==> q == [] && prev != next
  {
    if q != [] {
      assert q[..0] == [] && !ObjectsAt(prev, next, q[..0]);
    }
  }

  lemma NoOperation(p: seq<string>, value: JSON)
    requires !value.Object?
    ensures IsDiff(p, value, value, [], [])
  {
  }

  lemma OneOperation(p: seq<string>, prev: JSON, next: JSON, o: Operation)
    requires !(prev.Object? && next.Object?) && prev != next
    requires Pointer(o.path) == Some(p) && Fits(o, Some(prev), Some(next))
    ensures IsDiff(p, prev, next, [o], [[]])
  {
    assert p + [] == p;
    var at: seq<seq<string>> := [[]];
    forall q | Changed(prev, next, q)
      ensures q in at
    {
      ChangedAtRoot(prev, next, q);
      assert at[0] == q;
    }
    ChangedAtRoot(prev, next, []);
  }

  function Below(k: string, at: seq<seq<string>>): seq<seq<string>> {
    seq(|at|, i requires 0 <= i < |at| => [k] + at[i])
  }

  lemma EntryOfMember(p: seq<string>, before: map<string, JSON>, after: map<string, JSON>, k: string, o: Operation, q: seq<string>)
    requires k in before && k in after && Entry(p + [k], before[k], after[k], o, q)
    ensures Entry(p, Object(before), Object(after), o, [k] + q)
  {
    assert (p + [k]) + q == p + ([k] + q);
    ChangedBelowBoth(before, after, k, q);
    GetBelow(before, k, q);
    GetBelow(after, k, q);
    hide Changed, Fits, GetAt;
  }

  lemma BelowFacts(k: string, at: seq<seq<string>>)
    ensures Distinct(at) ==> Distinct(Below(k, at))
    ensures forall q :: q in at ==> [k] + q in Below(k, at)
  {
    forall i, j | 0 <= i < j < |at| && at[i] != at[j]
      ensures Below(k, at)[i] != Below(k, at)[j]
    {
      assert ([k] + at[i])[1..] == at[i] && ([k] + at[j])[1..] == at[j];
    }
    forall q | q in at
      ensures [k] + q in Below(k, at)
    {
      var i :| 0 <= i < |at| && at[i] == q;
      assert Below(k, at)[i] == [k] + q;
    }
  }

  /** The diff of a member that both objects have, as a part of theirs. */
  lemma MemberOfBoth(p: seq<string>, before: map<string, JSON>, after: map<string, JSON>, k: string,
                     ops: seq<Operation>, at: seq<seq<string>>)
    requires k in before && k in after && IsDiff(p + [k], before[k], after[k], ops, at)
    ensures IsPartDiff(p, Object(before), Object(after), {k}, ops, Below(k, at))
  {
    hide Changed, Entry, Distinct;
    BelowFacts(k, at);
    forall i | 0 <= i < |ops|
      ensures Entry(p, Object(before), Object(after), ops[i], Below(k, at)[i])
    {
      EntryOfMember(p, before, after, k, ops[i], at[i]);
    }
    forall q | q != [] && q[0] in {k} && Changed(Object(before), Object(after), q)
      ensures q in Below(k, at)
    {
      assert q == [k] + q[1..];
      ChangedBelowBoth(before, after, k, q[1..]);
    }
  }

  /** The operation for a member that only one object has. */
  lemma MemberOfOne(p: seq<string>, before: map<string, JSON>, after: map<string, JSON>, k: string, o: Operation)
    requires k in before <==> k !in after
    requires Pointer(o.path) == Some(p + [k])
    requires if k in before then o.op == Remove else o.op == Add && o.value == after[k]
    ensures IsPartDiff(p, Object(before), Object(after), {k}, [o], [[k]])
  {
    var at := [[k]];
    assert [k] + [] == [k];
    ChangedBelowOne(before, after, k, []);
    GetBelow(before, k, []);
    GetBelow(after, k, []);
    hide Changed;
    forall q | q != [] && q[0] in {k} && Changed(Object(before), Object(after), q)
      ensures q in at
    {
      assert q == [k] + q[1..];
      ChangedBelowOne(before, after, k, q[1..]);
      assert at[0] == q;
    }
  }

  lemma JoinParts(p: seq<string>, prev: JSON, next: JSON, done: set<string>, ops: seq<Operation>, at: seq<seq<string>>,
                  k: string, more: seq<Operation>, sub: seq<seq<string>>)
    requires k !in done && IsPartDiff(p, prev, next, done, ops, at) && IsPartDiff(p, prev, next, {k}, more, sub)
    ensures IsPartDiff(p, prev, next, done + {k}, ops + more, at + sub)
  {
    hide Entry, Changed;
    forall i, j | 0 <= i < j < |at + sub|
      ensures (at + sub)[i] != (at + sub)[j]
    {
      if i < |at| <= j {
        assert at[i][0] in done && sub[j - |at|][0] in {k};
      }
    }
  }

  /** With every key done, the parts are the diff of the two objects. */
  lemma PartsAreAll(p: seq<string>, before: map<string, JSON>, after: map<string, JSON>, done: set<string>,
                    ops: seq<Operation>, at: seq<seq<string>>)
    requires before.Keys + after.Keys <= done && IsPartDiff(p, Object(before), Object(after), done, ops, at)
    ensures IsDiff(p, Object(before), Object(after), ops, at)
  {
    hide Entry;
    forall q | Changed(Object(before), Object(after), q)
      ensures q in at
    {
      assert ObjectsAt(Object(before), Object(after), []);
      assert q == [q[0]] + q[1..];
      GetBelow(before, q[0], q[1..]);
      GetBelow(after, q[0], q[1..]);
    }
  }

  lemma NothingDone(p: seq<string>, prev: JSON, next: JSON)
    ensures IsPartDiff(p, prev, next, {}, [], [])
  {
  }

  /** No two operations of a diff have the same path, and equal values need none. */
  lemma DiffIsMinimal(p: seq<string>, prev: JSON, next: JSON, ops: seq<Operation>, at: seq<seq<string>>)
    requires IsDiff(p, prev, next, ops, at)
    ensures forall i, j :: 0 <= i < j < |ops| ==> ops[i].path != ops[j].path
    ensures ops == [] <==> prev == next
  {
    hide Fits;
    forall i, j | 0 <= i < j < |ops|
      ensures ops[i].path != ops[j].path
    {
      assert Entry(p, prev, next, ops[i], at[i]) && Entry(p, prev, next, ops[j], at[j]);
      assert (p + at[i])[|p|..] == at[i] && (p + at[j])[|p|..] == at[j];
    }
    if ops == [] {
      UnchangedIsEqual(prev, next);
    } else {
      assert Entry(p, prev, next, ops[0], at[0]);
    }
  }

  /** Different values are changed somewhere. */
  lemma {:induction false} UnchangedIsEqual(prev: JSON, next: JSON)
    requires forall q :: !Changed(prev, next, q)
    ensures prev == next
    decreases prev
  {
    if prev.Object? && next.Object? {
      var before, after := prev.members, next.members;
      forall k | k in before || k in after
        ensures k in before && k in after && before[k] == after[k]
      {
        if k in before && k in after {
          forall q
            ensures !Changed(before[k], after[k], q)
          {
            ChangedBelowBoth(before, after, k, q);
          }
          UnchangedIsEqual(before[k], after[k]);
        } else {
          ChangedBelowOne(before, after, k, []);
          assert false;
        }
      }
      assert before == after;
    } else {
      ChangedAtRoot(prev, next, []);
    }
  }

  /**
   The operations, for whatever order the maps are iterated in.  doc and p are ghost: a document and
   the place in it that path points at; the diff changes that place from prev to what Effect says.
   */
  method BuildPatch(path: string, prev: JSON, next: JSON, ghost doc: JSON, ghost p: seq<string>)
    returns (ops: seq<Operation>, ghost at: seq<seq<string>>)
    requires Pointer(path) == Some(p) && GetAt(doc, p) == Some(prev)
    ensures ApplyAll(doc, ops) == Effect(doc, p, prev, next)
    ensures IsDiff(p, prev, next, ops, at)
    decreases prev, 1
  {
    hide IsDiff;
    if prev == Null && next != Null {
      ApplySingle(doc, Operation(Add, path, next));
      OneOperation(p, prev, next, Operation(Add, path, next));
      return [Operation(Add, path, next)], [[]];
    }
    if next == Null && prev != Null {
      ApplySingle(doc, Operation(Remove, path, Null));
      OneOperation(p, prev, next, Operation(Remove, path, Null));
      return [Operation(Remove, path, Null)], [[]];
    }
    if prev.Object? && next.Object? {
      ops, at := BuildObjectPatch(path, prev, next, doc, p);
      return;
    }
    PutSame(doc, p);
    ops, at := [], [];
    if prev != next {
      ApplySingle(doc, Operation(Replace, path, next));
      OneOperation(p, prev, next, Operation(Replace, path, next));
      ops, at := [Operation(Replace, path, next)], [[]];
    } else {
      NoOperation(p, prev);
    }
  }

  method BuildObjectPatch(path: string, prev: JSON, next: JSON, ghost doc: JSON, ghost p: seq<string>)
    returns (ops: seq<Operation>, ghost at: seq<seq<string>>)
    requires prev.Object? && next.Object? && Pointer(path) == Some(p) && GetAt(doc, p) == Some(prev)
    ensures ApplyAll(doc, ops) == PutAt(doc, p, Pruned(prev, next))
    ensures IsDiff(p, prev, next, ops, at)
    decreases prev, 0
  {
    hide PartWay, Reaches, Pruned, PutAt, GetAt, ApplyAll, RemoveAt, IsDiff, IsPartDiff, Pointer, JoinPath;
    var before, after := prev.members, next.members;
    ops, at := [], [];
    ghost var m, done, sub: seq<seq<string>> := before, {}, [];
    StartsAs(doc, p, before, after);
    NothingDone(p, prev, next);
    var rest := before.Keys;
    var key: string;
    while rest != {}
      invariant rest !! done && rest + done == before.Keys
      invariant Reaches(doc, p, ops, m) && PartWay(before, after, done, m)
      invariant IsPartDiff(p, prev, next, done, ops, at)
      decreases rest
    {
      key :| key in rest;
      rest := rest - {key};
      PointerOfJoin(path, key);
      HoldsMember(doc, p, before, after, done, m, key);
      ghost var here := PutAt(doc, p, Object(m)).value;
      var more: seq<Operation>;
      if key !in after {
        more := [Operation(Remove, JoinPath(path, key), Null)];
        sub := [[key]];
        MemberOfOne(p, before, after, key, more[0]);
        RemovesAt(here, JoinPath(path, key), p + [key]);
        MembersOfPruned(before, after, key);
        RemoveMember(doc, p, ops, before, after, done, m, key, more);
        m := m - {key};
      } else {
        more, sub := BuildPatch(JoinPath(path, key), before[key], after[key], here, p + [key]);
        MemberOfBoth(p, before, after, key, more, sub);
        sub := Below(key, sub);
        MembersOfPruned(before, after, key);
        if ToNull(before[key], after[key]) {
          RemoveMember(doc, p, ops, before, after, done, m, key, more);
          m := m - {key};
        } else {
          SetMember(doc, p, ops, before, after, done, m, key, more, Pruned(before[key], after[key]));
          m := m[key := Pruned(before[key], after[key])];
        }
      }
      JoinParts(p, prev, next, done, ops, at, key, more, sub);
      ops, at := ops + more, at + sub;
      done := done + {key};
    }
    rest := after.Keys;
    while rest != {}
      invariant rest <= after.Keys && before.Keys <= done && before.Keys + (after.Keys - rest) == done
      invariant Reaches(doc, p, ops, m) && PartWay(before, after, done, m)
      invariant IsPartDiff(p, prev, next, done, ops, at)
      decreases rest
    {
      key :| key in rest;
      rest := rest - {key};
      if key !in before {
        var more := [Operation(Add, JoinPath(path, key), after[key])];
        PointerOfJoin(path, key);
        CanPut(doc, p, Object(m));
        AddsAt(PutAt(doc, p, Object(m)).value, JoinPath(path, key), p + [key], after[key]);
        MembersOfPruned(before, after, key);
        SetMember(doc, p, ops, before, after, done, m, key, more, after[key]);
        m := m[key := after[key]];
        MemberOfOne(p, before, after, key, more[0]);
        JoinParts(p, prev, next, done, ops, at, key, more, [[key]]);
        ops, at := ops + more, at + [[key]];
        done := done + {key};
      }
    }
    PartsAreAll(p, before, after, done, ops, at);
    AllDone(before, after, done, m);
    EndsAs(doc, p, ops, m);
  }

  lemma StartsAs(doc: JSON, p: seq<string>, prev: map<string, JSON>, next: map<string, JSON>)
    requires GetAt(doc, p) == Some(Object(prev))
    ensures Reaches(doc, p, [], prev) && PartWay(prev, next, {}, prev)
  {
    PutSame(doc, p);
  }

  lemma EndsAs(doc: JSON, p: seq<string>, ops: seq<Operation>, m: map<string, JSON>)
    requires Reaches(doc, p, ops, m)
    ensures ApplyAll(doc, ops) == PutAt(doc, p, Object(m))
  {
  }

  lemma CanPut(doc: JSON, p: seq<string>, v: JSON)
    requires GetAt(doc, p).Some?
    ensures PutAt(doc, p, v).Some?
  {
    PutThenGet(doc, p, v, v);
  }

  lemma RemovesAt(doc: JSON, path: string, p: seq<string>)
    requires Pointer(path) == Some(p)
    ensures ApplyAll(doc, [Operation(Remove, path, Null)]) == RemoveAt(doc, p)
  {
    ApplySingle(doc, Operation(Remove, path, Null));
  }

  lemma AddsAt(doc: JSON, path: string, p: seq<string>, v: JSON)
    requires Pointer(path) == Some(p)
    ensures ApplyAll(doc, [Operation(Add, path, v)]) == PutAt(doc, p, v)
  {
    ApplySingle(doc, Operation(Add, path, v));
  }

  lemma MembersOfPruned(prev: map<string, JSON>, next: map<string, JSON>, k: string)
    ensures var m := Pruned(Object(prev), Object(next)).members;
            && (k in m <==> k in next && !(k in prev && ToNull(prev[k], next[k])))
            && (k in m ==> m[k] == if k in prev then Pruned(prev[k], next[k]) else next[k])
  {
  }

  /**
   Applying the diff to the previous value gives the next value exactly when no value went from
   non-null to null; when one did inside an object, it gives the next value without that member, and
   at the root the patch cannot be applied.  There is one operation for each changed place and no other.
   */
  method MakeJSONPatch(prev: JSON, next: JSON) returns (ops: seq<Operation>, ghost at: seq<seq<string>>)
    ensures IsDiff([], prev, next, ops, at)
    ensures ops == [] <==> prev == next
    ensures forall i, j :: 0 <= i < j < |ops| ==> ops[i].path != ops[j].path
    ensures ApplyAll(prev, ops) == Some(next) <==> Clean(prev, next)
    ensures ToNull(prev, next) ==> ApplyAll(prev, ops) == None
    ensures !ToNull(prev, next) ==> ApplyAll(prev, ops) == Some(Pruned(prev, next))
  {
    hide IsDiff;
    ops, at := BuildPatch("", prev, next, prev, []);
    DiffIsMinimal([], prev, next, ops, at);
    if !ToNull(prev, next) {
      PrunedIffClean(prev, next);
    }
  }

  /** A member that becomes null is lost, not set to null. */
  lemma NullMemberIsLost(k: string, v: JSON)
    requires v != Null
    ensures !Clean(Object(map[k := v]), Object(map[k := Null]))
    ensures Pruned(Object(map[k := v]), Object(map[k := Null])) == Object(map[])
  {
    var prev, next := Object(map[k := v]), Object(map[k := Null]);
    assert k in prev.members && k in next.members && !Clean(prev.members[k], next.members[k]);
  }

  // ----- the cumulative stream -----

  /** The values a run emits: those that parse and differ from the one before. */
  function Emitted(parse: string -> Option<JSON>, chunks: seq<string>, text: string, previous: JSON): seq<JSON>
    decreases |chunks|
  {
    if chunks == [] then []
    else
      var all := text + chunks[0];
      var parsed := parse(all);
      if parsed.None? || parsed.value == previous then Emitted(parse, chunks[1..], all, previous)
      else [parsed.value] + Emitted(parse, chunks[1..], all, parsed.value)
  }

  function Last(values: seq<JSON>, start: JSON): JSON {
    if values == [] then start else values[|values| - 1]
  }

  /** No step of the run takes a value to null. */
  predicate CleanRun(start: JSON, values: seq<JSON>) {
    values == []
    || (var front := values[..|values| - 1];
        CleanRun(start, front) && Clean(Last(front, start), values[|values| - 1]))
  }

  /** Apply the diffs of a run one after the other. */
  function ApplyRun(doc: JSON, patches: seq<seq<Operation>>): Option<JSON> {
    if patches == [] then Some(doc)
    else
      var front := ApplyRun(doc, patches[..|patches| - 1]);
      if front.None? then None else ApplyAll(front.value, patches[|patches| - 1])
  }

  lemma EmittedStep(parse: string -> Option<JSON>, chunks: seq<string>, i: nat, text: string, previous: JSON)
    requires i < |chunks|
    ensures var parsed := parse(text + chunks[i]);
            Emitted(parse, chunks[i..], text, previous)
            == if parsed.None? || parsed.value == previous then Emitted(parse, chunks[i + 1..], text + chunks[i], previous)
               else [parsed.value] + Emitted(parse, chunks[i + 1..], text + chunks[i], parsed.value)
  {
    assert chunks[i..][0] == chunks[i] && chunks[i..][1..] == chunks[i + 1..];
  }

  lemma EmittedEnd(parse: string -> Option<JSON>, chunks: seq<string>, text: string, previous: JSON)
    ensures Emitted(parse, chunks[|chunks|..], text, previous) == []
  {
  }

  /** The text of the first n chunks. */
  function Prefix(chunks: seq<string>, n: nat): string
    requires n <= |chunks|
  {
    if n == 0 then "" else Prefix(chunks, n - 1) + chunks[n - 1]
  }

  /** The value in force when k values have been emitted. */
  function InForce(values: seq<JSON>, k: nat): JSON
    requires k <= |values|
  {
    if k == 0 then Null else values[k - 1]
  }

  /** Chunk count n lies after k of the emissions and before the others. */
  predicate Between(at: seq<nat>, n: nat, k: nat) {
    k <= |at| && (k > 0 ==> at[k - 1] < n) && (k < |at| ==> n < at[k])
  }

  /** Value k is the parse of the first at[k] chunks and differs from the value before it, null at the start. */
  predicate Emission(parse: string -> Option<JSON>, chunks: seq<string>, values: seq<JSON>, at: seq<nat>, k: nat)
    requires k < |at| == |values|
  {
    && 1 <= at[k] <= |chunks| && parse(Prefix(chunks, at[k])) == Some(values[k])
    && values[k] != InForce(values, k)
  }

  /** The first m chunks do not parse or repeat value k - 1. */
  predicate Silent(parse: string -> Option<JSON>, chunks: seq<string>, values: seq<JSON>, m: nat, k: nat)
    requires m <= |chunks| && k <= |values|
  {
    parse(Prefix(chunks, m)) in {None, Some(InForce(values, k))}
  }

  /** The values emitted over the first n chunks, each after so many of them; all other prefixes are silent. */
  ghost predicate EmittedAt(parse: string -> Option<JSON>, chunks: seq<string>, n: nat, values: seq<JSON>, at: seq<nat>)
    requires n <= |chunks|
  {
    && |at| == |values|
    && (forall k :: 0 <= k < |at| ==> at[k] <= n)
    && (forall j, k :: 0 <= j < k < |at| ==> at[j] < at[k])
    && (forall k: nat :: k < |at| ==> Emission(parse, chunks, values, at, k))
    && (forall m: nat, k: nat :: 1 <= m <= n && Between(at, m, k) ==> Silent(parse, chunks, values, m, k))
  }

  /** The next emission of two accounts that agree so far is the same. */
  lemma NextEmission(parse: string -> Option<JSON>, chunks: seq<string>,
                     v1: seq<JSON>, at1: seq<nat>, v2: seq<JSON>, at2: seq<nat>, k: nat)
    requires EmittedAt(parse, chunks, |chunks|, v1, at1) && EmittedAt(parse, chunks, |chunks|, v2, at2)
    requires k < |v1| && k <= |v2| && InForce(v1, k) == InForce(v2, k)
    requires k > 0 ==> at1[k - 1] == at2[k - 1]
    ensures k < |v2| && at1[k] == at2[k] && v1[k] == v2[k]
  {
    hide InForce, Prefix;
    var m := at1[k];
    assert Emission(parse, chunks, v1, at1, k);
    assert k > 0 ==> at1[k - 1] < m;
    assert !Silent(parse, chunks, v2, m, k);
    assert !Between(at2, m, k);
    assert Emission(parse, chunks, v2, at2, k) && (k > 0 ==> at2[k - 1] < at2[k]);
    assert !Silent(parse, chunks, v1, at2[k], k);
    assert !Between(at1, at2[k], k);
  }

  /** The prefixes and values of an account are the only ones it can have. */
  lemma {:induction false} EmissionsAreDetermined(parse: string -> Option<JSON>, chunks: seq<string>,
                                                  v1: seq<JSON>, at1: seq<nat>, v2: seq<JSON>, at2: seq<nat>, k: nat)
    requires EmittedAt(parse, chunks, |chunks|, v1, at1) && EmittedAt(parse, chunks, |chunks|, v2, at2)
    requires k <= |v1|
    ensures k <= |v2| && forall i :: 0 <= i < k ==> v1[i] == v2[i] && at1[i] == at2[i]
  {
    assert |at1| == |v1| && |at2| == |v2|;
    hide EmittedAt;
    if k > 0 {
      EmissionsAreDetermined(parse, chunks, v1, at1, v2, at2, k - 1);
      NextEmission(parse, chunks, v1, at1, v2, at2, k - 1);
    }
  }

  lemma EmitsNothing(parse: string -> Option<JSON>, chunks: seq<string>)
    ensures EmittedAt(parse, chunks, 0, [], [])
  {
  }

  /** The next prefix does not parse or repeats the value in force. */
  lemma PassedOver(parse: string -> Option<JSON>, chunks: seq<string>, n: nat, values: seq<JSON>, at: seq<nat>)
    requires n < |chunks| && EmittedAt(parse, chunks, n, values, at)
    requires parse(Prefix(chunks, n + 1)) in {None, Some(InForce(values, |values|))}
    ensures EmittedAt(parse, chunks, n + 1, values, at)
  {
    hide InForce, Prefix;
    forall m: nat, k: nat | 1 <= m <= n + 1 && Between(at, m, k)
      ensures Silent(parse, chunks, values, m, k)
    {
      assert m == n + 1 ==> k == |at|;
    }
  }

  /** It parses to another value. */
  lemma EmitsOne(parse: string -> Option<JSON>, chunks: seq<string>, n: nat, values: seq<JSON>, at: seq<nat>, value: JSON)
    requires n < |chunks| && EmittedAt(parse, chunks, n, values, at)
    requires parse(Prefix(chunks, n + 1)) == Some(value) && value != InForce(values, |values|)
    ensures EmittedAt(parse, chunks, n + 1, values + [value], at + [n + 1])
  {
    var (more, ends) := (values + [value], at + [n + 1]);
    assert forall k: nat :: k <= |values| ==> InForce(more, k) == InForce(values, k);
    hide InForce, Prefix;
    forall k: nat | k < |ends|
      ensures Emission(parse, chunks, more, ends, k)
    {
      assert k < |at| ==> Emission(parse, chunks, values, at, k);
    }
    forall m: nat, k: nat | 1 <= m <= n + 1 && Between(ends, m, k)
      ensures Silent(parse, chunks, more, m, k)
    {
      assert k < |ends| && m <= n;
      assert Between(at, m, k) && Silent(parse, chunks, values, m, k);
    }
  }

  method TransformValues(parse: string -> Option<JSON>, chunks: seq<string>) returns (out: seq<JSON>, ghost at: seq<nat>)
    ensures out == Emitted(parse, chunks, "", Null)
    ensures EmittedAt(parse, chunks, |chunks|, out, at)
  {
    hide Emitted, EmittedAt, Prefix;
    out, at := [], [];
    var acc, previous := "", Null;
    PrefixStart(chunks);
    EmitsNothing(parse, chunks);
    assert chunks[0..] == chunks && [] + Emitted(parse, chunks, "", Null) == Emitted(parse, chunks, "", Null);
    for i := 0 to |chunks|
      invariant out + Emitted(parse, chunks[i..], acc, previous) == Emitted(parse, chunks, "", Null)
      invariant acc == Prefix(chunks, i) && previous == InForce(out, |out|)
      invariant EmittedAt(parse, chunks, i, out, at)
    {
      EmittedStep(parse, chunks, i, acc, previous);
      PrefixGrows(chunks, i);
      acc := acc + chunks[i];
      var parsed := parse(acc);
      if parsed.None? || parsed.value == previous {
        PassedOver(parse, chunks, i, out, at);
        continue;
      }
      EmitsOne(parse, chunks, i, out, at, parsed.value);
      out, at := out + [parsed.value], at + [i + 1];
      previous := parsed.value;
    }
    EmittedEnd(parse, chunks, acc, previous);
    assert out == Emitted(parse, chunks, "", Null);
  }

  lemma SameEmissions(parse: string -> Option<JSON>, chunks: seq<string>, v1: seq<JSON>, at1: seq<nat>, v2: seq<JSON>, at2: seq<nat>)
    requires EmittedAt(parse, chunks, |chunks|, v1, at1) && EmittedAt(parse, chunks, |chunks|, v2, at2)
    ensures v1 == v2
  {
    hide EmittedAt;
    EmissionsAreDetermined(parse, chunks, v1, at1, v2, at2, |v1|);
    EmissionsAreDetermined(parse, chunks, v2, at2, v1, at1, |v2|);
  }

  lemma PrefixStart(chunks: seq<string>)
    ensures Prefix(chunks, 0) == ""
  {
  }

  lemma PrefixGrows(chunks: seq<string>, n: nat)
    requires n < |chunks|
    ensures Prefix(chunks, n + 1) == Prefix(chunks, n) + chunks[n]
  {
  }

  /** Applied one after the other from null, the patches give each of the values in turn. */
  predicate Rebuilds(patches: seq<seq<Operation>>, values: seq<JSON>)
    requires |patches| == |values|
  {
    values == []
    || (var n := |values| - 1;
        Rebuilds(patches[..n], values[..n]) && ApplyRun(Null, patches) == Some(values[n]))
  }

  /** Each patch is the diff of the value in force and the next one. */
  ghost predicate AreDiffs(values: seq<JSON>, patches: seq<seq<Operation>>, ats: seq<seq<seq<string>>>) {
    && |patches| == |values| == |ats|
    && forall k :: 0 <= k < |values| ==> IsDiff([], InForce(values, k), values[k], patches[k], ats[k])
  }

  lemma OneMoreDiff(values: seq<JSON>, patches: seq<seq<Operation>>, ats: seq<seq<seq<string>>>,
                    value: JSON, patch: seq<Operation>, at: seq<seq<string>>)
    requires AreDiffs(values, patches, ats) && IsDiff([], InForce(values, |values|), value, patch, at)
    ensures AreDiffs(values + [value], patches + [patch], ats + [at])
  {
    hide IsDiff;
    forall k | 0 <= k <= |values|
      ensures InForce(values + [value], k) == InForce(values, k)
    {
    }
  }

  /** With Diff set: one patch per emitted value, its diff to the one before; from null they rebuild every value exactly when the run is clean. */
  method TransformDiffs(parse: string -> Option<JSON>, chunks: seq<string>)
    returns (out: seq<seq<Operation>>, ghost ats: seq<seq<seq<string>>>)
    ensures AreDiffs(Emitted(parse, chunks, "", Null), out, ats)
    ensures var values := Emitted(parse, chunks, "", Null);
            && |out| == |values|
            && (Rebuilds(out, values) <==> CleanRun(Null, values))
            && (CleanRun(Null, values) ==> ApplyRun(Null, out) == Some(Last(values, Null)))
  {
    hide Clean, Pruned, ApplyAll, CleanRun, ApplyRun, Emitted, Rebuilds, IsDiff, AreDiffs;
    out, ats := [], [];
    ghost var values: seq<JSON> := [];
    NoRun();
    assert AreDiffs(values, out, ats) by { NoDiffs(); }
    var acc, previous := "", Null;
    assert chunks[0..] == chunks && [] + Emitted(parse, chunks, "", Null) == Emitted(parse, chunks, "", Null);
    for i := 0 to |chunks|
      invariant values + Emitted(parse, chunks[i..], acc, previous) == Emitted(parse, chunks, "", Null)
      invariant |out| == |values| && previous == Last(values, Null)
      invariant Rebuilds(out, values) <==> CleanRun(Null, values)
      invariant AreDiffs(values, out, ats)
    {
      EmittedStep(parse, chunks, i, acc, previous);
      acc := acc + chunks[i];
      var parsed := parse(acc);
      if parsed.None? || parsed.value == previous {
        continue;
      }
      var patch;
      ghost var at;
      patch, at := MakeJSONPatch(previous, parsed.value);
      RunExtends(values, parsed.value, out, patch);
      OneMoreDiff(values, out, ats, parsed.value, patch, at);
      out, ats := out + [patch], ats + [at];
      values := values + [parsed.value];
      previous := parsed.value;
    }
    EmittedEnd(parse, chunks, acc, previous);
    assert values == Emitted(parse, chunks, "", Null);
    RebuildsLast(out, values);
  }

  lemma NoDiffs()
    ensures AreDiffs([], [], [])
  {
  }

  lemma NoRun()
    ensures Rebuilds([], []) && CleanRun(Null, []) && Last([], Null) == Null
  {
  }

  lemma RebuildsLast(patches: seq<seq<Operation>>, values: seq<JSON>)
    requires |patches| == |values|
    ensures Rebuilds(patches, values) ==> ApplyRun(Null, patches) == Some(Last(values, Null))
  {
  }

  lemma RunExtends(values: seq<JSON>, next: JSON, patches: seq<seq<Operation>>, patch: seq<Operation>)
    requires |patches| == |values|
    requires Rebuilds(patches, values) <==> CleanRun(Null, values)
    requires ApplyAll(Last(values, Null), patch) == Some(next) <==> Clean(Last(values, Null), next)
    ensures Rebuilds(patches + [patch], values + [next]) <==> CleanRun(Null, values + [next])
    ensures Last(values + [next], Null) == next
  {
    hide ApplyAll, Clean;
    if Rebuilds(patches, values) {
      RebuildsLast(patches, values);
    }
    assert (values + [next])[..|values|] == values && (patches + [patch])[..|patches|] == patches;
  }
}
