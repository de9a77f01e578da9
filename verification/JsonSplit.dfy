/**
 Splitting a JSON object into chunks that keep the nesting.  Every value is written at its path into
 the newest chunk; the paths written are never comparable, so no write goes through or over another.
 */
module JsonSplit {
  import opened Common
  import opened JsonPointer

  type Members = map<string, JSON>
  type Path = seq<string>

  /** data with value at path; members on the way that are not objects are replaced by objects. */
  function SetNested(data: Members, path: Path, value: JSON): Members
    requires path != []
    decreases |path|
  {
    var key := path[0];
    if |path| == 1 then data[key := value]
    else
      var next := if key in data && data[key].Object? then data[key].members else map[];
      data[key := Object(SetNested(next, path[1..], value))]
  }

  // ----- leaves -----

  predicate Branch(v: JSON) { v.Object? && v.members != map[] }

  /** m has the leaf u at path q; an empty object is a leaf. */
  predicate LeafAt(m: Members, q: Path, u: JSON)
    decreases |q|
  {
    q != [] && q[0] in m
    && if |q| == 1 then m[q[0]] == u && !Branch(u)
       else m[q[0]].Object? && LeafAt(m[q[0]].members, q[1..], u)
  }

  /** The same below a value; the empty path is the value itself. */
  predicate LeafIn(v: JSON, q: Path, u: JSON) {
    if q == [] then v == u && !Branch(u) else v.Object? && LeafAt(v.members, q, u)
  }

  predicate Comparable(p: Path, q: Path) { p <= q || q <= p }

  /** No leaf of m lies on the way to p or below it. */
  ghost predicate Free(m: Members, p: Path) {
    forall q, u :: LeafAt(m, q, u) ==> !Comparable(p, q)
  }

  lemma DirectLeaf(m: Members, k: string)
    requires k in m && !Branch(m[k])
    ensures LeafAt(m, [k], m[k])
  {
  }

  lemma LeafUnder(m: Members, k: string, q: Path, u: JSON)
    requires k in m && m[k].Object? && LeafAt(m[k].members, q, u)
    ensures LeafAt(m, [k] + q, u)
  {
    assert ([k] + q)[0] == k && ([k] + q)[1..] == q;
  }

  lemma ComparableCons(k: string, p: Path, q: Path)
    ensures Comparable([k] + p, [k] + q) <==> Comparable(p, q)
  {
    assert ([k] + p)[1..] == p && ([k] + q)[1..] == q;
    assert [k] + p <= [k] + q <==> p <= q;
    assert [k] + q <= [k] + p <==> q <= p;
  }

  lemma ComparableShorter(p: Path, k: string, q: Path)
    requires Comparable(p + [k], q)
    ensures Comparable(p, q)
  {
    if |q| <= |p| {
      assert q == (p + [k])[..|q|] == p[..|q|];
    } else {
      assert p == q[..|p|];
    }
  }

  lemma FreeBelow(m: Members, p: Path)
    requires Free(m, p) && |p| > 1
    ensures p[0] in m ==> Branch(m[p[0]]) && Free(m[p[0]].members, p[1..])
  {
    var k := p[0];
    assert [k] <= p && p == [k] + p[1..];
    if k in m && !Branch(m[k]) {
      DirectLeaf(m, k);
    }
    forall q, u | k in m && m[k].Object? && LeafAt(m[k].members, q, u)
      ensures !Comparable(p[1..], q)
    {
      LeafUnder(m, k, q, u);
      ComparableCons(k, p[1..], q);
    }
  }

  /** Writing at a free path adds exactly the leaves of the value, below the path. */
  lemma {:induction false} SetNestedLeaves(m: Members, p: Path, v: JSON, q: Path, u: JSON)
    requires p != [] && Free(m, p)
    ensures LeafAt(SetNested(m, p, v), q, u) <==> LeafAt(m, q, u) || (p <= q && LeafIn(v, q[|p|..], u))
    decreases |p|
  {
    if q == [] || q[0] != p[0] {
      assert !(p <= q);
    } else if |p| == 1 {
      assert p == [p[0]] && p <= q && q[|p|..] == q[1..];
      assert Comparable(p, q);
    } else if |q| == 1 {
      assert !(p <= q);
      FreeBelow(m, p);
      SetNestedNotEmpty(if p[0] in m && m[p[0]].Object? then m[p[0]].members else map[], p[1..], v);
    } else {
      SetNestedLeavesBelow(m, p, v, q, u);
    }
  }

  lemma {:induction false} SetNestedLeavesBelow(m: Members, p: Path, v: JSON, q: Path, u: JSON)
    requires |p| > 1 && |q| > 1 && p[0] == q[0] && Free(m, p)
    ensures LeafAt(SetNested(m, p, v), q, u) <==> LeafAt(m, q, u) || (p <= q && LeafIn(v, q[|p|..], u))
    decreases |p|, 0
  {
    hide LeafIn;
    var k := p[0];
    FreeBelow(m, p);
    var next := if k in m && m[k].Object? then m[k].members else map[];
    SetNestedLeaves(next, p[1..], v, q[1..], u);
    assert p <= q <==> p[1..] <= q[1..];
    assert p <= q ==> q[|p|..] == q[1..][|p[1..]|..];
  }

  lemma SetNestedNotEmpty(m: Members, p: Path, v: JSON)
    requires p != []
    ensures SetNested(m, p, v) != map[]
  {
    assert p[0] in SetNested(m, p, v);
  }

  /** Leaves of one object are prefix-free. */
  lemma {:induction false} LeavesPrefixFree(m: Members, p: Path, u: JSON, q: Path, w: JSON)
    requires LeafAt(m, p, u) && LeafAt(m, q, w) && p <= q
    ensures p == q
    decreases |p|
  {
    assert p[0] == q[0];
    if |p| > 1 {
      assert p[1..] <= q[1..];
      LeavesPrefixFree(m[p[0]].members, p[1..], u, q[1..], w);
      assert p == [p[0]] + p[1..] && q == [q[0]] + q[1..];
    } else if |q| > 1 {
      LeafNotEmpty(m[p[0]].members, q[1..], w);
    }
  }

  lemma LeafNotEmpty(m: Members, q: Path, u: JSON)
    requires LeafAt(m, q, u)
    ensures m != map[]
  {
    assert q[0] in m;
  }

  // ----- chunks -----

  ghost predicate Holds(chunks: seq<Members>, q: Path, u: JSON) {
    exists c :: 0 <= c < |chunks| && LeafAt(chunks[c], q, u)
  }

  /** No path is a leaf of two chunks. */
  ghost predicate Apart(chunks: seq<Members>) {
    forall c, d, q, u, w :: 0 <= c < d < |chunks| && LeafAt(chunks[c], q, u) ==> !LeafAt(chunks[d], q, w)
  }

  ghost predicate AllFree(chunks: seq<Members>, p: Path) {
    forall q, u :: Holds(chunks, q, u) ==> !Comparable(p, q)
  }

  /** after holds what before held and, below path, what value has. */
  ghost predicate Adds(before: seq<Members>, after: seq<Members>, path: Path, value: JSON) {
    forall q, u :: q != [] ==>
      (Holds(after, q, u) <==> Holds(before, q, u) || (path <= q && LeafIn(value, q[|path|..], u)))
  }

  lemma WriteLast(chunks: seq<Members>, path: Path, value: JSON)
    requires chunks != [] && path != [] && Apart(chunks) && AllFree(chunks, path)
    ensures var last := |chunks| - 1;
            var after := chunks[last := SetNested(chunks[last], path, value)];
            Apart(after) && Adds(chunks, after, path, value)
  {
    var last := |chunks| - 1;
    var m := SetNested(chunks[last], path, value);
    var after := chunks[last := m];
    forall q, u | LeafAt(chunks[last], q, u)
      ensures !Comparable(path, q)
    {
      assert Holds(chunks, q, u);
    }
    forall q, u
      ensures LeafAt(m, q, u) <==> LeafAt(chunks[last], q, u) || (path <= q && LeafIn(value, q[|path|..], u))
    {
      SetNestedLeaves(chunks[last], path, value, q, u);
    }
    WriteAdds(chunks, m, path, value);
    forall c, d, q, u, w | 0 <= c < d < |after| && LeafAt(after[c], q, u)
      ensures !LeafAt(after[d], q, w)
    {
      assert after[c] == chunks[c];
      assert Holds(chunks, q, u);
    }
  }

  lemma WriteAdds(chunks: seq<Members>, m: Members, path: Path, value: JSON)
    requires chunks != []
    requires forall q, u :: LeafAt(m, q, u) <==>
               LeafAt(chunks[|chunks| - 1], q, u) || (path <= q && LeafIn(value, q[|path|..], u))
    ensures Adds(chunks, chunks[|chunks| - 1 := m], path, value)
  {
    var last := |chunks| - 1;
    var after := chunks[last := m];
    forall q, u | q != []
      ensures Holds(after, q, u) <==> Holds(chunks, q, u) || (path <= q && LeafIn(value, q[|path|..], u))
    {
      if c :| 0 <= c < |after| && LeafAt(after[c], q, u) {
        if c < last {
          assert LeafAt(chunks[c], q, u);
        }
      }
      if c :| 0 <= c < |chunks| && LeafAt(chunks[c], q, u) {
        if c < last {
          assert LeafAt(after[c], q, u);
        } else {
          assert LeafAt(after[last], q, u);
        }
      }
      if path <= q && LeafIn(value, q[|path|..], u) {
        assert LeafAt(after[last], q, u);
      }
    }
  }

  lemma OpenChunk(chunks: seq<Members>)
    requires Apart(chunks)
    ensures Apart(chunks + [map[]])
    ensures forall q, u :: Holds(chunks + [map[]], q, u) <==> Holds(chunks, q, u)
  {
    var after := chunks + [map[]];
    forall q, u
      ensures Holds(after, q, u) <==> Holds(chunks, q, u)
    {
      if c :| 0 <= c < |chunks| && LeafAt(chunks[c], q, u) {
        assert LeafAt(after[c], q, u);
      }
    }
  }

  /** The object's members in done have been written below path, on top of what was there before. */
  ghost predicate PartDone(before: seq<Members>, now: seq<Members>, path: Path, object_: Members, done: set<string>) {
    forall q, u :: q != [] ==>
      (Holds(now, q, u) <==> Holds(before, q, u)
                             || (path <= q && |path| < |q| && q[|path|] in done && LeafAt(object_, q[|path|..], u)))
  }

  /** Writing one more member below path keeps the account. */
  lemma MemberDone(before: seq<Members>, now: seq<Members>, after: seq<Members>, path: Path, object_: Members,
                   done: set<string>, key: string)
    requires PartDone(before, now, path, object_, done) && key in object_ && key !in done
    requires Adds(now, after, path + [key], object_[key])
    ensures PartDone(before, after, path, object_, done + {key})
  {
    var deeper := path + [key];
    forall q, u | q != []
      ensures Holds(after, q, u) <==>
              Holds(before, q, u)
              || (path <= q && |path| < |q| && q[|path|] in done + {key} && LeafAt(object_, q[|path|..], u))
    {
      assert deeper <= q <==> path <= q && |path| < |q| && q[|path|] == key;
      if deeper <= q {
        MemberLeaf(object_, key, q[|path|..], u);
        assert q[|deeper|..] == q[|path|..][1..];
      }
    }
  }

  lemma MemberLeaf(object_: Members, key: string, r: Path, u: JSON)
    requires key in object_ && r != [] && r[0] == key
    ensures LeafAt(object_, r, u) <==> LeafIn(object_[key], r[1..], u)
  {
  }

  lemma StillFree(before: seq<Members>, now: seq<Members>, path: Path, object_: Members, done: set<string>, key: string)
    requires PartDone(before, now, path, object_, done) && key !in done && AllFree(before, path)
    ensures AllFree(now, path + [key])
  {
    var deeper := path + [key];
    forall q, u | Holds(now, q, u)
      ensures !Comparable(deeper, q)
    {
      var c :| 0 <= c < |now| && LeafAt(now[c], q, u);
      if Holds(before, q, u) {
        if Comparable(deeper, q) {
          ComparableShorter(path, key, q);
        }
      } else {
        assert path <= q && q[|path|] in done;
        assert deeper[|path|] == key;
      }
    }
  }

  /** Chunks before the newest are never touched again, and none was left before it reached the minimum size. */
  ghost predicate Grown(before: seq<Members>, after: seq<Members>, size: Members -> nat, minSize: int)
    requires before != []
  {
    && |before| <= |after| && after[..|before| - 1] == before[..|before| - 1]
    && forall i :: |before| - 1 <= i < |after| - 1 ==> size(after[i]) >= minSize
  }

  /** The newest chunk may change; a further one may be opened once it is large enough. */
  lemma GrownNow(before: seq<Members>, after: seq<Members>, size: Members -> nat, minSize: int)
    requires before != [] && after != []
    requires after[..|after| - 1] == before[..|before| - 1]
             || (after[..|after| - 1] == before && size(before[|before| - 1]) >= minSize)
    ensures Grown(before, after, size, minSize)
  {
    if after[..|after| - 1] == before {
      assert after[|before| - 1] == before[|before| - 1];
      assert after[..|before| - 1] == before[..|before| - 1];
    }
  }

  lemma GrownTwice(a: seq<Members>, b: seq<Members>, c: seq<Members>, size: Members -> nat, minSize: int)
    requires a != [] && b != [] && Grown(a, b, size, minSize) && Grown(b, c, size, minSize)
    ensures Grown(a, c, size, minSize)
  {
    assert c[..|a| - 1] == c[..|b| - 1][..|a| - 1];
    forall i | |a| - 1 <= i < |c| - 1
      ensures size(c[i]) >= minSize
    {
      if i < |b| - 1 {
        assert c[..|b| - 1][i] == b[..|b| - 1][i];
      }
    }
  }

  // ----- the decisions -----

  type Place = p: Path | p != [] witness [""]

  /** A member that was reached: written whole into the newest chunk, or its members reached one by one. */
  datatype Event =
    | Put(path: Place, value: JSON, opened_: bool)
    | Parted(path: Place, value: JSON, opened_: bool)

  /** What an event does to the chunks; opened_ says that a new chunk is opened first. */
  function Do(chunks: seq<Members>, e: Event): (after: seq<Members>)
    requires chunks != []
    ensures after != []
  {
    var grown := if e.opened_ then chunks + [map[]] else chunks;
    if e.Put? then grown[|grown| - 1 := SetNested(grown[|grown| - 1], e.path, e.value)] else grown
  }

  function Replay(chunks: seq<Members>, events: seq<Event>): (after: seq<Members>)
    requires chunks != []
    ensures after != []
    decreases |events|
  {
    if events == [] then chunks else Replay(Do(chunks, events[0]), events[1..])
  }

  /** The member alone is smaller than what is left of the maximum. */
  predicate FitsIn(newest: Members, path: Place, value: JSON, size: Members -> nat, maxSize: int) {
    size(map[path[|path| - 1] := value]) < maxSize - size(newest)
  }

  /**
   A member that fits the newest chunk is written there; a leaf is written in any case; another member is parted.
   A chunk is opened exactly for a member that does not fit a newest chunk of at least the minimum size.
   */
  predicate Decided(newest: Members, e: Event, size: Members -> nat, maxSize: int, minSize: int) {
    var fits := FitsIn(newest, e.path, e.value, size, maxSize);
    && (e.Put? <==> fits || !Branch(e.value))
    && (e.opened_ <==> !fits && size(newest) >= minSize)
  }

  predicate Decisions(chunks: seq<Members>, events: seq<Event>, size: Members -> nat, maxSize: int, minSize: int)
    requires chunks != []
    decreases |events|
  {
    events == []
    || (Decided(chunks[|chunks| - 1], events[0], size, maxSize, minSize)
        && Decisions(Do(chunks, events[0]), events[1..], size, maxSize, minSize))
  }

  lemma {:induction false} ReplayAppend(chunks: seq<Members>, a: seq<Event>, b: seq<Event>,
                                        size: Members -> nat, maxSize: int, minSize: int)
    requires chunks != []
    ensures Replay(chunks, a + b) == Replay(Replay(chunks, a), b)
    ensures Decisions(chunks, a, size, maxSize, minSize) && Decisions(Replay(chunks, a), b, size, maxSize, minSize) ==>
              Decisions(chunks, a + b, size, maxSize, minSize)
    decreases |a|
  {
    if a == [] {
      assert a + b == b;
    } else {
      assert (a + b)[0] == a[0] && (a + b)[1..] == a[1..] + b;
      ReplayAppend(Do(chunks, a[0]), a[1..], b, size, maxSize, minSize);
    }
  }

  /** Each event was decided by the newest chunk as the events before it had left it. */
  lemma {:induction false} DecidedAt(chunks: seq<Members>, events: seq<Event>, i: nat, size: Members -> nat, maxSize: int, minSize: int)
    requires chunks != [] && i < |events| && Decisions(chunks, events, size, maxSize, minSize)
    ensures var so := Replay(chunks, events[..i]);
            Decided(so[|so| - 1], events[i], size, maxSize, minSize)
    decreases i
  {
    if i > 0 {
      DecidedAt(Do(chunks, events[0]), events[1..], i - 1, size, maxSize, minSize);
      assert events[..i][0] == events[0] && events[..i][1..] == events[1..][..i - 1];
    }
  }

  /** One write decides a member that is a leaf or fits. */
  lemma PutDecides(chunks: seq<Members>, e: Event, size: Members -> nat, maxSize: int, minSize: int)
    requires chunks != [] && Decided(chunks[|chunks| - 1], e, size, maxSize, minSize)
    ensures Replay(chunks, [e]) == Do(chunks, e) && Decisions(chunks, [e], size, maxSize, minSize)
  {
    assert [e][1..] == [];
  }

  function Visited(events: seq<Event>): set<Path> {
    set i | 0 <= i < |events| :: events[i].path
  }

  function PartedAt(events: seq<Event>): set<Path> {
    set i | 0 <= i < |events| && events[i].Parted? :: events[i].path
  }

  ghost predicate NoneTwice(events: seq<Event>) {
    forall i, j :: 0 <= i < j < |events| ==> events[i].path != events[j].path
  }

  /** Every event is about a member of data, none about the same one, and a member is reached exactly if its parent was parted. */
  ghost predicate Walk(data: JSON, path: Path, events: seq<Event>) {
    && (forall i :: 0 <= i < |events| ==>
          path < events[i].path && GetAt(data, events[i].path[|path|..]) == Some(events[i].value))
    && NoneTwice(events)
    && (forall q: Place :: GetAt(data, q).Some? ==>
          (path + q in Visited(events) <==> |q| == 1 || path + q[..|q| - 1] in PartedAt(events)))
  }

  /** The same for the members whose keys are in done. */
  ghost predicate PartWalk(data: JSON, path: Path, done: set<string>, events: seq<Event>) {
    && (forall i :: 0 <= i < |events| ==>
          && path < events[i].path && events[i].path[|path|] in done
          && GetAt(data, events[i].path[|path|..]) == Some(events[i].value))
    && NoneTwice(events)
    && (forall q: Place :: q[0] in done && GetAt(data, q).Some? ==>
          (path + q in Visited(events) <==> |q| == 1 || path + q[..|q| - 1] in PartedAt(events)))
  }

  lemma VisitedAppend(a: seq<Event>, b: seq<Event>)
    ensures Visited(a + b) == Visited(a) + Visited(b)
    ensures PartedAt(a + b) == PartedAt(a) + PartedAt(b)
  {
    var all := a + b;
    assert forall i :: 0 <= i < |b| ==> all[|a| + i] == b[i];
    forall q | q in Visited(a) + Visited(b)
      ensures q in Visited(all)
    {
      if i :| 0 <= i < |a| && a[i].path == q {
        assert all[i].path == q;
      } else {
        var i :| 0 <= i < |b| && b[i].path == q;
        assert all[|a| + i].path == q;
      }
    }
    forall q | q in PartedAt(a) + PartedAt(b)
      ensures q in PartedAt(all)
    {
      if i :| 0 <= i < |a| && a[i].Parted? && a[i].path == q {
        assert all[i].Parted? && all[i].path == q;
      } else {
        var i :| 0 <= i < |b| && b[i].Parted? && b[i].path == q;
        assert all[|a| + i].Parted? && all[|a| + i].path == q;
      }
    }
  }

  lemma JoinWalks(data: JSON, path: Path, done: set<string>, a: seq<Event>, k: string, b: seq<Event>)
    requires k !in done && PartWalk(data, path, done, a) && PartWalk(data, path, {k}, b)
    ensures PartWalk(data, path, done + {k}, a + b)
  {
    VisitedAppend(a, b);
    forall q: Place | q[0] in done + {k} && GetAt(data, q).Some?
      ensures path + q in Visited(a + b) <==> |q| == 1 || path + q[..|q| - 1] in PartedAt(a + b)
    {
      assert (path + q)[|path|] == q[0];
      if |q| > 1 {
        assert (path + q[..|q| - 1])[|path|] == q[0];
      }
    }
    forall i, j | 0 <= i < j < |a + b|
      ensures (a + b)[i].path != (a + b)[j].path
    {
      if i < |a| <= j {
        assert a[i].path[|path|] in done && b[j - |a|].path[|path|] in {k};
      }
    }
  }

  /** A member written whole. */
  lemma PutWalk(data: JSON, path: Path, k: string, e: Event)
    requires data.Object? && k in data.members && e.Put? && e.path == path + [k] && e.value == data.members[k]
    ensures PartWalk(data, path, {k}, [e])
  {
    assert e.path[|path|..] == [k] + [];
    GetBelow(data.members, k, []);
    assert Visited([e]) == {e.path} by { assert [e][0] == e; }
    assert PartedAt([e]) == {};
    forall q: Place | q[0] in {k} && GetAt(data, q).Some?
      ensures path + q == e.path <==> |q| == 1
    {
      assert |q| == 1 ==> q == [k];
    }
  }

  lemma WalkAt(data: JSON, path: Path, events: seq<Event>, q: Place)
    requires Walk(data, path, events) && GetAt(data, q).Some?
    ensures path + q in Visited(events) <==> |q| == 1 || path + q[..|q| - 1] in PartedAt(events)
  {
  }

  lemma PartedReach(data: JSON, path: Path, k: string, sub: seq<Event>, q: Place)
    requires data.Object? && k in data.members
    requires Walk(data.members[k], path + [k], sub)
    requires q[0] == k && GetAt(data, q).Some?
    ensures path + q in {path + [k]} + Visited(sub) <==> |q| == 1 || path + q[..|q| - 1] in {path + [k]} + PartedAt(sub)
  {
    hide Walk, Visited, PartedAt;
    var r := q[1..];
    assert q == [k] + r && path + q == (path + [k]) + r;
    GetBelow(data.members, k, r);
    if r == [] {
      assert path + q == path + [k];
    } else {
      WalkAt(data.members[k], path + [k], sub, r);
      assert path + q[..|q| - 1] == (path + [k]) + r[..|r| - 1];
      LongerDiffer(path + [k], r);
      if |r| == 1 {
        assert path + q[..|q| - 1] == path + [k];
      } else {
        LongerDiffer(path + [k], r[..|r| - 1]);
      }
    }
  }

  lemma LongerDiffer(p: Path, r: Path)
    requires r != []
    ensures p + r != p
  {
    assert |p + r| > |p|;
  }

  /** An event below a member is one below the object. */
  lemma EventBelow(data: JSON, path: Path, k: string, e: Event)
    requires data.Object? && k in data.members && path + [k] <= e.path
    requires GetAt(data.members[k], e.path[|path| + 1..]) == Some(e.value)
    ensures path < e.path && e.path[|path|] == k && GetAt(data, e.path[|path|..]) == Some(e.value)
  {
    var r := e.path[|path| + 1..];
    assert e.path[|path|] == (path + [k])[|path|] == k;
    assert e.path[|path|..] == [k] + r;
    GetBelow(data.members, k, r);
    assert path == (path + [k])[..|path|] == e.path[..|path|];
  }

  /** A member that was parted, with the walk through its own members. */
  lemma PartedWalk(data: JSON, path: Path, k: string, e: Event, sub: seq<Event>)
    requires data.Object? && k in data.members && e.Parted? && e.path == path + [k] && e.value == data.members[k]
    requires Walk(data.members[k], path + [k], sub)
    ensures PartWalk(data, path, {k}, [e] + sub)
  {
    var events := [e] + sub;
    PartedEvents(data, path, k, e, sub);
    VisitedAppend([e], sub);
    OneVisited(e);
    hide Visited, PartedAt, Walk, GetAt;
    forall q: Place | q[0] in {k} && GetAt(data, q).Some?
      ensures path + q in Visited(events) <==> |q| == 1 || path + q[..|q| - 1] in PartedAt(events)
    {
      PartedReach(data, path, k, sub, q);
    }
  }

  lemma OneVisited(e: Event)
    ensures Visited([e]) == {e.path} && PartedAt([e]) == if e.Parted? then {e.path} else {}
  {
    assert [e][0] == e;
  }

  lemma PartedEvents(data: JSON, path: Path, k: string, e: Event, sub: seq<Event>)
    requires data.Object? && k in data.members && e.path == path + [k] && e.value == data.members[k]
    requires Walk(data.members[k], path + [k], sub)
    ensures var events := [e] + sub;
            && NoneTwice(events)
            && forall i :: 0 <= i < |events| ==>
                 && path < events[i].path && events[i].path[|path|] == k
                 && GetAt(data, events[i].path[|path|..]) == Some(events[i].value)
  {
    var events := [e] + sub;
    forall i | 0 <= i < |events|
      ensures path < events[i].path && events[i].path[|path|] == k
      ensures GetAt(data, events[i].path[|path|..]) == Some(events[i].value)
      ensures i > 0 ==> events[i].path != e.path
    {
      if i > 0 {
        assert events[i] == sub[i - 1];
        assert |path + [k]| == |path| + 1;
      }
      EventBelow(data, path, k, events[i]);
    }
  }

  lemma WholeWalk(data: JSON, path: Path, done: set<string>, events: seq<Event>)
    requires data.Object? && done == data.members.Keys && PartWalk(data, path, done, events)
    ensures Walk(data, path, events)
  {
  }

  lemma NothingReplayed(data: JSON, path: Path, chunks: seq<Members>, size: Members -> nat, maxSize: int, minSize: int)
    requires chunks != []
    ensures Replay(chunks, []) == chunks && Decisions(chunks, [], size, maxSize, minSize) && PartWalk(data, path, {}, [])
  {
  }

  lemma PartedDecides(chunks: seq<Members>, e: Event, sub: seq<Event>, size: Members -> nat, maxSize: int, minSize: int)
    requires chunks != [] && Decided(chunks[|chunks| - 1], e, size, maxSize, minSize)
    requires Decisions(Do(chunks, e), sub, size, maxSize, minSize)
    ensures Replay(chunks, [e] + sub) == Replay(Do(chunks, e), sub)
    ensures Decisions(chunks, [e] + sub, size, maxSize, minSize)
  {
    assert ([e] + sub)[1..] == sub;
  }

  /** The chunks are what replaying the events gives, each event was decided as it should, and the events walk through data. */
  ghost predicate Account(data: JSON, path: Path, chunks: seq<Members>, out: seq<Members>, events: seq<Event>,
                          size: Members -> nat, maxSize: int, minSize: int)
    requires chunks != []
  {
    && out == Replay(chunks, events)
    && Decisions(chunks, events, size, maxSize, minSize)
    && Walk(data, path, events)
  }

  /**
   jsonSplit: write data below path.  size is any measure of an object; which chunk a value lands in
   depends on it, what is written does not, and neither does it depend on the order of iteration.
   */
  method SplitInto(data: JSON, path: Path, chunks: seq<Members>, size: Members -> nat, maxSize: int, minSize: int)
    returns (out: seq<Members>, ghost events: seq<Event>)
    requires chunks != [] && Apart(chunks) && AllFree(chunks, path)
    ensures out != [] && Apart(out) && Adds(chunks, out, path, data)
    ensures Grown(chunks, out, size, minSize)
    ensures Branch(data) ==> Account(data, path, chunks, out, events, size, maxSize, minSize)
    ensures !Branch(data) ==>
              out == if path == [] then chunks else chunks[|chunks| - 1 := SetNested(chunks[|chunks| - 1], path, data)]
    decreases data, 0
  {
    hide Apart, AllFree, Adds, PartDone, Holds, LeafIn, Grown, SetNested, Replay, Decisions, Walk, PartWalk, NoneTwice;
    GrownNow(chunks, chunks, size, minSize);
    out, events := chunks, [];
    if data.Object? && |data.members| > 0 {
      var rest := data.members.Keys;
      ghost var done: set<string> := {};
      NothingDone(chunks, path, data.members);
      NothingReplayed(data, path, chunks, size, maxSize, minSize);
      while rest != {}
        invariant out != [] && Apart(out) && PartDone(chunks, out, path, data.members, done)
        invariant Grown(chunks, out, size, minSize)
        invariant out == Replay(chunks, events) && Decisions(chunks, events, size, maxSize, minSize)
        invariant PartWalk(data, path, done, events)
        invariant rest !! done && rest + done == data.members.Keys
        decreases rest
      {
        var key: string :| key in rest;
        rest := rest - {key};
        StillFree(chunks, out, path, data.members, done, key);
        ghost var now := out;
        ghost var more;
        out, more := PlaceMember(key, data.members[key], path + [key], out, size, maxSize, minSize, data, path);
        ReplayAppend(chunks, events, more, size, maxSize, minSize);
        JoinWalks(data, path, done, events, key, more);
        events := events + more;
        GrownTwice(chunks, now, out, size, minSize);
        MemberDone(chunks, now, out, path, data.members, done, key);
        done := done + {key};
      }
      WholeWalk(data, path, done, events);
      BranchDone(chunks, out, path, data, done);
    } else if |path| > 0 {
      WriteLast(out, path, data);
      out := out[|out| - 1 := SetNested(out[|out| - 1], path, data)];
      GrownNow(chunks, out, size, minSize);
    } else {
      RootLeaf(chunks, data);
    }
  }

  /** One member: whole into the newest chunk if it fits, split otherwise, into a new chunk if the newest is large enough. */
  method PlaceMember(key: string, value: JSON, newPath: Path, chunks: seq<Members>, size: Members -> nat, maxSize: int, minSize: int,
                     ghost data: JSON, ghost path: Path)
    returns (out: seq<Members>, ghost events: seq<Event>)
    requires chunks != [] && Apart(chunks) && newPath == path + [key] && AllFree(chunks, newPath)
    requires data.Object? && key in data.members && data.members[key] == value
    ensures out == Replay(chunks, events) && Decisions(chunks, events, size, maxSize, minSize)
    ensures PartWalk(data, path, {key}, events)
    ensures out != [] && Apart(out) && Adds(chunks, out, newPath, value)
    ensures Grown(chunks, out, size, minSize)
    decreases value, 1
  {
    hide Apart, AllFree, Adds, Holds, LeafIn, Grown, SetNested, Replay, Decisions, Walk, PartWalk;
    var last := |chunks| - 1;
    var chunkSize := size(chunks[last]);
    if size(map[key := value]) < maxSize - chunkSize {
      WriteLast(chunks, newPath, value);
      out := chunks[last := SetNested(chunks[last], newPath, value)];
      GrownNow(chunks, out, size, minSize);
      events := [Put(newPath, value, false)];
      PutWalk(data, path, key, events[0]);
      PutDecides(chunks, events[0], size, maxSize, minSize);
      return;
    }
    var grown := chunks;
    if chunkSize >= minSize {
      OpenChunk(chunks);
      OpenKeepsFree(chunks, newPath);
      grown := chunks + [map[]];
    }
    GrownNow(chunks, grown, size, minSize);
    ghost var sub;
    out, sub := SplitInto(value, newPath, grown, size, maxSize, minSize);
    if Branch(value) {
      ghost var e := Parted(newPath, value, chunkSize >= minSize);
      events := [e] + sub;
      PartedWalk(data, path, key, e, sub);
      PartedDecides(chunks, e, sub, size, maxSize, minSize);
    } else {
      events := [Put(newPath, value, chunkSize >= minSize)];
      PutWalk(data, path, key, events[0]);
      PutDecides(chunks, events[0], size, maxSize, minSize);
    }
    AddsAfterOpen(chunks, grown, out, newPath, value);
    GrownTwice(chunks, grown, out, size, minSize);
  }

  lemma NothingDone(chunks: seq<Members>, path: Path, object_: Members)
    ensures PartDone(chunks, chunks, path, object_, {})
  {
  }

  lemma OpenKeepsFree(chunks: seq<Members>, path: Path)
    requires Apart(chunks) && AllFree(chunks, path)
    ensures AllFree(chunks + [map[]], path)
  {
    OpenChunk(chunks);
  }

  lemma AddsAfterOpen(now: seq<Members>, grown: seq<Members>, out: seq<Members>, path: Path, value: JSON)
    requires Apart(now) && (grown == now || grown == now + [map[]]) && Adds(grown, out, path, value)
    ensures Adds(now, out, path, value)
  {
    OpenChunk(now);
  }

  lemma BranchDone(before: seq<Members>, out: seq<Members>, path: Path, data: JSON, done: set<string>)
    requires Branch(data) && PartDone(before, out, path, data.members, done) && done == data.members.Keys
    ensures Adds(before, out, path, data)
  {
    forall q, u | q != []
      ensures Holds(out, q, u) <==> Holds(before, q, u) || (path <= q && LeafIn(data, q[|path|..], u))
    {
      if path <= q && |path| < |q| {
        assert q[|path|..][0] == q[|path|];
      }
    }
  }

  lemma RootLeaf(chunks: seq<Members>, data: JSON)
    requires !Branch(data)
    ensures Adds(chunks, chunks, [], data)
  {
    forall q, u | q != []
      ensures !LeafIn(data, q[0..], u)
    {
      assert q[0..] == q;
    }
  }

  // ----- merging the chunks again -----

  /** Deep merge: objects are merged member by member, otherwise b wins. */
  function Merge(a: Members, b: Members): Members
    decreases Object(a)
  {
    map k | k in a.Keys + b.Keys ::
      if k !in b then a[k]
      else if k in a && a[k].Object? && b[k].Object? then Object(Merge(a[k].members, b[k].members))
      else b[k]
  }

  function MergeAll(chunks: seq<Members>): Members {
    if chunks == [] then map[] else Merge(MergeAll(chunks[..|chunks| - 1]), chunks[|chunks| - 1])
  }

  /** Every object has a leaf below each of its members. */
  lemma {:induction false} LeafBelow(m: Members, k: string) returns (q: Path, u: JSON)
    requires k in m
    ensures LeafAt(m, q, u) && q[0] == k
    decreases m[k]
  {
    if Branch(m[k]) {
      var j :| j in m[k].members;
      var r;
      r, u := LeafBelow(m[k].members, j);
      q := [k] + r;
      LeafUnder(m, k, r, u);
    } else {
      q, u := [k], m[k];
    }
  }

  /** An object is determined by its leaves. */
  lemma {:induction false} LeavesDetermine(a: Members, b: Members)
    requires forall q, u :: LeafAt(a, q, u) <==> LeafAt(b, q, u)
    ensures a == b
    decreases Object(a)
  {
    forall k | k in b
      ensures k in a
    {
      var q, u := LeafBelow(b, k);
      assert LeafAt(a, q, u);
    }
    forall k | k in a
      ensures k in b && a[k] == b[k]
    {
      var q, u := LeafBelow(a, k);
      assert LeafAt(b, q, u);
      if !Branch(a[k]) {
        assert LeafAt(a, [k], a[k]);
        assert LeafAt(b, [k], a[k]);
      } else {
        if !Branch(b[k]) {
          DirectLeaf(b, k);
        }
        MembersShareLeaves(a, b, k);
        LeavesDetermine(a[k].members, b[k].members);
      }
    }
  }

  lemma MembersShareLeaves(a: Members, b: Members, k: string)
    requires forall q, u :: LeafAt(a, q, u) <==> LeafAt(b, q, u)
    requires k in a && k in b && a[k].Object? && b[k].Object?
    ensures forall q, u :: LeafAt(a[k].members, q, u) <==> LeafAt(b[k].members, q, u)
  {
    forall q, u
      ensures LeafAt(a[k].members, q, u) <==> LeafAt(b[k].members, q, u)
    {
      var deeper := [k] + q;
      assert deeper[0] == k && deeper[1..] == q;
      assert LeafAt(a, deeper, u) <==> LeafAt(b, deeper, u);
    }
  }

  ghost predicate Unrelated(a: Members, b: Members) {
    forall p, q, u, w :: LeafAt(a, p, u) && LeafAt(b, q, w) ==> !Comparable(p, q)
  }

  lemma UnrelatedMembers(a: Members, b: Members, k: string)
    requires Unrelated(a, b) && k in a && k in b
    ensures Branch(a[k]) && Branch(b[k]) && Unrelated(a[k].members, b[k].members)
  {
    var p, u := LeafBelow(a, k);
    var q, w := LeafBelow(b, k);
    assert [k] <= p && [k] <= q;
    if !Branch(a[k]) {
      DirectLeaf(a, k);
    }
    if !Branch(b[k]) {
      DirectLeaf(b, k);
    }
    forall p, q, u, w | a[k].Object? && b[k].Object? && LeafAt(a[k].members, p, u) && LeafAt(b[k].members, q, w)
      ensures !Comparable(p, q)
    {
      LeafUnder(a, k, p, u);
      LeafUnder(b, k, q, w);
      assert p <= q ==> [k] + p <= [k] + q;
      assert q <= p ==> [k] + q <= [k] + p;
    }
  }

  /** Merging objects with unrelated leaves keeps exactly the leaves of both. */
  lemma {:induction false} MergeLeaves(a: Members, b: Members, q: Path, u: JSON)
    requires Unrelated(a, b)
    ensures LeafAt(Merge(a, b), q, u) <==> LeafAt(a, q, u) || LeafAt(b, q, u)
    decreases |q|
  {
    if q != [] && q[0] in a && q[0] in b {
      var k := q[0];
      UnrelatedMembers(a, b, k);
      if |q| > 1 {
        MergeLeaves(a[k].members, b[k].members, q[1..], u);
      } else {
        var j :| j in a[k].members;
        assert j in Merge(a[k].members, b[k].members);
      }
    }
  }

  /** The chunks, merged in order, have exactly the leaves the chunks hold. */
  lemma {:induction false} MergeAllLeaves(chunks: seq<Members>, data: Members)
    requires Apart(chunks) && forall q, u :: Holds(chunks, q, u) ==> LeafAt(data, q, u)
    ensures forall q, u :: LeafAt(MergeAll(chunks), q, u) <==> Holds(chunks, q, u)
  {
    if chunks != [] {
      var front, last := chunks[..|chunks| - 1], chunks[|chunks| - 1];
      HoldsSplit(chunks);
      assert Apart(front);
      MergeAllLeaves(front, data);
      forall p, q, u, w | LeafAt(MergeAll(front), p, u) && LeafAt(last, q, w)
        ensures !Comparable(p, q)
      {
        assert Holds(chunks, p, u) && Holds(chunks, q, w);
        NeverComparable(chunks, data, p, u, q, w);
      }
      forall q, u
        ensures LeafAt(MergeAll(chunks), q, u) <==> Holds(chunks, q, u)
      {
        MergeLeaves(MergeAll(front), last, q, u);
      }
    }
  }

  lemma HoldsSplit(chunks: seq<Members>)
    requires chunks != []
    ensures forall q, u :: Holds(chunks, q, u) <==>
              Holds(chunks[..|chunks| - 1], q, u) || LeafAt(chunks[|chunks| - 1], q, u)
  {
    var front := chunks[..|chunks| - 1];
    forall q, u
      ensures Holds(chunks, q, u) <==> Holds(front, q, u) || LeafAt(chunks[|chunks| - 1], q, u)
    {
      if c :| 0 <= c < |chunks| && LeafAt(chunks[c], q, u) {
        assert c < |front| ==> LeafAt(front[c], q, u);
      }
      if c :| 0 <= c < |front| && LeafAt(front[c], q, u) {
        assert LeafAt(chunks[c], q, u);
      }
    }
  }

  /** A leaf of the last chunk and one of an earlier chunk are leaves of the data at different paths. */
  lemma NeverComparable(chunks: seq<Members>, data: Members, p: Path, u: JSON, q: Path, w: JSON)
    requires Apart(chunks) && chunks != []
    requires Holds(chunks[..|chunks| - 1], p, u) && LeafAt(chunks[|chunks| - 1], q, w)
    requires LeafAt(data, p, u) && LeafAt(data, q, w)
    ensures !Comparable(p, q)
  {
    var front, last := chunks[..|chunks| - 1], |chunks| - 1;
    var c :| 0 <= c < |front| && LeafAt(front[c], p, u);
    assert chunks[c] == front[c];
    if p <= q {
      LeavesPrefixFree(data, p, u, q, w);
    }
    if q <= p {
      LeavesPrefixFree(data, q, w, p, u);
    }
    assert p != q by {
      assert !LeafAt(chunks[last], p, w);
    }
  }

  lemma MergeIsData(chunks: seq<Members>, data: Members)
    requires Apart(chunks) && forall q, u :: Holds(chunks, q, u) <==> LeafAt(data, q, u)
    ensures MergeAll(chunks) == data
  {
    MergeAllLeaves(chunks, data);
    LeavesDetermine(MergeAll(chunks), data);
  }

  lemma NoLeaves()
    ensures Apart([map[]]) && AllFree([map[]], [])
    ensures forall q, u :: !Holds([map[]], q, u)
  {
  }

  lemma SplitFromEmpty(chunks: seq<Members>, data: Members)
    requires Adds([map[]], chunks, [], Object(data))
    ensures forall q, u :: Holds(chunks, q, u) <==> LeafAt(data, q, u)
  {
    NoLeaves();
    forall q, u
      ensures Holds(chunks, q, u) <==> LeafAt(data, q, u)
    {
      if q != [] {
        assert q[0..] == q && [] <= q;
      }
    }
  }

  lemma DropEmpty(chunks: seq<Members>)
    requires chunks != [] && chunks[|chunks| - 1] == map[] && Apart(chunks)
    ensures Apart(chunks[..|chunks| - 1])
    ensures forall q, u :: Holds(chunks[..|chunks| - 1], q, u) <==> Holds(chunks, q, u)
  {
    HoldsSplit(chunks);
  }

  lemma NothingToSplit(size: Members -> nat, maxSize: int, minSize: int)
    ensures Account(Object(map[]), [], [map[]], [map[]], [], size, maxSize, minSize)
  {
  }

  /**
   SplitJSON: every leaf of data lies in exactly one chunk, the chunks hold nothing else, and every chunk but
   the last has reached the minimum size.  Before a trailing empty chunk is dropped they are what replaying the events
   from one empty chunk gives, and size and maximum decided each event.
   */
  method SplitJSON(data: Members, size: Members -> nat, maxSize: int, minSize: int)
    returns (chunks: seq<Members>, ghost all: seq<Members>, ghost events: seq<Event>)
    ensures all != [] && Account(Object(data), [], [map[]], all, events, size, maxSize, minSize)
    ensures chunks == if all[|all| - 1] == map[] then all[..|all| - 1] else all
    ensures Apart(chunks) && forall q, u :: Holds(chunks, q, u) <==> LeafAt(data, q, u)
    ensures MergeAll(chunks) == data
    ensures forall i :: 0 <= i < |chunks| - 1 ==> size(chunks[i]) >= minSize
  {
    NoLeaves();
    chunks, events := SplitInto(Object(data), [], [map[]], size, maxSize, minSize);
    all := chunks;
    if !Branch(Object(data)) {
      events := [];
      NothingToSplit(size, maxSize, minSize);
    }
    hide Account;
    assert forall q, u :: Holds(chunks, q, u) <==> LeafAt(data, q, u) by {
      SplitFromEmpty(chunks, data);
    }
    if |chunks| > 0 && |chunks[|chunks| - 1]| == 0 {
      DropEmpty(chunks);
      chunks := chunks[..|chunks| - 1];
    }
    MergeIsData(chunks, data);
  }
}
