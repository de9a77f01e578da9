/**
 The stream of a parallel map: one stream per key, pulled in turn.  An exhausted stream is cut out of
 the slice in place and the turn passes to the one that moved into its position.
 */
module RoundRobin {
  import opened Common
  import opened Streams

  /** A key and the values it has still to deliver. */
  datatype Lane<V> = Lane(key: string, rest: seq<V>)

  datatype Turn<V> = Turn(out: Option<(string, V)>, lanes: seq<Lane<V>>, index: nat)

  /** One Next on the lanes: the lane in turn delivers; exhausted lanes met on the way are removed. */
  function Take<V>(lanes: seq<Lane<V>>, index: nat): Turn<V>
    requires index <= |lanes|
    decreases |lanes|
  {
    if lanes == [] then Turn(None, [], index)
    else
      var i := if index >= |lanes| then 0 else index;
      var lane := lanes[i];
      if lane.rest != [] then
        Turn(Some((lane.key, lane.rest[0])), lanes[i := lane.(rest := lane.rest[1..])], (i + 1) % |lanes|)
      else Take(lanes[..i] + lanes[i + 1..], i)
  }

  datatype Item<V> = Item(key: string, stream: SliceStream<V>)

  ghost function StreamsOf<V>(items: seq<Item<V>>): set<SliceStream<V>> {
    set i | 0 <= i < |items| :: items[i].stream
  }

  ghost predicate Separate<V>(items: seq<Item<V>>) {
    forall i, j :: 0 <= i < j < |items| ==> items[i].stream != items[j].stream
  }

  class ParallelStream<V> {
    var items: seq<Item<V>>
    var index: nat
    ghost var lanes: seq<Lane<V>>

    ghost predicate Valid()
      reads this, StreamsOf(items)
    {
      && index <= |items| == |lanes| && Separate(items)
      && forall i :: 0 <= i < |items| ==>
           items[i].stream.Valid() && lanes[i] == Lane(items[i].key, items[i].stream.Rest())
    }

    constructor (items: seq<Item<V>>, ghost lanes: seq<Lane<V>>)
      requires |items| == |lanes| && Separate(items)
      requires forall i :: 0 <= i < |items| ==>
                 items[i].stream.Valid() && lanes[i] == Lane(items[i].key, items[i].stream.Rest())
      ensures Valid() && this.items == items && this.lanes == lanes && index == 0
    {
      this.items := items;
      this.lanes := lanes;
      index := 0;
    }

    /** The lane in turn delivers a value and the turn moves on. */
    method Deliver() returns (out: Option<(string, V)>)
      requires Valid() && index < |items|
      modifies this, items[index].stream
      ensures Valid() && items == old(items)
      ensures out.Some? ==> old(lanes[index].rest) != []
                            && out.value == (old(lanes[index].key), old(lanes[index].rest[0]))
                            && lanes == old(lanes[index := lanes[index].(rest := lanes[index].rest[1..])])
                            && index == (old(index) + 1) % |items|
      ensures out.None? ==> old(lanes[index].rest) == [] && lanes == old(lanes) && index == old(index)
    {
      var item := items[index];
      var value := item.stream.Next();
      if value.Some? {
        out := Some((item.key, value.value));
        lanes := lanes[index := lanes[index].(rest := lanes[index].rest[1..])];
        index := (index + 1) % |items|;
      } else {
        out := None;
      }
    }

    method Next() returns (out: Option<(string, V)>)
      requires Valid()
      modifies this, StreamsOf(items)
      ensures Valid() && StreamsOf(items) <= old(StreamsOf(items))
      ensures Turn(out, lanes, index) == Take(old(lanes), old(index))
    {
      hide Separate;
      while |items| > 0
        invariant Valid() && StreamsOf(items) <= old(StreamsOf(items))
        invariant Take(lanes, index) == Take(old(lanes), old(index))
        decreases |items|
      {
        if index >= |items| {
          index := 0;
        }
        out := Deliver();
        if out.Some? {
          return;
        }
        CutOut();
      }
      out := None;
    }

    /** The exhausted stream in turn is closed and cut out of the slice. */
    method CutOut()
      requires Valid() && index < |items|
      modifies this, items[index].stream
      ensures Valid() && index == old(index) && StreamsOf(items) <= old(StreamsOf(items))
      ensures |items| == |old(items)| - 1
      ensures lanes == old(lanes[..index] + lanes[index + 1..])
    {
      CutStreams(items, index);
      items[index].stream.Close();
      items := items[..index] + items[index + 1..];
      lanes := lanes[..index] + lanes[index + 1..];
    }
  }

  lemma CutStreams<V>(items: seq<Item<V>>, i: nat)
    requires i < |items| && Separate(items)
    ensures var left := items[..i] + items[i + 1..];
            Separate(left) && StreamsOf(left) <= StreamsOf(items) && items[i].stream !in StreamsOf(left)
  {
  }

  // ----- the whole drain -----

  function Pending<V>(lanes: seq<Lane<V>>): nat {
    if lanes == [] then 0 else |lanes[0].rest| + Pending(lanes[1..])
  }

  lemma {:induction false} PendingAppend<V>(a: seq<Lane<V>>, b: seq<Lane<V>>)
    ensures Pending(a + b) == Pending(a) + Pending(b)
  {
    if a == [] {
      assert a + b == b;
    } else {
      assert (a + b)[1..] == a[1..] + b && (a + b)[0] == a[0];
      PendingAppend(a[1..], b);
    }
  }

  /** One lane with other values to deliver. */
  lemma PendingAround<V>(front: seq<Lane<V>>, lane: Lane<V>, back: seq<Lane<V>>)
    ensures Pending(front + ([lane] + back)) == Pending(front + back) + |lane.rest|
  {
    assert ([lane] + back)[1..] == back && ([lane] + back)[0] == lane;
    assert Pending([lane] + back) == |lane.rest| + Pending(back);
    hide Pending;
    PendingAppend(front, back);
    PendingAppend(front, [lane] + back);
  }

  lemma PendingSplit<V>(lanes: seq<Lane<V>>, i: nat)
    requires i < |lanes|
    ensures Pending(lanes) == Pending(lanes[..i] + lanes[i + 1..]) + |lanes[i].rest|
    ensures lanes[i].rest != [] ==>
              Pending(lanes[i := lanes[i].(rest := lanes[i].rest[1..])]) == Pending(lanes) - 1
  {
    var shorter := lanes[i].(rest := if lanes[i].rest == [] then [] else lanes[i].rest[1..]);
    var front, back := lanes[..i], lanes[i + 1..];
    SplitAround(lanes, i, shorter);
    hide Pending;
    PendingAround(front, lanes[i], back);
    PendingAround(front, shorter, back);
  }

  lemma {:induction false} TakeUsesOne<V>(lanes: seq<Lane<V>>, index: nat)
    requires index <= |lanes|
    ensures var t := Take(lanes, index);
            t.index <= |t.lanes| || t.out.None?
    ensures Take(lanes, index).out.Some? ==> Take(lanes, index).index <= |Take(lanes, index).lanes|
                                             && Pending(Take(lanes, index).lanes) == Pending(lanes) - 1
    ensures Take(lanes, index).out.None? ==> Pending(lanes) == 0
    decreases |lanes|
  {
    if lanes != [] {
      var i := if index >= |lanes| then 0 else index;
      PendingSplit(lanes, i);
      if lanes[i].rest == [] {
        TakeUsesOne(lanes[..i] + lanes[i + 1..], i);
      }
    }
  }

  /** Everything Next delivers until it reports the end. */
  function Drained<V>(lanes: seq<Lane<V>>, index: nat): seq<(string, V)>
    requires index <= |lanes|
    decreases Pending(lanes)
  {
    TakeUsesOne(lanes, index);
    var t := Take(lanes, index);
    if t.out.None? then [] else [t.out.value] + Drained(t.lanes, t.index)
  }

  /** One value of every lane that still has one, in lane order. */
  function Heads<V>(lanes: seq<Lane<V>>): seq<(string, V)> {
    if lanes == [] then []
    else (if lanes[0].rest == [] then [] else [(lanes[0].key, lanes[0].rest[0])]) + Heads(lanes[1..])
  }

  /** The lanes after that, the exhausted ones gone. */
  function Tails<V>(lanes: seq<Lane<V>>): seq<Lane<V>> {
    if lanes == [] then []
    else (if lanes[0].rest == [] then [] else [lanes[0].(rest := lanes[0].rest[1..])]) + Tails(lanes[1..])
  }

  lemma {:induction false} TailsPending<V>(lanes: seq<Lane<V>>)
    ensures Pending(lanes) == Pending(Tails(lanes)) + |Heads(lanes)|
    ensures Heads(lanes) == [] <==> Pending(lanes) == 0
  {
    if lanes != [] {
      TailsPending(lanes[1..]);
      if lanes[0].rest != [] {
        assert ([lanes[0].(rest := lanes[0].rest[1..])] + Tails(lanes[1..]))[1..] == Tails(lanes[1..]);
      } else {
        assert Tails(lanes) == Tails(lanes[1..]) && Heads(lanes) == Heads(lanes[1..]);
      }
    }
  }

  /**
   Round after round: in each, every lane that still has a value delivers one, in lane order.
   */
  function Rounds<V>(lanes: seq<Lane<V>>): seq<(string, V)>
    decreases Pending(lanes)
  {
    TailsPending(lanes);
    if Heads(lanes) == [] then [] else Heads(lanes) + Rounds(Tails(lanes))
  }

  /** A turn past the last lane is a turn at the first. */
  lemma WrapsAround<V>(lanes: seq<Lane<V>>)
    ensures Drained(lanes, |lanes|) == Drained(lanes, 0)
  {
    assert Take(lanes, |lanes|) == Take(lanes, 0);
  }

  lemma {:induction false} NoHeadsNoTails<V>(lanes: seq<Lane<V>>)
    requires Heads(lanes) == []
    ensures Tails(lanes) == []
  {
    if lanes != [] {
      NoHeadsNoTails(lanes[1..]);
    }
  }

  lemma RestFrom<V>(lanes: seq<Lane<V>>, i: nat)
    requires i < |lanes|
    ensures Heads(lanes[i..]) == (if lanes[i].rest == [] then [] else [(lanes[i].key, lanes[i].rest[0])]) + Heads(lanes[i + 1..])
    ensures Tails(lanes[i..])
            == (if lanes[i].rest == [] then [] else [lanes[i].(rest := lanes[i].rest[1..])]) + Tails(lanes[i + 1..])
  {
    assert lanes[i..][0] == lanes[i] && lanes[i..][1..] == lanes[i + 1..];
  }

  /** An exhausted lane in turn is as if it were not there. */
  lemma PassesOver<V>(lanes: seq<Lane<V>>, index: nat) returns (shorter: seq<Lane<V>>)
    requires index < |lanes| && lanes[index].rest == []
    ensures |shorter| == |lanes| - 1 && Pending(shorter) == Pending(lanes)
    ensures Drained(lanes, index) == Drained(shorter, index)
    ensures Heads(lanes[index..]) == Heads(shorter[index..])
    ensures lanes[..index] + Tails(lanes[index..]) == shorter[..index] + Tails(shorter[index..])
  {
    shorter := lanes[..index] + lanes[index + 1..];
    PendingSplit(lanes, index);
    assert Take(lanes, index) == Take(shorter, index);
    RestFrom(lanes, index);
    assert shorter[index..] == lanes[index + 1..] && shorter[..index] == lanes[..index];
  }

  function Shorten<V>(lanes: seq<Lane<V>>, i: nat): seq<Lane<V>>
    requires i < |lanes| && lanes[i].rest != []
  {
    lanes[i := lanes[i].(rest := lanes[i].rest[1..])]
  }

  lemma DrainsOne<V>(lanes: seq<Lane<V>>, index: nat)
    requires index < |lanes| && lanes[index].rest != []
    ensures Drained(lanes, index) == [(lanes[index].key, lanes[index].rest[0])] + Drained(Shorten(lanes, index), index + 1)
  {
    hide Take;
    TakesThisLane(lanes, index);
    WrapsAround(Shorten(lanes, index));
    assert Drained(lanes, index) == [Take(lanes, index).out.value] + Drained(Take(lanes, index).lanes, Take(lanes, index).index);
  }

  lemma TakesThisLane<V>(lanes: seq<Lane<V>>, index: nat)
    requires index < |lanes| && lanes[index].rest != []
    ensures Take(lanes, index) == Turn(Some((lanes[index].key, lanes[index].rest[0])), Shorten(lanes, index),
                                       if index + 1 == |lanes| then 0 else index + 1)
  {
    NextTurn(index, |lanes|);
  }

  lemma NextTurn(index: nat, n: nat)
    requires index < n
    ensures (index + 1) % n == if index + 1 == n then 0 else index + 1
  {
  }

  /** A lane with a value left delivers it. */
  lemma DeliversOne<V>(lanes: seq<Lane<V>>, index: nat) returns (after: seq<Lane<V>>)
    requires index < |lanes| && lanes[index].rest != []
    ensures |after| == |lanes| && Pending(after) == Pending(lanes) - 1
    ensures var out := (lanes[index].key, lanes[index].rest[0]);
            Drained(lanes, index) == [out] + Drained(after, index + 1)
            && Heads(lanes[index..]) == [out] + Heads(after[index + 1..])
    ensures lanes[..index] + Tails(lanes[index..]) == after[..index + 1] + Tails(after[index + 1..])
  {
    hide Tails, Heads, Drained, Pending;
    var shorter := lanes[index].(rest := lanes[index].rest[1..]);
    after := Shorten(lanes, index);
    PendingSplit(lanes, index);
    DrainsOne(lanes, index);
    RestFrom(lanes, index);
    assert after[index + 1..] == lanes[index + 1..] && after[..index + 1] == lanes[..index] + [shorter];
  }

  /** A new round. */
  lemma Wraps<V>(lanes: seq<Lane<V>>)
    requires lanes != [] && Drained(lanes, 0) == Heads(lanes) + Rounds(Tails(lanes))
    ensures Drained(lanes, |lanes|) == Heads([]) + Rounds(lanes)
  {
    WrapsAround(lanes);
    if Heads(lanes) == [] {
      NoHeadsNoTails(lanes);
    }
  }

  /** From the middle of a round: the lanes from index on finish it, then whole rounds follow. */
  lemma {:induction false} DrainedIsRest<V>(lanes: seq<Lane<V>>, index: nat)
    requires index <= |lanes|
    ensures Drained(lanes, index) == Heads(lanes[index..]) + Rounds(lanes[..index] + Tails(lanes[index..]))
    decreases Pending(lanes), |lanes|, if index == |lanes| then |lanes| + 1 else |lanes| - index
  {
    hide Drained, Rounds;
    if lanes == [] {
      NothingDrained<V>();
      assert lanes[..index] + Tails(lanes[index..]) == [];
    } else if index == |lanes| {
      DrainedIsRest(lanes, 0);
      assert lanes[0..] == lanes && lanes[..0] + Tails(lanes) == Tails(lanes);
      Wraps(lanes);
      assert lanes[..index] + Tails(lanes[index..]) == lanes;
    } else if lanes[index].rest == [] {
      var shorter := PassesOver(lanes, index);
      DrainedIsRest(shorter, index);
    } else {
      var after := DeliversOne(lanes, index);
      DrainedIsRest(after, index + 1);
    }
  }

  lemma NothingDrained<V>()
    ensures Drained<V>([], 0) == [] && Rounds<V>([]) == []
  {
  }

  /** Draining from the start delivers round after round. */
  lemma DrainedIsRounds<V>(lanes: seq<Lane<V>>)
    ensures Drained(lanes, 0) == Rounds(lanes)
  {
    DrainedIsRest(lanes, 0);
    assert lanes[0..] == lanes && lanes[..0] + Tails(lanes) == Tails(lanes);
    if Heads(lanes) == [] {
      NoHeadsNoTails(lanes);
    }
  }

  /** Pull a parallel stream to its end. */
  method DrainParallel<V>(stream: ParallelStream<V>) returns (out: seq<(string, V)>)
    requires stream.Valid() && stream.index == 0
    modifies stream, StreamsOf(stream.items)
    ensures out == Rounds(old(stream.lanes))
  {
    out := [];
    DrainedIsRounds(stream.lanes);
    while true
      invariant stream.Valid() && StreamsOf(stream.items) <= old(StreamsOf(stream.items))
      invariant out + Drained(stream.lanes, stream.index) == Drained(old(stream.lanes), 0)
      decreases Pending(stream.lanes)
    {
      TakeUsesOne(stream.lanes, stream.index);
      var value := stream.Next();
      if value.None? {
        return;
      }
      out := out + [value.value];
    }
  }

  // ----- what the rounds say about one key -----

  function ValuesOf<V>(key: string, out: seq<(string, V)>): seq<V> {
    if out == [] then []
    else (if out[0].0 == key then [out[0].1] else []) + ValuesOf(key, out[1..])
  }

  ghost predicate DistinctKeys<V>(lanes: seq<Lane<V>>) {
    forall i, j :: 0 <= i < j < |lanes| ==> lanes[i].key != lanes[j].key
  }

  function LaneOf<V>(key: string, lanes: seq<Lane<V>>): seq<V> {
    if lanes == [] then [] else if lanes[0].key == key then lanes[0].rest else LaneOf(key, lanes[1..])
  }

  lemma {:induction false} ValuesAppend<V>(key: string, a: seq<(string, V)>, b: seq<(string, V)>)
    ensures ValuesOf(key, a + b) == ValuesOf(key, a) + ValuesOf(key, b)
  {
    if a == [] {
      assert a + b == b;
    } else {
      var head := if a[0].0 == key then [a[0].1] else [];
      assert (a + b)[1..] == a[1..] + b;
      assert ValuesOf(key, a + b) == head + ValuesOf(key, a[1..] + b);
      assert ValuesOf(key, a) == head + ValuesOf(key, a[1..]);
      hide ValuesOf;
      ValuesAppend(key, a[1..], b);
      Associative(head, ValuesOf(key, a[1..]), ValuesOf(key, b));
    }
  }

  lemma FirstLane<V>(key: string, lanes: seq<Lane<V>>)
    requires lanes != []
    ensures ValuesOf(key, Heads(lanes))
            == (if lanes[0].key == key && lanes[0].rest != [] then [lanes[0].rest[0]] else []) + ValuesOf(key, Heads(lanes[1..]))
    ensures lanes[0].rest == [] ==> Tails(lanes) == Tails(lanes[1..])
    ensures lanes[0].rest != [] ==>
              |Tails(lanes)| == |Tails(lanes[1..])| + 1 && Tails(lanes)[1..] == Tails(lanes[1..])
              && Tails(lanes)[0] == lanes[0].(rest := lanes[0].rest[1..])
  {
    if lanes[0].rest != [] {
      assert Heads(lanes)[1..] == Heads(lanes[1..]);
    } else {
      assert Heads(lanes) == Heads(lanes[1..]);
    }
  }

  predicate Absent<V>(key: string, lanes: seq<Lane<V>>) {
    forall i :: 0 <= i < |lanes| ==> lanes[i].key != key
  }

  lemma {:induction false} AbsentKey<V>(key: string, lanes: seq<Lane<V>>)
    requires Absent(key, lanes)
    ensures ValuesOf(key, Heads(lanes)) == [] && LaneOf(key, Tails(lanes)) == [] && LaneOf(key, lanes) == []
    ensures Absent(key, Tails(lanes))
  {
    if lanes != [] {
      AbsentKey(key, lanes[1..]);
      FirstLane(key, lanes);
    }
  }

  /** A round takes exactly the first value of each lane. */
  lemma {:induction false} RoundOfKey<V>(key: string, lanes: seq<Lane<V>>)
    requires DistinctKeys(lanes)
    ensures LaneOf(key, lanes) == ValuesOf(key, Heads(lanes)) + LaneOf(key, Tails(lanes))
    ensures |ValuesOf(key, Heads(lanes))| == if LaneOf(key, lanes) == [] then 0 else 1
  {
    if lanes != [] {
      var back := lanes[1..];
      FirstLane(key, lanes);
      if lanes[0].key == key {
        assert Absent(key, back);
        AbsentKey(key, back);
      } else {
        RoundOfKey(key, back);
      }
    }
  }

  lemma {:induction false} TailsKeepDistinct<V>(lanes: seq<Lane<V>>)
    requires DistinctKeys(lanes)
    ensures DistinctKeys(Tails(lanes))
  {
    if lanes != [] {
      var key := lanes[0].key;
      assert Absent(key, lanes[1..]);
      AbsentKey(key, lanes[1..]);
      TailsKeepDistinct(lanes[1..]);
      FirstLane(key, lanes);
      if lanes[0].rest != [] {
        assert forall i :: 1 <= i < |Tails(lanes)| ==> Tails(lanes)[i] == Tails(lanes[1..])[i - 1];
      }
    }
  }

  /** Each key's values come out once each and in order. */
  lemma {:induction false} EveryValueOnceInOrder<V>(key: string, lanes: seq<Lane<V>>)
    requires DistinctKeys(lanes)
    ensures ValuesOf(key, Rounds(lanes)) == LaneOf(key, lanes)
    decreases Pending(lanes)
  {
    RoundOfKey(key, lanes);
    TailsKeepDistinct(lanes);
    TailsPending(lanes);
    if Heads(lanes) == [] {
      NoHeadsNoTails(lanes);
    } else {
      EveryValueOnceInOrder(key, Tails(lanes));
      ValuesAppend(key, Heads(lanes), Rounds(Tails(lanes)));
    }
  }

  // ----- what the rounds say about two keys -----

  lemma {:induction false} HeadsAppend<V>(a: seq<Lane<V>>, b: seq<Lane<V>>)
    ensures Heads(a + b) == Heads(a) + Heads(b)
  {
    if a == [] {
      assert a + b == b;
    } else {
      var head := if a[0].rest == [] then [] else [(a[0].key, a[0].rest[0])];
      assert (a + b)[1..] == a[1..] + b && (a + b)[0] == a[0];
      assert Heads(a + b) == head + Heads(a[1..] + b) && Heads(a) == head + Heads(a[1..]);
      hide Heads;
      HeadsAppend(a[1..], b);
      Associative(head, Heads(a[1..]), Heads(b));
    }
  }

  lemma {:induction false} TailsAppend<V>(a: seq<Lane<V>>, b: seq<Lane<V>>)
    ensures Tails(a + b) == Tails(a) + Tails(b)
  {
    if a == [] {
      assert a + b == b;
    } else {
      var tail := if a[0].rest == [] then [] else [a[0].(rest := a[0].rest[1..])];
      assert (a + b)[1..] == a[1..] + b && (a + b)[0] == a[0];
      assert Tails(a + b) == tail + Tails(a[1..] + b) && Tails(a) == tail + Tails(a[1..]);
      hide Tails;
      TailsAppend(a[1..], b);
      Associative(tail, Tails(a[1..]), Tails(b));
    }
  }

  /** A round around one lane. */
  lemma RoundOfParts<V>(before: seq<Lane<V>>, lane: Lane<V>, after: seq<Lane<V>>)
    ensures Heads(before + [lane] + after)
            == Heads(before) + (if lane.rest == [] then [] else [(lane.key, lane.rest[0])]) + Heads(after)
    ensures Tails(before + [lane] + after)
            == Tails(before) + (if lane.rest == [] then [] else [lane.(rest := lane.rest[1..])]) + Tails(after)
  {
    var none: seq<Lane<V>> := [];
    assert [lane][1..] == none && Heads(none) == [] && Tails(none) == [];
    assert Heads([lane]) == if lane.rest == [] then [] else [(lane.key, lane.rest[0])];
    assert Tails([lane]) == if lane.rest == [] then [] else [lane.(rest := lane.rest[1..])];
    hide Heads, Tails;
    HeadsAppend(before + [lane], after);
    HeadsAppend(before, [lane]);
    TailsAppend(before + [lane], after);
    TailsAppend(before, [lane]);
  }

  lemma {:induction false} LaneAppend<V>(key: string, a: seq<Lane<V>>, b: seq<Lane<V>>)
    ensures Absent(key, a) ==> LaneOf(key, a + b) == LaneOf(key, b)
    ensures Absent(key, b) ==> LaneOf(key, a + b) == LaneOf(key, a)
  {
    if a == [] {
      assert a + b == b;
      if Absent(key, b) {
        AbsentKey(key, b);
      }
    } else {
      assert (a + b)[1..] == a[1..] + b && (a + b)[0] == a[0];
      LaneAppend(key, a[1..], b);
    }
  }

  lemma {:induction false} NoValues<V>(key: string, out: seq<(string, V)>)
    ensures ValuesOf(key, out) == [] <==> forall m :: 0 <= m < |out| ==> out[m].0 != key
  {
    if out != [] {
      NoValues(key, out[1..]);
      if ValuesOf(key, out) == [] {
        forall m | 0 <= m < |out| ensures out[m].0 != key {
          assert m > 0 ==> out[1..][m - 1] == out[m];
        }
      }
    }
  }

  /** The lane of a key that delivers in this round, and the lanes before and after it. */
  lemma RoundAround<V>(key: string, lanes: seq<Lane<V>>, i: nat)
    returns (before: seq<Lane<V>>, lane: Lane<V>, after: seq<Lane<V>>)
    requires DistinctKeys(lanes) && i < |Heads(lanes)| && Heads(lanes)[i].0 == key
    ensures lanes == before + [lane] + after && lane.key == key && lane.rest != []
    ensures Absent(key, before) && Absent(key, after)
    ensures Heads(lanes)[..i] == Heads(before) && Heads(lanes)[i + 1..] == Heads(after)
    ensures Tails(lanes) == Tails(before) + [lane.(rest := lane.rest[1..])] + Tails(after)
  {
    hide Heads, Tails, ValuesOf, LaneOf;
    NoValues(key, Heads(lanes));
    if Absent(key, lanes) {
      AbsentKey(key, lanes);
    }
    var p :| 0 <= p < |lanes| && lanes[p].key == key;
    before, lane, after := lanes[..p], lanes[p], lanes[p + 1..];
    assert lanes == before + [lane] + after;
    RoundOfParts(before, lane, after);
    NoHeads(key, before);
    NoHeads(key, after);
    InMiddle(key, Heads(before), if lane.rest == [] then [] else [(lane.key, lane.rest[0])], Heads(after), i);
  }

  lemma NoHeads<V>(key: string, lanes: seq<Lane<V>>)
    requires Absent(key, lanes)
    ensures Absent(key, Tails(lanes))
    ensures forall m :: 0 <= m < |Heads(lanes)| ==> Heads(lanes)[m].0 != key
  {
    AbsentKey(key, lanes);
    NoValues(key, Heads(lanes));
  }

  /** A key that is in neither end part sits in the middle one. */
  lemma InMiddle<V>(key: string, a: seq<(string, V)>, h: seq<(string, V)>, b: seq<(string, V)>, i: nat)
    requires |h| <= 1 && i < |a + h + b| && (a + h + b)[i].0 == key
    requires forall m :: 0 <= m < |a| ==> a[m].0 != key
    requires forall m :: 0 <= m < |b| ==> b[m].0 != key
    ensures i == |a| && h != [] && (a + h + b)[..i] == a && (a + h + b)[i + 1..] == b
  {
    var all, n := a + h + b, |a| + |h|;
    assert forall m :: 0 <= m < |a| ==> all[m] == a[m];
    assert forall m: nat :: n <= m < |all| ==> all[m] == b[m - n];
    assert |a| <= i < n;
  }

  /** The middle of two neighbouring rounds: from after a key's turn to its next turn. */
  lemma BetweenRounds<V>(key: string, other: string, lanes: seq<Lane<V>>, i: nat, j: nat)
    requires DistinctKeys(lanes) && key != other
    requires i < |Heads(lanes)| && Heads(lanes)[i].0 == key
    requires j < |Heads(Tails(lanes))| && Heads(Tails(lanes))[j].0 == key
    ensures var between := Heads(lanes)[i + 1..] + Heads(Tails(lanes))[..j];
            |ValuesOf(other, between)|
            == if ValuesOf(other, Heads(lanes)[i + 1..]) == [] && LaneOf(other, Tails(lanes)) == [] then 0 else 1
  {
    var before, lane, after := RoundAround(key, lanes, i);
    var moved := lane.(rest := lane.rest[1..]);
    TailsKeepDistinct(lanes);
    TurnAt(key, Tails(before), moved, Tails(after), j, before, after);
    ValuesAppend(other, Heads(after), Heads(Tails(before)));
    LaneAppend(other, Tails(before) + [moved], Tails(after));
    LaneAppend(other, Tails(before), [moved]);
    PartsDistinct(before, lane, after);
    TailsKeepDistinct(before);
    hide Heads, Tails, ValuesOf, LaneOf;
    if Absent(other, before) {
      AbsentKey(other, before);
      AbsentKey(other, Tails(before));
      RoundOfKey(other, after);
      assert Absent(other, Tails(before) + [moved]);
    } else {
      assert Absent(other, after);
      AbsentKey(other, after);
      RoundOfKey(other, Tails(before));
    }
  }

  lemma PartsDistinct<V>(before: seq<Lane<V>>, lane: Lane<V>, after: seq<Lane<V>>)
    requires DistinctKeys(before + [lane] + after)
    ensures DistinctKeys(before) && DistinctKeys(after)
    ensures forall key :: Absent(key, before) || Absent(key, after)
  {
    var lanes := before + [lane] + after;
    forall i, j | 0 <= i < j < |before| ensures before[i].key != before[j].key {
      assert lanes[i].key != lanes[j].key;
    }
    forall i, j | 0 <= i < j < |after| ensures after[i].key != after[j].key {
      assert lanes[|before| + 1 + i].key != lanes[|before| + 1 + j].key;
    }
    forall i, j | 0 <= i < |before| && 0 <= j < |after| ensures before[i].key != after[j].key {
      assert lanes[i].key != lanes[|before| + 1 + j].key;
    }
  }

  /** In the next round the key's turn comes after those of the lanes that were before it. */
  lemma TurnAt<V>(key: string, a: seq<Lane<V>>, moved: Lane<V>, b: seq<Lane<V>>, j: nat, before: seq<Lane<V>>, after: seq<Lane<V>>)
    requires a == Tails(before) && b == Tails(after) && Absent(key, before) && Absent(key, after)
    requires j < |Heads(a + [moved] + b)| && Heads(a + [moved] + b)[j].0 == key
    ensures Heads(a + [moved] + b)[..j] == Heads(a)
  {
    hide Heads, Tails;
    RoundOfParts(a, moved, b);
    NoHeads(key, before);
    NoHeads(key, after);
    NoHeads(key, a);
    NoHeads(key, b);
    InMiddle(key, Heads(a), if moved.rest == [] then [] else [(moved.key, moved.rest[0])], Heads(b), j);
  }

  lemma RoundsStep<V>(lanes: seq<Lane<V>>)
    ensures Rounds(lanes) == Heads(lanes) + Rounds(Tails(lanes))
    ensures Heads(lanes) != [] ==> Pending(Tails(lanes)) < Pending(lanes)
  {
    TailsPending(lanes);
    if Heads(lanes) == [] {
      NoHeadsNoTails(lanes);
      assert Heads(Tails(lanes)) == [];
    }
  }

  /** Slices of a + b. */
  lemma SliceOfSum<T>(a: seq<T>, b: seq<T>, i: nat, j: nat)
    requires i < j < |a + b|
    ensures i < |a| ==> (a + b)[i + 1..] == a[i + 1..] + b
    ensures i < |a| <= j ==> (a + b)[i + 1..j] == a[i + 1..] + b[..j - |a|] && (a + b)[j] == b[j - |a|]
    ensures |a| <= i ==> (a + b)[i + 1..] == b[i - |a| + 1..] && (a + b)[i + 1..j] == b[i - |a| + 1..j - |a|]
  {
  }

  /**
   Between two consecutive values of one key every other key delivers exactly one value, unless it has none left.
   */
  lemma {:induction false} OthersOnceBetween<V>(key: string, other: string, lanes: seq<Lane<V>>, i: nat, j: nat)
    requires DistinctKeys(lanes) && key != other
    requires i < j < |Rounds(lanes)| && Rounds(lanes)[i].0 == key == Rounds(lanes)[j].0
    requires forall m :: i < m < j ==> Rounds(lanes)[m].0 != key
    ensures |ValuesOf(other, Rounds(lanes)[i + 1..j])| == if ValuesOf(other, Rounds(lanes)[i + 1..]) == [] then 0 else 1
    decreases Pending(lanes), |Rounds(lanes)|
  {
    hide Heads, Tails, ValuesOf, LaneOf, Rounds, Pending, DistinctKeys;
    var out, heads, rest := Rounds(lanes), Heads(lanes), Rounds(Tails(lanes));
    var n := |heads|;
    RoundsStep(lanes);
    TailsKeepDistinct(lanes);
    SliceOfSum(heads, rest, i, j);
    if i < n {
      NextTurnOfKey(key, lanes, i, j);
      BetweenRounds(key, other, lanes, i, j - n);
      ValuesAppend(other, heads[i + 1..], rest);
      EveryValueOnceInOrder(other, Tails(lanes));
    } else if n == 0 {
      NoRoundsLeft(lanes);
    } else {
      forall m: nat | i - n < m < j - n ensures rest[m].0 != key {
        assert out[m + n] == rest[m];
      }
      assert rest[i - n] == out[i] && rest[j - n] == out[j];
      OthersOnceBetween(key, other, Tails(lanes), i - n, j - n);
    }
  }

  lemma NoRoundsLeft<V>(lanes: seq<Lane<V>>)
    ensures Heads(lanes) == [] ==> Rounds(lanes) == []
  {
  }

  /** The next value of a key that delivers in this round comes in the next round. */
  lemma NextTurnOfKey<V>(key: string, lanes: seq<Lane<V>>, i: nat, j: nat)
    requires DistinctKeys(lanes) && i < |Heads(lanes)| && i < j < |Rounds(lanes)|
    requires Rounds(lanes)[j].0 == key == Heads(lanes)[i].0
    requires forall m :: i < m < j ==> Rounds(lanes)[m].0 != key
    ensures var n := |Heads(lanes)|;
            n <= j < n + |Heads(Tails(lanes))| && Heads(Tails(lanes))[j - n].0 == key
            && Rounds(Tails(lanes))[..j - n] == Heads(Tails(lanes))[..j - n]
  {
    hide Heads, Tails, ValuesOf, LaneOf, Rounds, Pending, DistinctKeys;
    var out, heads, rest, next := Rounds(lanes), Heads(lanes), Rounds(Tails(lanes)), Heads(Tails(lanes));
    var n := |heads|;
    RoundsStep(lanes);
    RoundsStep(Tails(lanes));
    var before, lane, after := RoundAround(key, lanes, i);
    NoHeads(key, after);
    assert forall m: nat :: i < m < n ==> heads[m] == heads[i + 1..][m - i - 1];
    assert n <= j && rest[j - n] == out[j];
    NoValues(key, rest);
    TailsKeepDistinct(lanes);
    EveryValueOnceInOrder(key, Tails(lanes));
    RoundOfKey(key, Tails(lanes));
    assert ValuesOf(key, rest) == LaneOf(key, Tails(lanes)) != [];
    NoValues(key, next);
    var m :| 0 <= m < |next| && next[m].0 == key;
    assert rest[m] == next[m] && out[n + m] == rest[m];
    assert j <= n + m;
  }
}
