/** Pull streams: a slice, the staged stream of a sequence, and the round-robin stream of a parallel map. */
module Streams {
  import opened Common

  class SliceStream<V> {
    const values: seq<V>
    var index: nat

    constructor (values: seq<V>)
      ensures Valid() && Rest() == values
    {
      this.values := values;
      index := 0;
    }

    predicate Valid()
      reads this
    {
      index <= |values|
    }

    /** What has not been pulled yet. */
    function Rest(): seq<V>
      reads this
      requires Valid()
    {
      values[index..]
    }

    method Next() returns (value: Option<V>)
      requires Valid()
      modifies this
      ensures Valid()
      ensures old(Rest()) == [] ==> value == None && Rest() == []
      ensures old(Rest()) != [] ==> value == Some(old(Rest())[0]) && Rest() == old(Rest())[1..]
    {
      if index >= |values| {
        return None;
      }
      value := Some(values[index]);
      index := index + 1;
    }

    /** Nothing is delivered after Close. */
    method Close()
      requires Valid()
      modifies this
      ensures Valid() && Rest() == []
    {
      index := |values|;
    }
  }

  // ----- the staged stream of a sequence -----

  function FlatMap<V>(stage: V -> seq<V>, inputs: seq<V>): seq<V> {
    if inputs == [] then [] else stage(inputs[0]) + FlatMap(stage, inputs[1..])
  }

  /** What the steps make of the inputs, each step applied to every value of the step before. */
  function Pipeline<V>(steps: seq<V -> seq<V>>, inputs: seq<V>): seq<V>
    decreases |steps|
  {
    if steps == [] then inputs else Pipeline(steps[1..], FlatMap(steps[0], inputs))
  }

  /** The head of the chain wraps the first step's stream; every further link flattens one more step. */
  class StagedStream<V> {
    ghost var rest: seq<V>
    ghost var repr: set<object>
    ghost const depth: nat
    const source: SliceStream<V>            // of the head
    const first: StagedStream?<V>           // null in the head
    const stage: V -> seq<V>
    var current: SliceStream?<V>

    ghost predicate Valid()
      reads this, repr
      decreases repr
    {
      && this in repr && source in repr && source.Valid()
      && if first == null then rest == source.Rest()
         else
           && first in repr && first.repr <= repr && this !in first.repr && source !in first.repr && first.depth < depth
           && first.Valid()
           && (current != null ==> current in repr && current !in first.repr && current != source && current.Valid())
           && rest == (if current == null then [] else current.Rest()) + FlatMap(stage, first.rest)
    }

    constructor Head(source: SliceStream<V>)
      requires source.Valid()
      ensures Valid() && rest == source.Rest() && repr == {this, source}
    {
      this.source := source;
      first := null;
      stage := _ => [];
      depth := 0;
      current := null;
      rest := source.Rest();
      repr := {this, source};
    }

    constructor Link(first: StagedStream<V>, stage: V -> seq<V>)
      requires first.Valid()
      ensures Valid() && rest == FlatMap(stage, first.rest) && fresh(repr - first.repr)
    {
      var unused := new SliceStream([]);
      this.source := unused;
      this.first := first;
      this.stage := stage;
      depth := first.depth + 1;
      current := null;
      rest := FlatMap(stage, first.rest);
      repr := {this, unused} + first.repr;
    }

    /** A value from the current inner stream; an exhausted one is closed and dropped. */
    method PullCurrent() returns (value: Option<V>)
      requires Valid() && first != null && current != null
      modifies this, current
      ensures Valid() && repr == old(repr) && first.rest == old(first.rest)
      ensures value.Some? ==> old(rest) != [] && value.value == old(rest)[0] && rest == old(rest)[1..]
      ensures value.None? ==> current == null && rest == old(rest)
    {
      value := current.Next();
      if value.Some? {
        rest := rest[1..];
      } else {
        current.Close();
        current := null;
      }
    }

    /** Pull the next value of the stage before and open the stream this stage makes of it. */
    method OpenNext() returns (more: bool)
      requires Valid() && first != null && current == null
      modifies repr
      ensures Valid() && fresh(repr - old(repr)) && rest == old(rest)
      ensures !more ==> rest == []
      ensures more ==> current != null && |first.rest| < |old(first.rest)|
      decreases depth, 0
    {
      var mid := first.Next();
      repr := repr + first.repr;
      if mid.None? {
        return false;
      }
      var inner := new SliceStream(stage(mid.value));
      current := inner;
      repr := repr + {inner};
      more := true;
    }

    /** Drain the current inner stream, then pull the next value from the stage before and open a new one. */
    method Next() returns (value: Option<V>)
      requires Valid()
      modifies repr
      ensures Valid() && fresh(repr - old(repr))
      ensures old(rest) == [] ==> value == None && rest == []
      ensures old(rest) != [] ==> value == Some(old(rest)[0]) && rest == old(rest)[1..]
      decreases depth, 1
    {
      if first == null {
        value := source.Next();
        rest := source.Rest();
        return;
      }
      while true
        invariant Valid() && fresh(repr - old(repr)) && rest == old(rest)
        decreases |first.rest|, if current == null then 0 else 1
      {
        if current != null {
          value := PullCurrent();
          if value.Some? {
            return;
          }
        }
        var more := OpenNext();
        if !more {
          return None;
        }
      }
    }
  }

  /** Pull until the stream is exhausted. */
  method Drain<V>(stream: StagedStream<V>) returns (out: seq<V>)
    requires stream.Valid()
    modifies stream.repr
    ensures out == old(stream.rest) && stream.Valid() && stream.rest == []
  {
    hide StagedStream.Valid;
    out := [];
    while true
      invariant stream.Valid() && fresh(stream.repr - old(stream.repr))
      invariant out + stream.rest == old(stream.rest)
      decreases |stream.rest|
    {
      ghost var rest := stream.rest;
      var value := stream.Next();
      if value.None? {
        return;
      }
      assert rest == [value.value] + stream.rest;
      out := out + [value.value];
    }
  }

  lemma {:induction false} PipelineAppend<V>(a: seq<V -> seq<V>>, b: seq<V -> seq<V>>, inputs: seq<V>)
    ensures Pipeline(a + b, inputs) == Pipeline(b, Pipeline(a, inputs))
    decreases |a|
  {
    if a == [] {
      assert a + b == b;
    } else {
      assert (a + b)[1..] == a[1..] + b;
      PipelineAppend(a[1..], b, FlatMap(a[0], inputs));
    }
  }

  /** SeqN.Stream: the first step's stream on the input, one link per further step; no steps is an error. */
  method StreamSequence<V>(steps: seq<V -> seq<V>>, input: V) returns (stream: StagedStream?<V>)
    ensures steps == [] <==> stream == null
    ensures stream != null ==> stream.Valid() && fresh(stream.repr) && stream.rest == Pipeline(steps, [input])
  {
    if |steps| == 0 {
      return null;
    }
    var source := new SliceStream(steps[0](input));
    var cur := new StagedStream.Head(source);
    assert FlatMap(steps[0], [input]) == steps[0](input);
    assert steps[..1] == [steps[0]] && steps[..1][1..] == [];
    for i := 1 to |steps|
      invariant cur.Valid() && fresh(cur.repr) && cur.rest == Pipeline(steps[..i], [input])
    {
      assert steps[..i + 1] == steps[..i] + [steps[i]] && [steps[i]][1..] == [];
      PipelineAppend(steps[..i], [steps[i]], [input]);
      cur := new StagedStream.Link(cur, steps[i]);
    }
    assert steps[..|steps|] == steps;
    stream := cur;
  }

  /** Draining the stream of a sequence yields the flat map of its steps in order. */
  method StreamAndDrain<V>(steps: seq<V -> seq<V>>, input: V) returns (out: seq<V>)
    requires steps != []
    ensures out == Pipeline(steps, [input])
  {
    var stream := StreamSequence(steps, input);
    out := Drain(stream);
  }

  lemma {:induction false} FlatMapAppend<V>(stage: V -> seq<V>, a: seq<V>, b: seq<V>)
    ensures FlatMap(stage, a + b) == FlatMap(stage, a) + FlatMap(stage, b)
  {
    if a == [] {
      assert a + b == b;
    } else {
      assert (a + b)[1..] == a[1..] + b;
      FlatMapAppend(stage, a[1..], b);
    }
  }

  lemma {:induction false} PipelineDistributes<V>(steps: seq<V -> seq<V>>, a: seq<V>, b: seq<V>)
    ensures Pipeline(steps, a + b) == Pipeline(steps, a) + Pipeline(steps, b)
    decreases |steps|
  {
    if steps != [] {
      FlatMapAppend(steps[0], a, b);
      PipelineDistributes(steps[1..], FlatMap(steps[0], a), FlatMap(steps[0], b));
    }
  }

  lemma {:induction false} PipelineOfNothing<V>(steps: seq<V -> seq<V>>)
    ensures Pipeline(steps, []) == []
    decreases |steps|
  {
    if steps != [] {
      PipelineOfNothing(steps[1..]);
    }
  }

  /** A step that is itself a pipe streams like its steps in its place. */
  lemma {:induction false} NestedStep<V>(inner: seq<V -> seq<V>>, inputs: seq<V>)
    ensures FlatMap(v => Pipeline(inner, [v]), inputs) == Pipeline(inner, inputs)
  {
    if inputs == [] {
      PipelineOfNothing(inner);
    } else {
      NestedStep(inner, inputs[1..]);
      assert inputs == [inputs[0]] + inputs[1..];
      PipelineDistributes(inner, [inputs[0]], inputs[1..]);
    }
  }

  /** Nested pipes stream the same as the flat pipe. */
  lemma NestedPipesAreFlat<V>(left: seq<V -> seq<V>>, right: seq<V -> seq<V>>, input: V)
    ensures Pipeline([v => Pipeline(left, [v]), v => Pipeline(right, [v])], [input]) == Pipeline(left + right, [input])
  {
    var l: V -> seq<V> := v => Pipeline(left, [v]);
    var r: V -> seq<V> := v => Pipeline(right, [v]);
    assert [l, r][1..] == [r] && [r][1..] == [];
    assert Pipeline([r], FlatMap(l, [input])) == Pipeline([r][1..], FlatMap(r, FlatMap(l, [input])));
    assert Pipeline([l, r], [input]) == FlatMap(r, FlatMap(l, [input]));
    NestedStep(left, [input]);
    NestedStep(right, Pipeline(left, [input]));
    PipelineAppend(left, right, [input]);
  }

  /** The values handed from step to step, the input first: each step made the next one. */
  ghost predicate Threaded<V>(steps: seq<V -> Option<V>>, input: V, trace: seq<V>) {
    && 1 <= |trace| <= |steps| + 1 && trace[0] == input
    && forall k: nat :: k + 1 < |trace| ==> steps[k](trace[k]) == Some(trace[k + 1])
  }

  /**
   SeqN.Invoke: thread the value through the steps, stop at the first error, and check the type of the last value.
   trace is what the steps were given.
   */
  method InvokeSequence<V>(steps: seq<V -> Option<V>>, input: V, fits: V -> bool) returns (out: Option<V>, ghost trace: seq<V>)
    ensures Threaded(steps, input, trace)
    ensures out.Some? ==> |trace| == |steps| + 1 && out.value == trace[|steps|] && fits(out.value)
    ensures out.None? ==> if |trace| <= |steps| then steps[|trace| - 1](trace[|trace| - 1]) == None else !fits(trace[|steps|])
    ensures out == match Thread(steps, input) case Some(v) => if fits(v) then Some(v) else None case None => None
  {
    var v := input;
    trace := [v];
    assert steps[0..] == steps;
    for i := 0 to |steps|
      invariant |trace| == i + 1 && v == trace[i] && Threaded(steps, input, trace)
      invariant Thread(steps[i..], v) == Thread(steps, input)
    {
      assert steps[i..][1..] == steps[i + 1..];
      var next := steps[i](v);
      if next.None? {
        return None, trace;
      }
      v := next.value;
      trace := trace + [v];
    }
    if !fits(v) {
      return None, trace;
    }
    out := Some(v);
  }

  function Thread<V>(steps: seq<V -> Option<V>>, input: V): Option<V>
    decreases |steps|
  {
    if steps == [] then Some(input)
    else
      var next := steps[0](input);
      if next.None? then None else Thread(steps[1..], next.value)
  }

  /** For single-value steps the one streamed value is the invoked one. */
  lemma {:induction false} StreamAgreesWithInvoke<V>(streams: seq<V -> seq<V>>, steps: seq<V -> Option<V>>, input: V)
    requires |streams| == |steps|
    requires forall k, v :: 0 <= k < |steps| ==> steps[k](v).Some? && streams[k](v) == [steps[k](v).value]
    ensures Thread(steps, input).Some? && Pipeline(streams, [input]) == [Thread(steps, input).value]
    decreases |steps|
  {
    if steps != [] {
      var next := steps[0](input).value;
      assert FlatMap(streams[0], [input]) == [next];
      forall k, v | 0 <= k < |steps| - 1
        ensures steps[1..][k](v).Some? && streams[1..][k](v) == [steps[1..][k](v).value]
      {
        assert steps[k + 1](v).Some? && streams[k + 1](v) == [steps[k + 1](v).value];
      }
      StreamAgreesWithInvoke(streams[1..], steps[1..], next);
    }
  }
}
