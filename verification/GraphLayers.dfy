/**
 The layers of the drawing: the depth-first search with its two memo maps.  Every node's layer is one
 more than the highest layer among the sources finished before it, and at least 1 when it has any source;
 a source not finished by then lies on a cycle with it.  On an acyclic graph that is the longest path.
 */
module GraphLayers {
  datatype Edge = Edge(source: string, target: string, text: string, conditional: bool)

  /** The sources of the edges into id, in edge order. */
  function Sources(edges: seq<Edge>, id: string): seq<string> {
    if edges == [] then []
    else
      var last := edges[|edges| - 1];
      Sources(edges[..|edges| - 1], id) + if last.target == id then [last.source] else []
  }

  function Get(incoming: map<string, seq<string>>, id: string): seq<string> {
    if id in incoming then incoming[id] else []
  }

  lemma {:induction false} SourcesAreEdges(edges: seq<Edge>, id: string)
    ensures forall u :: u in Sources(edges, id) <==> exists e :: e in edges && e.source == u && e.target == id
  {
    if edges != [] {
      SourcesAreEdges(edges[..|edges| - 1], id);
      assert edges == edges[..|edges| - 1] + [edges[|edges| - 1]];
    }
  }

  method CollectIncoming(edges: seq<Edge>) returns (incoming: map<string, seq<string>>)
    ensures forall id :: Get(incoming, id) == Sources(edges, id)
  {
    incoming := map[];
    for i := 0 to |edges|
      invariant forall id :: Get(incoming, id) == Sources(edges[..i], id)
    {
      assert edges[..i + 1][..i] == edges[..i];
      incoming := incoming[edges[i].target := Get(incoming, edges[i].target) + [edges[i].source]];
    }
    assert edges[..|edges|] == edges;
  }

  // ----- paths -----

  predicate IsPath(edges: seq<Edge>, p: seq<string>) {
    p != [] && forall i: nat :: i + 1 < |p| ==> p[i] in Sources(edges, p[i + 1])
  }

  /** Some path with at least one edge leads from a to b. */
  ghost predicate Reaches(edges: seq<Edge>, a: string, b: string) {
    exists p :: IsPath(edges, p) && |p| >= 2 && p[0] == a && p[|p| - 1] == b
  }

  ghost predicate Acyclic(edges: seq<Edge>) {
    forall id :: !Reaches(edges, id, id)
  }

  /** The longest path ending at id has k edges. */
  ghost predicate Longest(edges: seq<Edge>, id: string, k: nat) {
    && (exists p :: IsPath(edges, p) && p[|p| - 1] == id && |p| == k + 1)
    && (forall p :: IsPath(edges, p) && p[|p| - 1] == id ==> |p| <= k + 1)
  }

  lemma EdgeReaches(edges: seq<Edge>, u: string, v: string)
    requires u in Sources(edges, v)
    ensures Reaches(edges, u, v)
  {
    assert IsPath(edges, [u, v]);
  }

  lemma ReachesThrough(edges: seq<Edge>, u: string, v: string, w: string)
    requires u in Sources(edges, v) && Reaches(edges, v, w)
    ensures Reaches(edges, u, w)
  {
    hide Sources;
    var p :| IsPath(edges, p) && |p| >= 2 && p[0] == v && p[|p| - 1] == w;
    assert IsPath(edges, [u] + p);
  }

  lemma PathGrows(edges: seq<Edge>, p: seq<string>, v: string)
    requires IsPath(edges, p) && p[|p| - 1] in Sources(edges, v)
    ensures IsPath(edges, p + [v])
  {
    hide Sources;
  }

  lemma PathShrinks(edges: seq<Edge>, p: seq<string>)
    requires IsPath(edges, p) && |p| >= 2
    ensures IsPath(edges, p[..|p| - 1]) && p[|p| - 2] in Sources(edges, p[|p| - 1])
  {
    var i: nat := |p| - 2;
    assert p[i] in Sources(edges, p[i + 1]);
  }

  /** nodes holds the sources of its members, so the search does not leave it. */
  predicate Closed(edges: seq<Edge>, nodes: set<string>) {
    forall id :: id in nodes ==> forall u :: u in Sources(edges, id) ==> u in nodes
  }

  lemma SourceWithin(edges: seq<Edge>, nodes: set<string>, id: string, j: nat)
    requires Closed(edges, nodes) && id in nodes && j < |Sources(edges, id)|
    ensures Sources(edges, id)[j] in nodes
  {
    assert Sources(edges, id)[j] in Sources(edges, id);
  }

  // ----- layers from the order in which the search finishes nodes -----

  function Candidate(u: string, layers: map<string, nat>): nat {
    if u in layers then layers[u] + 1 else 1
  }

  function Highest(sources: seq<string>, layers: map<string, nat>): nat {
    if sources == [] then 0
    else
      var rest := Highest(sources[..|sources| - 1], layers);
      var candidate := Candidate(sources[|sources| - 1], layers);
      if candidate > rest then candidate else rest
  }

  function LayersOf(edges: seq<Edge>, order: seq<string>): map<string, nat> {
    if order == [] then map[]
    else
      var before := LayersOf(edges, order[..|order| - 1]);
      var id := order[|order| - 1];
      before[id := Highest(Sources(edges, id), before)]
  }

  /** Every node finished once, and every source finished before it or on a cycle with it. */
  ghost predicate FinishOrder(edges: seq<Edge>, order: seq<string>) {
    forall i: nat :: i < |order| ==> Finished(edges, order[..i], order[i])
  }

  ghost predicate Finished(edges: seq<Edge>, before: seq<string>, id: string) {
    && id !in before
    && forall u :: u in Sources(edges, id) ==> u in before || Reaches(edges, id, u)
  }

  lemma {:induction false} LayersKeys(edges: seq<Edge>, order: seq<string>)
    ensures forall id :: id in LayersOf(edges, order) <==> id in order
  {
    if order != [] {
      LayersKeys(edges, order[..|order| - 1]);
      assert order == order[..|order| - 1] + [order[|order| - 1]];
    }
  }

  lemma {:induction false} HighestIsMaximum(sources: seq<string>, layers: map<string, nat>)
    ensures forall u :: u in sources ==> Candidate(u, layers) <= Highest(sources, layers)
    ensures sources != [] ==> exists u :: u in sources && Candidate(u, layers) == Highest(sources, layers)
  {
    if sources != [] {
      var front, u := sources[..|sources| - 1], sources[|sources| - 1];
      HighestIsMaximum(front, layers);
      assert sources == front + [u];
    }
  }

  lemma {:induction false} HighestStays(sources: seq<string>, a: map<string, nat>, b: map<string, nat>)
    requires forall u :: u in sources ==> Candidate(u, a) == Candidate(u, b)
    ensures Highest(sources, a) == Highest(sources, b)
  {
    if sources != [] {
      HighestStays(sources[..|sources| - 1], a, b);
    }
  }

  lemma HighestStep(sources: seq<string>, j: nat, layers: map<string, nat>)
    requires j <= |sources|
    ensures Highest(sources[..0], layers) == 0
    ensures j < |sources| ==>
              var (rest, candidate) := (Highest(sources[..j], layers), Candidate(sources[j], layers));
              Highest(sources[..j + 1], layers) == if candidate > rest then candidate else rest
  {
    if j < |sources| {
      assert sources[..j + 1][..j] == sources[..j];
    }
  }

  lemma FinishOrderFront(edges: seq<Edge>, order: seq<string>, id: string)
    ensures FinishOrder(edges, order + [id]) <==> FinishOrder(edges, order) && Finished(edges, order, id)
  {
    var longer := order + [id];
    assert forall i: nat :: i < |order| ==> longer[..i] == order[..i] && longer[i] == order[i];
    assert longer[..|order|] == order && longer[|order|] == id;
    if FinishOrder(edges, longer) {
      assert Finished(edges, longer[..|order|], longer[|order|]);
      forall i: nat | i < |order| ensures Finished(edges, order[..i], order[i]) {
        assert Finished(edges, longer[..i], longer[i]);
      }
    }
  }

  /** On an acyclic graph every layer is the length of the longest path that ends at the node. */
  lemma {:induction false} LayersAreLongestPaths(edges: seq<Edge>, order: seq<string>)
    requires Acyclic(edges) && FinishOrder(edges, order)
    ensures forall id :: id in order ==> id in LayersOf(edges, order) && Longest(edges, id, LayersOf(edges, order)[id])
  {
    if order != [] {
      var before, v := order[..|order| - 1], order[|order| - 1];
      assert order == before + [v];
      FinishOrderFront(edges, before, v);
      LayersAreLongestPaths(edges, before);
      LayersKeys(edges, before);
      var layers := LayersOf(edges, before);
      forall u | u in Sources(edges, v) ensures u in before {
        if Reaches(edges, v, u) {
          ReachesThrough(edges, u, v, u);
        }
      }
      OneMoreNode(edges, v, layers);
    }
  }

  lemma OneMoreNode(edges: seq<Edge>, v: string, layers: map<string, nat>)
    requires forall u :: u in Sources(edges, v) ==> u in layers && Longest(edges, u, layers[u])
    ensures Longest(edges, v, Highest(Sources(edges, v), layers))
  {
    hide Sources;
    var sources := Sources(edges, v);
    var k := Highest(sources, layers);
    HighestIsMaximum(sources, layers);
    if sources == [] {
      assert IsPath(edges, [v]);
    } else {
      hide Highest;
      var u :| u in sources && Candidate(u, layers) == k;
      var p :| IsPath(edges, p) && p[|p| - 1] == u && |p| == layers[u] + 1;
      PathGrows(edges, p, v);
      assert (p + [v])[|p|] == v;
    }
    hide Highest;
    forall p | IsPath(edges, p) && p[|p| - 1] == v ensures |p| <= k + 1 {
      NoLongerPath(edges, p, layers, k);
    }
  }

  lemma NoLongerPath(edges: seq<Edge>, p: seq<string>, layers: map<string, nat>, k: nat)
    requires IsPath(edges, p)
    requires forall u :: u in Sources(edges, p[|p| - 1]) ==> u in layers && Longest(edges, u, layers[u]) && layers[u] + 1 <= k
    ensures |p| <= k + 1
  {
    hide Sources;
    if |p| >= 2 {
      PathShrinks(edges, p);
      var front, u := p[..|p| - 1], p[|p| - 2];
      assert Longest(edges, u, layers[u]) && front[|front| - 1] == u;
      hide IsPath;
      assert |front| <= layers[u] + 1;
    }
  }

  /** On every graph an edge goes strictly down unless its target reaches its source, and then the target is still below the top. */
  lemma {:induction false} EdgesGoDown(edges: seq<Edge>, order: seq<string>, e: Edge)
    requires FinishOrder(edges, order) && e in edges && e.target in order
    ensures var layers := LayersOf(edges, order);
            && e.target in layers && layers[e.target] >= 1
            && (!Reaches(edges, e.target, e.source) ==> e.source in layers && layers[e.source] < layers[e.target])
  {
    hide FinishOrder, Reaches, Sources, Highest;
    var before, v := order[..|order| - 1], order[|order| - 1];
    var layers := LayersOf(edges, before);
    assert order == before + [v];
    assert LayersOf(edges, order) == layers[v := Highest(Sources(edges, v), layers)];
    hide LayersOf;
    FinishOrderFront(edges, before, v);
    LayersKeys(edges, before);
    if e.target == v {
      SourcesAreEdges(edges, v);
      HighestIsMaximum(Sources(edges, v), layers);
      assert Candidate(e.source, layers) <= Highest(Sources(edges, v), layers);
    } else {
      EdgesGoDown(edges, before, e);
    }
  }

  // ----- the search itself -----

  class Layering {
    const edges: seq<Edge>
    const incoming: map<string, seq<string>>
    var layers: map<string, nat>
    var visiting: set<string>
    ghost var order: seq<string>

    constructor (edges: seq<Edge>, incoming: map<string, seq<string>>)
      requires forall id :: Get(incoming, id) == Sources(edges, id)
      ensures Valid() && this.edges == edges && order == [] && visiting == {}
    {
      this.edges, this.incoming := edges, incoming;
      layers, visiting, order := map[], {}, [];
    }

    ghost predicate Valid()
      reads this
    {
      && (forall id :: Get(incoming, id) == Sources(edges, id))
      && layers == LayersOf(edges, order) && FinishOrder(edges, order)
      && visiting !! layers.Keys
    }

    method Compute(id: string, ghost nodes: set<string>) returns (layer: nat)
      requires Valid() && visiting <= nodes && Closed(edges, nodes) && id in nodes
      requires forall w :: w in visiting ==> Reaches(edges, id, w)
      modifies this
      ensures Valid() && visiting == old(visiting)
      ensures forall x :: x in old(layers) ==> x in layers && layers[x] == old(layers)[x]
      ensures if id in visiting then layer == 0 && id !in layers else id in layers && layer == layers[id]
      decreases |nodes - visiting|
    {
      hide FinishOrder, LayersOf, Reaches, Sources, Highest, Closed;
      if id in layers {
        return layers[id];
      }
      if id in visiting {
        return 0;
      }
      visiting := visiting + {id};
      SmallerSet(nodes - visiting, nodes - old(visiting), id);
      layer := 0;
      var sources := Get(incoming, id);
      HighestStep(sources, 0, layers);
      for j := 0 to |sources|
        invariant Valid() && visiting == old(visiting) + {id}
        invariant forall x :: x in old(layers) ==> x in layers && layers[x] == old(layers)[x]
        invariant forall k: nat :: k < j ==> sources[k] in layers || sources[k] in visiting
        invariant layer == Highest(sources[..j], layers)
      {
        ghost var before := layers;
        VisitingReachable(sources[j], id);
        SourceWithin(edges, nodes, id, j);
        var below := Compute(sources[j], nodes);
        HighestStays(sources[..j], before, layers);
        HighestStep(sources, j, layers);
        if below + 1 > layer {
          layer := below + 1;
        }
      }
      assert sources[..|sources|] == sources;
      Finish(id, layer);
    }

    /** From a source of id every visited node is reachable. */
    lemma VisitingReachable(u: string, id: string)
      requires u in Sources(edges, id)
      requires forall w :: w in visiting && w != id ==> Reaches(edges, id, w)
      ensures forall w :: w in visiting ==> Reaches(edges, u, w)
    {
      forall w | w in visiting ensures Reaches(edges, u, w) {
        if w == id {
          EdgeReaches(edges, u, id);
        } else {
          ReachesThrough(edges, u, id, w);
        }
      }
    }

    method Finish(id: string, layer: nat)
      requires Valid() && id in visiting
      requires layer == Highest(Sources(edges, id), layers)
      requires forall u :: u in Sources(edges, id) ==> u in layers || u in visiting
      requires forall w :: w in visiting && w != id ==> Reaches(edges, id, w)
      modifies this
      ensures Valid() && visiting == old(visiting) - {id}
      ensures order == old(order) + [id] && layers == old(layers)[id := layer]
    {
      LayersKeys(edges, order);
      forall u | u in Sources(edges, id) ensures u in order || Reaches(edges, id, u) {
        if u == id {
          EdgeReaches(edges, id, id);
        }
      }
      FinishOrderFront(edges, order, id);
      visiting := visiting - {id};
      layers := layers[id := layer];
      order := order + [id];
    }
  }

  lemma SmallerSet(a: set<string>, b: set<string>, x: string)
    requires a <= b && x in b && x !in a
    ensures |a| < |b|
  {
    assert b == a + (b - a) && x in b - a;
    assert |b| == |a| + |b - a|;
  }

  /**
   Layers every node of any graph, cyclic ones included; the order the search finished in explains them, and on
   an acyclic graph they are the lengths of the longest paths.
   */
  method AsciiLayers(nodes: seq<string>, edges: seq<Edge>) returns (layers: map<string, nat>, ghost order: seq<string>)
    ensures layers == LayersOf(edges, order) && FinishOrder(edges, order)
    ensures forall id :: id in nodes ==> id in layers
    ensures Acyclic(edges) ==> forall id :: id in layers ==> Longest(edges, id, layers[id])
    ensures forall e :: e in edges && e.target in layers && !Reaches(edges, e.target, e.source) ==>
              e.source in layers && layers[e.source] < layers[e.target]
  {
    hide FinishOrder, LayersOf, Reaches, Sources, Longest, Acyclic;
    var incoming := CollectIncoming(edges);
    var search := new Layering(edges, incoming);
    ghost var all := (set i: nat | i < |nodes| :: nodes[i]) + (set i: nat | i < |edges| :: edges[i].source);
    forall id, u | id in all && u in Sources(edges, id) ensures u in all {
      SourcesAreEdges(edges, id);
    }
    for i := 0 to |nodes|
      invariant search.Valid() && search.visiting == {} && search.edges == edges
      invariant forall k: nat :: k < i ==> nodes[k] in search.layers
    {
      assert nodes[i] in all;
      var _ := search.Compute(nodes[i], all);
    }
    layers, order := search.layers, search.order;
    LayersKeys(edges, order);
    if Acyclic(edges) {
      LayersAreLongestPaths(edges, order);
    }
    forall e | e in edges && e.target in layers && !Reaches(edges, e.target, e.source)
      ensures e.source in layers && layers[e.source] < layers[e.target]
    {
      EdgesGoDown(edges, order, e);
    }
  }
}
