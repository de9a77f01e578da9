/**
 Boxes and edge routes of the drawing.  Layers are stacked with a gap below each, every edge that crosses a gap
 has its own channel row there, and edges that skip a layer detour through their own column right of every box.
 */
module GraphRouting {
  import opened GraphLayers

  const BOX_HEIGHT := 3
  const BOX_GAP := 2

  datatype Node = Node(id: string, name: string)

  datatype Box = Box(x: int, y: int, width: nat)
  {
    function Center(): int { x + width / 2 }
    predicate Holds(c: (int, int)) { x <= c.0 < x + width && y <= c.1 < y + BOX_HEIGHT }
  }

  /** The gap below a layer, as one edge crosses it. */
  datatype Channel = Channel(edge: Edge, gap: nat)

  datatype Line = Line(x0: int, y0: int, x1: int, y1: int)
  {
    predicate Straight() { x0 == x1 || y0 == y1 }
    predicate Through(c: (int, int)) {
      && (x0 <= c.0 <= x1 || x1 <= c.0 <= x0)
      && (y0 <= c.1 <= y1 || y1 <= c.1 <= y0)
    }
  }

  /** crossing[k] are the edges with a channel row in the gap below layer k, top[k] is the first row of layer k. */
  datatype Layout = Layout(crossing: seq<seq<Edge>>, top: seq<int>, boxes: map<string, Box>, maxRight: int,
                           rows: map<Channel, int>, columns: map<Edge, int>)

  /** Every node and both ends of every edge have a layer, at most maxLayer. */
  predicate Layered(nodes: seq<Node>, edges: seq<Edge>, layers: map<string, nat>, maxLayer: nat) {
    && (forall n :: n in nodes ==> n.id in layers && layers[n.id] <= maxLayer)
    && (forall e :: e in edges ==> HasLayers(e, layers, maxLayer))
  }

  predicate HasLayers(e: Edge, layers: map<string, nat>, maxLayer: nat) {
    && e.source in layers && layers[e.source] <= maxLayer
    && e.target in layers && layers[e.target] <= maxLayer
  }

  // ----- channel rows -----

  /** The gap below layer k is crossed: by a downward edge between its ends, by any other edge below its source or, at the bottom, above it. */
  predicate Crosses(e: Edge, layers: map<string, nat>, maxLayer: nat, k: nat)
    requires HasLayers(e, layers, maxLayer)
  {
    var from, to := layers[e.source], layers[e.target];
    if to > from then from <= k < to else k == if from >= maxLayer then maxLayer - 1 else from
  }

  function CrossingAt(edges: seq<Edge>, layers: map<string, nat>, maxLayer: nat, k: nat): seq<Edge>
    requires forall e :: e in edges ==> HasLayers(e, layers, maxLayer)
  {
    if edges == [] then []
    else
      var e := edges[|edges| - 1];
      CrossingAt(edges[..|edges| - 1], layers, maxLayer, k) + if Crosses(e, layers, maxLayer, k) then [e] else []
  }

  lemma {:induction false} CrossingMembers(edges: seq<Edge>, layers: map<string, nat>, maxLayer: nat, k: nat)
    requires forall e :: e in edges ==> HasLayers(e, layers, maxLayer)
    ensures forall e :: e in CrossingAt(edges, layers, maxLayer, k) <==> e in edges && Crosses(e, layers, maxLayer, k)
  {
    if edges != [] {
      CrossingMembers(edges[..|edges| - 1], layers, maxLayer, k);
      assert edges == edges[..|edges| - 1] + [edges[|edges| - 1]];
    }
  }

  method CollectCrossing(edges: seq<Edge>, layers: map<string, nat>, maxLayer: nat) returns (crossing: seq<seq<Edge>>)
    requires forall e :: e in edges ==> HasLayers(e, layers, maxLayer)
    ensures |crossing| == maxLayer
    ensures forall k: nat :: k < maxLayer ==> crossing[k] == CrossingAt(edges, layers, maxLayer, k)
  {
    crossing := seq(maxLayer, _ => []);
    for n := 0 to |edges|
      invariant |crossing| == maxLayer
      invariant forall k: nat :: k < maxLayer ==> crossing[k] == CrossingAt(edges[..n], layers, maxLayer, k)
    {
      var e := edges[n];
      assert HasLayers(e, layers, maxLayer);
      var from, to := layers[e.source], layers[e.target];
      assert edges[..n + 1][..n] == edges[..n];
      if to > from {
        for k := from to to
          invariant |crossing| == maxLayer
          invariant forall j: nat :: j < maxLayer ==>
                      crossing[j] == CrossingAt(edges[..n], layers, maxLayer, j) + if from <= j < k then [e] else []
        {
          crossing := crossing[k := crossing[k] + [e]];
        }
      } else {
        var k: int := from;
        if k >= maxLayer {
          k := maxLayer - 1;
        }
        if k >= 0 {
          crossing := crossing[k := crossing[k] + [e]];
        }
      }
    }
    assert edges[..|edges|] == edges;
  }

  // ----- rows of the layers -----

  function GapRows(group: seq<Edge>): nat {
    if |group| > 1 then |group| else 1
  }

  predicate Stacked(top: seq<int>, crossing: seq<seq<Edge>>) {
    && |top| == |crossing| + 1 && top[0] == 0
    && forall k: nat :: k < |crossing| ==> StackedAt(top, crossing, k)
  }

  /** Layer k + 1 starts below the gap under layer k. */
  predicate StackedAt(top: seq<int>, crossing: seq<seq<Edge>>, k: nat)
    requires k < |crossing| && k + 1 < |top|
  {
    top[k + 1] == top[k] + BOX_HEIGHT + GapRows(crossing[k])
  }

  method StackLayers(crossing: seq<seq<Edge>>) returns (top: seq<int>)
    ensures Stacked(top, crossing)
  {
    top := [0];
    for k := 0 to |crossing|
      invariant |top| == k + 1 && top[0] == 0
      invariant forall j: nat :: j < k ==> StackedAt(top, crossing, j)
    {
      ghost var before := top;
      top := top + [top[k] + BOX_HEIGHT + GapRows(crossing[k])];
      assert forall j: nat :: j < k ==> StackedAt(before, crossing, j) ==> StackedAt(top, crossing, j);
    }
  }

  /** c is in the gap below layer k. */
  predicate InGap(top: seq<int>, k: nat, c: (int, int)) {
    k + 1 < |top| && top[k] + BOX_HEIGHT <= c.1 < top[k + 1]
  }

  lemma {:induction false} LayersStack(top: seq<int>, crossing: seq<seq<Edge>>, j: nat, k: nat)
    requires Stacked(top, crossing) && j < k < |top|
    ensures top[j] + BOX_HEIGHT < top[j + 1] <= top[k]
    decreases k - j
  {
    assert StackedAt(top, crossing, j);
    if j + 1 < k {
      LayersStack(top, crossing, j + 1, k);
    }
  }

  /** A gap shares no row with any layer. */
  lemma GapMissesLayers(top: seq<int>, crossing: seq<seq<Edge>>, k: nat, m: nat, c: (int, int))
    requires Stacked(top, crossing) && m < |top| && InGap(top, k, c)
    ensures !(top[m] <= c.1 < top[m] + BOX_HEIGHT)
  {
    if k < m {
      LayersStack(top, crossing, k, m);
    } else if m < k {
      LayersStack(top, crossing, m, k);
    }
  }

  // ----- boxes -----

  function Width(n: Node): nat {
    |" " + n.name + " "| + 2
  }

  function Members(nodes: seq<Node>, layers: map<string, nat>, k: nat): seq<Node> {
    if nodes == [] then []
    else
      var n := nodes[|nodes| - 1];
      Members(nodes[..|nodes| - 1], layers, k) + if n.id in layers && layers[n.id] == k then [n] else []
  }

  lemma {:induction false} MembersAre(nodes: seq<Node>, layers: map<string, nat>, k: nat)
    ensures forall n :: n in Members(nodes, layers, k) <==> n in nodes && n.id in layers && layers[n.id] == k
  {
    if nodes != [] {
      MembersAre(nodes[..|nodes| - 1], layers, k);
      assert nodes == nodes[..|nodes| - 1] + [nodes[|nodes| - 1]];
    }
  }

  /** Column at which the box after these members starts. */
  function Offset(members: seq<Node>): nat {
    if members == [] then 0 else Offset(members[..|members| - 1]) + Width(members[|members| - 1]) + BOX_GAP
  }

  lemma {:induction false} OffsetsRise(members: seq<Node>, i: nat, j: nat)
    requires i < j <= |members|
    ensures Offset(members[..i]) + Width(members[i]) + BOX_GAP <= Offset(members[..j])
  {
    assert members[..j][..j - 1] == members[..j - 1];
    if i + 1 < j {
      OffsetsRise(members, i, j - 1);
    }
  }

  /** b is the box of a member with this id: after the members before it, on its layer's rows. */
  ghost predicate Placed(b: Box, id: string, members: seq<Node>, y: int) {
    exists i: nat :: i < |members| && members[i].id == id && b == Box(Offset(members[..i]), y, Width(members[i]))
  }

  lemma PlacedWithin(b: Box, id: string, members: seq<Node>, y: int)
    requires Placed(b, id, members, y)
    ensures b.y == y && b.x >= 0 && b.width >= 4 && b.x + b.width + BOX_GAP <= Offset(members)
  {
    var i: nat :| i < |members| && members[i].id == id && b == Box(Offset(members[..i]), y, Width(members[i]));
    OffsetsRise(members, i, |members|);
    assert members[..|members|] == members;
  }

  lemma PlacedApart(a: Box, b: Box, p: string, q: string, members: seq<Node>, y: int)
    requires Placed(a, p, members, y) && Placed(b, q, members, y) && p != q
    ensures a.x + a.width + BOX_GAP <= b.x || b.x + b.width + BOX_GAP <= a.x
  {
    var i: nat :| i < |members| && members[i].id == p && a == Box(Offset(members[..i]), y, Width(members[i]));
    var j: nat :| j < |members| && members[j].id == q && b == Box(Offset(members[..j]), y, Width(members[j]));
    if i < j {
      OffsetsRise(members, i, j);
    } else {
      OffsetsRise(members, j, i);
    }
  }

  method GroupByLayer(nodes: seq<Node>, layers: map<string, nat>, maxLayer: nat) returns (byLayer: seq<seq<Node>>)
    requires forall n :: n in nodes ==> n.id in layers && layers[n.id] <= maxLayer
    ensures |byLayer| == maxLayer + 1 && forall k: nat :: k <= maxLayer ==> byLayer[k] == Members(nodes, layers, k)
  {
    byLayer := seq(maxLayer + 1, _ => []);
    for n := 0 to |nodes|
      invariant |byLayer| == maxLayer + 1
      invariant forall k: nat :: k <= maxLayer ==> byLayer[k] == Members(nodes[..n], layers, k)
    {
      assert nodes[..n + 1][..n] == nodes[..n];
      var layer := layers[nodes[n].id];
      byLayer := byLayer[layer := byLayer[layer] + [nodes[n]]];
    }
    assert nodes[..|nodes|] == nodes;
  }

  /** One layer's boxes, left to right, over those already placed. */
  function LayerBoxes(members: seq<Node>, y: int, placed: map<string, Box>): map<string, Box> {
    if members == [] then placed
    else
      var before, n := members[..|members| - 1], members[|members| - 1];
      LayerBoxes(before, y, placed)[n.id := Box(Offset(before), y, Width(n))]
  }

  predicate Names(members: seq<Node>, id: string) {
    exists n :: n in members && n.id == id
  }

  lemma {:induction false} LayerBoxesPlaced(members: seq<Node>, y: int, placed: map<string, Box>)
    ensures var boxes := LayerBoxes(members, y, placed);
            forall id :: && (id in boxes <==> id in placed || Names(members, id))
                         && (id in boxes && Names(members, id) ==> Placed(boxes[id], id, members, y))
                         && (id in boxes && !Names(members, id) ==> boxes[id] == placed[id])
  {
    if members != [] {
      var before, n := members[..|members| - 1], members[|members| - 1];
      LayerBoxesPlaced(before, y, placed);
      assert members == before + [n];
      forall id ensures Names(members, id) <==> Names(before, id) || id == n.id {}
      forall b, id | Placed(b, id, before, y) ensures Placed(b, id, members, y) {
        PlacedGrows(b, id, before, n, y);
      }
      var last: nat := |members| - 1;
      assert members[last].id == n.id && members[..last] == before;
    }
  }

  lemma PlacedGrows(b: Box, id: string, before: seq<Node>, n: Node, y: int)
    requires Placed(b, id, before, y)
    ensures Placed(b, id, before + [n], y)
  {
    var i: nat :| i < |before| && before[i].id == id && b == Box(Offset(before[..i]), y, Width(before[i]));
    assert (before + [n])[i] == before[i] && (before + [n])[..i] == before[..i];
  }

  method PlaceLayer(members: seq<Node>, y: int, placed: map<string, Box>) returns (boxes: map<string, Box>, cursor: nat)
    ensures cursor == Offset(members) && boxes == LayerBoxes(members, y, placed)
  {
    boxes, cursor := placed, 0;
    for i := 0 to |members|
      invariant cursor == Offset(members[..i]) && boxes == LayerBoxes(members[..i], y, placed)
    {
      assert members[..i + 1][..i] == members[..i];
      boxes := boxes[members[i].id := Box(cursor, y, Width(members[i]))];
      cursor := cursor + Width(members[i]) + BOX_GAP;
    }
    assert members[..|members|] == members;
  }

  ghost predicate PlacedOnLayer(b: Box, id: string, nodes: seq<Node>, layers: map<string, nat>, top: seq<int>) {
    && id in layers && layers[id] < |top|
    && Placed(b, id, Members(nodes, layers, layers[id]), top[layers[id]])
  }

  ghost predicate AllPlaced(boxes: map<string, Box>, nodes: seq<Node>, layers: map<string, nat>, top: seq<int>) {
    forall id :: id in boxes ==> PlacedOnLayer(boxes[id], id, nodes, layers, top)
  }

  /** Every node's box is placed on its layer, and no layer extends beyond maxRight. */
  ghost predicate BoxesPlaced(boxes: map<string, Box>, maxRight: int, nodes: seq<Node>, layers: map<string, nat>, top: seq<int>) {
    && (forall n :: n in nodes ==> n.id in boxes)
    && AllPlaced(boxes, nodes, layers, top)
    && (forall k: nat :: k < |top| ==> Offset(Members(nodes, layers, k)) - BOX_GAP <= maxRight)
  }

  lemma NonePlaced(nodes: seq<Node>, layers: map<string, nat>, top: seq<int>)
    ensures AllPlaced(map[], nodes, layers, top)
  {
  }

  lemma LayerPlaced(nodes: seq<Node>, layers: map<string, nat>, top: seq<int>, k: nat, boxes: map<string, Box>)
    requires k < |top|
    requires AllPlaced(boxes, nodes, layers, top)
    ensures var all := LayerBoxes(Members(nodes, layers, k), top[k], boxes);
            && AllPlaced(all, nodes, layers, top)
            && (forall id :: id in boxes ==> id in all)
            && (forall n :: n in nodes && n.id in layers && layers[n.id] == k ==> n.id in all)
  {
    var members := Members(nodes, layers, k);
    MembersAre(nodes, layers, k);
    LayerBoxesPlaced(members, top[k], boxes);
    hide LayerBoxes, Members, Placed;
    var all := LayerBoxes(members, top[k], boxes);
    forall id | id in all ensures PlacedOnLayer(all[id], id, nodes, layers, top) {
      if Names(members, id) {
        assert Placed(all[id], id, members, top[k]);
      }
    }
    forall n | n in nodes && n.id in layers && layers[n.id] == k ensures n.id in all {
      assert n in members && Names(members, n.id);
    }
  }

  method PlaceBoxes(nodes: seq<Node>, layers: map<string, nat>, maxLayer: nat, top: seq<int>)
    returns (boxes: map<string, Box>, maxRight: int)
    requires forall n :: n in nodes ==> n.id in layers && layers[n.id] <= maxLayer
    requires |top| == maxLayer + 1
    ensures BoxesPlaced(boxes, maxRight, nodes, layers, top) && maxRight >= 0
  {
    hide LayerBoxes, Members, Placed, Offset, AllPlaced;
    var byLayer := GroupByLayer(nodes, layers, maxLayer);
    boxes, maxRight := map[], 0;
    NonePlaced(nodes, layers, top);
    for k := 0 to |byLayer|
      invariant maxRight >= 0
      invariant forall j: nat :: j < k ==> Offset(Members(nodes, layers, j)) - BOX_GAP <= maxRight
      invariant AllPlaced(boxes, nodes, layers, top)
      invariant forall n :: n in nodes && layers[n.id] < k ==> n.id in boxes
    {
      LayerPlaced(nodes, layers, top, k, boxes);
      var cursor;
      boxes, cursor := PlaceLayer(byLayer[k], top[k], boxes);
      if cursor - BOX_GAP > maxRight {
        maxRight := cursor - BOX_GAP;
      }
    }
  }

  // ----- rows and columns of the edges -----

  /** The row of e below layer k is that of its last occurrence in the group. */
  ghost predicate RowOf(row: int, e: Edge, group: seq<Edge>, y: int) {
    exists i: nat :: i < |group| && group[i] == e && e !in group[i + 1..] && row == y + BOX_HEIGHT + i
  }

  ghost predicate RowsAssigned(rows: map<Channel, int>, crossing: seq<seq<Edge>>, top: seq<int>)
    requires |crossing| <= |top|
  {
    && (forall e, k: nat :: Channel(e, k) in rows <==> k < |crossing| && e in crossing[k])
    && (forall e, k: nat :: k < |crossing| && e in crossing[k] ==> RowOf(rows[Channel(e, k)], e, crossing[k], top[k]))
  }

  method AssignRows(crossing: seq<seq<Edge>>, top: seq<int>) returns (rows: map<Channel, int>)
    requires |crossing| <= |top|
    ensures RowsAssigned(rows, crossing, top)
  {
    rows := map[];
    for k := 0 to |crossing|
      invariant forall e, j: nat :: Channel(e, j) in rows <==> j < k && e in crossing[j]
      invariant forall e, j: nat :: j < k && e in crossing[j] ==> RowOf(rows[Channel(e, j)], e, crossing[j], top[j])
    {
      var group := crossing[k];
      ghost var before := rows;
      for i := 0 to |group|
        invariant forall e, j: nat :: j != k ==> (Channel(e, j) in rows <==> Channel(e, j) in before)
        invariant forall e, j: nat :: j != k && Channel(e, j) in rows ==> rows[Channel(e, j)] == before[Channel(e, j)]
        invariant forall e :: Channel(e, k) in rows <==> e in group[..i]
        invariant forall e :: e in group[..i] ==> RowOf(rows[Channel(e, k)], e, group[..i], top[k])
      {
        RowsGrow(group, i, top[k]);
        rows := rows[Channel(group[i], k) := top[k] + BOX_HEIGHT + i];
      }
      assert group[..|group|] == group;
    }
  }

  lemma RowsGrow(group: seq<Edge>, i: nat, y: int)
    requires i < |group|
    ensures group[..i + 1] == group[..i] + [group[i]]
    ensures forall e, row :: e != group[i] && RowOf(row, e, group[..i], y) ==> RowOf(row, e, group[..i + 1], y)
    ensures RowOf(y + BOX_HEIGHT + i, group[i], group[..i + 1], y)
  {
    var longer := group[..i + 1];
    assert longer[i] == group[i] && longer[i + 1..] == [];
    forall e, row | e != group[i] && RowOf(row, e, group[..i], y) ensures RowOf(row, e, longer, y) {
      var j: nat :| j < i && group[..i][j] == e && e !in group[..i][j + 1..] && row == y + BOX_HEIGHT + j;
      assert longer[j] == e && longer[j + 1..] == group[..i][j + 1..] + [group[i]];
    }
  }

  /** Every edge not going exactly one layer down has its own column, at least two right of every box and of every other such column. */
  predicate ColumnsAssigned(columns: map<Edge, int>, edges: seq<Edge>, layers: map<string, nat>, maxRight: int) {
    && (forall e :: e in columns ==> columns[e] >= maxRight + 2)
    && (forall e :: e in edges && e.source in layers && e.target in layers && layers[e.target] != layers[e.source] + 1
                    ==> e in columns)
    && (forall e, f :: e in columns && f in columns && e != f ==> columns[e] + 2 <= columns[f] || columns[f] + 2 <= columns[e])
  }

  method AssignColumns(edges: seq<Edge>, layers: map<string, nat>, maxRight: int) returns (columns: map<Edge, int>)
    requires forall e :: e in edges ==> e.source in layers && e.target in layers
    ensures ColumnsAssigned(columns, edges, layers, maxRight)
  {
    columns := map[];
    var margin := maxRight + 2;
    for n := 0 to |edges|
      invariant margin >= maxRight + 2
      invariant forall e :: e in columns ==> columns[e] <= margin - 2
      invariant ColumnsAssigned(columns, edges[..n], layers, maxRight)
    {
      var e := edges[n];
      if layers[e.target] != layers[e.source] + 1 {
        columns := columns[e := margin];
        margin := margin + 2;
      }
      assert edges[..n + 1] == edges[..n] + [e];
    }
    assert edges[..|edges|] == edges;
  }

  // ----- the whole layout -----

  ghost predicate WellPlaced(l: Layout, nodes: seq<Node>, edges: seq<Edge>, layers: map<string, nat>) {
    && Layered(nodes, edges, layers, |l.crossing|)
    && (forall k: nat :: k < |l.crossing| ==> l.crossing[k] == CrossingAt(edges, layers, |l.crossing|, k))
    && Stacked(l.top, l.crossing)
    && BoxesPlaced(l.boxes, l.maxRight, nodes, layers, l.top)
    && RowsAssigned(l.rows, l.crossing, l.top)
    && ColumnsAssigned(l.columns, edges, layers, l.maxRight)
  }

  method PlaceAll(nodes: seq<Node>, edges: seq<Edge>, layers: map<string, nat>, maxLayer: nat) returns (l: Layout)
    requires Layered(nodes, edges, layers, maxLayer)
    ensures WellPlaced(l, nodes, edges, layers) && |l.crossing| == maxLayer
  {
    var crossing := CollectCrossing(edges, layers, maxLayer);
    var top := StackLayers(crossing);
    var boxes, maxRight := PlaceBoxes(nodes, layers, maxLayer, top);
    var rows := AssignRows(crossing, top);
    var columns := AssignColumns(edges, layers, maxRight);
    l := Layout(crossing, top, boxes, maxRight, rows, columns);
  }

  lemma BoxOnLayer(l: Layout, nodes: seq<Node>, edges: seq<Edge>, layers: map<string, nat>, id: string)
    requires WellPlaced(l, nodes, edges, layers) && id in l.boxes
    ensures PlacedOnLayer(l.boxes[id], id, nodes, layers, l.top) && Stacked(l.top, l.crossing)
  {
    assert BoxesPlaced(l.boxes, l.maxRight, nodes, layers, l.top);
    hide WellPlaced;
  }

  /** Boxes of different nodes share no cell. */
  lemma BoxesAreDisjoint(l: Layout, nodes: seq<Node>, edges: seq<Edge>, layers: map<string, nat>, a: string, b: string, c: (int, int))
    requires WellPlaced(l, nodes, edges, layers) && a in l.boxes && b in l.boxes && a != b
    ensures !(l.boxes[a].Holds(c) && l.boxes[b].Holds(c))
  {
    hide WellPlaced, Placed, Members, Offset, Stacked;
    BoxOnLayer(l, nodes, edges, layers, a);
    BoxOnLayer(l, nodes, edges, layers, b);
    var j, k := layers[a], layers[b];
    var (first, second) := (Members(nodes, layers, j), Members(nodes, layers, k));
    PlacedWithin(l.boxes[a], a, first, l.top[j]);
    PlacedWithin(l.boxes[b], b, second, l.top[k]);
    if j < k {
      LayersStack(l.top, l.crossing, j, k);
    } else if k < j {
      LayersStack(l.top, l.crossing, k, j);
    } else {
      PlacedApart(l.boxes[a], l.boxes[b], a, b, first, l.top[j]);
    }
  }

  /** A box is on its layer's rows and reaches no further than maxRight. */
  lemma BoxWithin(l: Layout, nodes: seq<Node>, edges: seq<Edge>, layers: map<string, nat>, id: string)
    requires WellPlaced(l, nodes, edges, layers) && id in l.boxes
    ensures id in layers && layers[id] < |l.top|
    ensures var b := l.boxes[id];
            && b.y == l.top[layers[id]] && b.x + b.width <= l.maxRight
            && b.Holds((b.Center(), b.y)) && b.Holds((b.Center(), b.y + BOX_HEIGHT - 1))
  {
    var b := l.boxes[id];
    assert PlacedOnLayer(b, id, nodes, layers, l.top);
    var k := layers[id];
    assert Offset(Members(nodes, layers, k)) - BOX_GAP <= l.maxRight;
    hide WellPlaced, Placed, Members, Offset;
    PlacedWithin(b, id, Members(nodes, layers, k), l.top[k]);
  }

  // ----- routes -----

  /** The bottom border cell a route leaves its source by, and the top border cell it enters its target by. */
  function Leaves(l: Layout, e: Edge): (int, int)
    requires e.source in l.boxes
  {
    (l.boxes[e.source].Center(), l.boxes[e.source].y + BOX_HEIGHT - 1)
  }

  function Enters(l: Layout, e: Edge): (int, int)
    requires e.target in l.boxes
  {
    (l.boxes[e.target].Center(), l.boxes[e.target].y)
  }

  /** From s down to the row, across, and down to t. */
  function ShortLines(s: (int, int), t: (int, int), row: int): seq<Line> {
    [Line(s.0, s.1, s.0, row), Line(s.0, row, t.0, row), Line(t.0, row, t.0, t.1)]
  }

  /** From s down to the first row, out to the column, down to the last row, back across, and down to t. */
  function LongLines(s: (int, int), t: (int, int), first: int, last: int, column: int): seq<Line> {
    [Line(s.0, s.1, s.0, first), Line(s.0, first, column, first), Line(column, first, column, last),
     Line(column, last, t.0, last), Line(t.0, last, t.0, t.1)]
  }

  /** The lines of a downward edge: straight through one gap, or out to its column and back. */
  function Route(l: Layout, layers: map<string, nat>, e: Edge): seq<Line>
    requires Routable(l, layers, e)
  {
    var (from, to) := (layers[e.source], layers[e.target]);
    if to == from + 1 then ShortLines(Leaves(l, e), Enters(l, e), l.rows[Channel(e, from)])
    else LongLines(Leaves(l, e), Enters(l, e), l.rows[Channel(e, from)], l.rows[Channel(e, to - 1)], l.columns[e])
  }

  predicate Routable(l: Layout, layers: map<string, nat>, e: Edge) {
    && e.source in l.boxes && e.source in layers && e.target in l.boxes && e.target in layers
    && layers[e.source] < layers[e.target]
    && Channel(e, layers[e.source]) in l.rows && Channel(e, layers[e.target] - 1) in l.rows
    && (layers[e.target] != layers[e.source] + 1 ==> e in l.columns)
  }

  ghost predicate OnRoute(l: Layout, layers: map<string, nat>, e: Edge, c: (int, int))
    requires Routable(l, layers, e)
  {
    exists line :: line in Route(l, layers, e) && line.Through(c)
  }

  predicate Downward(e: Edge, layers: map<string, nat>) {
    e.source in layers && e.target in layers && layers[e.source] < layers[e.target]
  }

  /** A downward edge has a row in every gap it crosses, inside that gap. */
  lemma RowsInGaps(l: Layout, nodes: seq<Node>, edges: seq<Edge>, layers: map<string, nat>, e: Edge, k: nat)
    requires WellPlaced(l, nodes, edges, layers) && e in edges && Downward(e, layers)
    requires layers[e.source] <= k < layers[e.target]
    ensures k + 1 < |l.top| && Channel(e, k) in l.rows && l.top[k] + BOX_HEIGHT <= l.rows[Channel(e, k)] < l.top[k + 1]
  {
    assert HasLayers(e, layers, |l.crossing|);
    CrossingMembers(edges, layers, |l.crossing|, k);
    assert e in l.crossing[k] && StackedAt(l.top, l.crossing, k);
    var i: nat :| i < |l.crossing[k]| && l.rows[Channel(e, k)] == l.top[k] + BOX_HEIGHT + i;
  }

  /** Two edges never share a channel row. */
  lemma RowsAreDistinct(l: Layout, nodes: seq<Node>, edges: seq<Edge>, layers: map<string, nat>, e: Edge, f: Edge, j: nat, k: nat)
    requires WellPlaced(l, nodes, edges, layers) && Channel(e, j) in l.rows && Channel(f, k) in l.rows && Channel(e, j) != Channel(f, k)
    ensures l.rows[Channel(e, j)] != l.rows[Channel(f, k)]
  {
    var m: nat :| m < |l.crossing[j]| && l.crossing[j][m] == e && l.rows[Channel(e, j)] == l.top[j] + BOX_HEIGHT + m;
    var n: nat :| n < |l.crossing[k]| && l.crossing[k][n] == f && l.rows[Channel(f, k)] == l.top[k] + BOX_HEIGHT + n;
    assert StackedAt(l.top, l.crossing, j) && StackedAt(l.top, l.crossing, k);
    assert l.rows[Channel(e, j)] < l.top[j + 1] && l.rows[Channel(f, k)] < l.top[k + 1];
    if j < k {
      LayersStack(l.top, l.crossing, j, k);
    } else if k < j {
      LayersStack(l.top, l.crossing, k, j);
    }
  }

  lemma ColumnBeyond(l: Layout, nodes: seq<Node>, edges: seq<Edge>, layers: map<string, nat>, e: Edge)
    requires WellPlaced(l, nodes, edges, layers) && e in edges && Downward(e, layers)
    requires layers[e.target] != layers[e.source] + 1
    ensures e in l.columns && l.columns[e] > l.maxRight
  {
    assert ColumnsAssigned(l.columns, edges, layers, l.maxRight);
    hide WellPlaced;
  }

  lemma DownwardIsRoutable(l: Layout, nodes: seq<Node>, edges: seq<Edge>, layers: map<string, nat>, e: Edge)
    requires WellPlaced(l, nodes, edges, layers) && e in edges && Downward(e, layers)
    requires e.source in l.boxes && e.target in l.boxes
    ensures Routable(l, layers, e)
  {
    hide WellPlaced;
    if layers[e.target] != layers[e.source] + 1 {
      ColumnBeyond(l, nodes, edges, layers, e);
    }
    RowsInGaps(l, nodes, edges, layers, e, layers[e.source]);
    RowsInGaps(l, nodes, edges, layers, e, layers[e.target] - 1);
  }

  /** A routed downward edge stays in the gap rows and the right margin, but for its two ends. */
  lemma RoutesStayInChannels(l: Layout, nodes: seq<Node>, edges: seq<Edge>, layers: map<string, nat>, e: Edge, c: (int, int))
    requires WellPlaced(l, nodes, edges, layers) && e in edges && Routable(l, layers, e) && OnRoute(l, layers, e, c)
    ensures c == Leaves(l, e) || c == Enters(l, e) || c.0 > l.maxRight || exists k: nat :: InGap(l.top, k, c)
  {
    hide WellPlaced;
    var (from, to) := (layers[e.source], layers[e.target]);
    RowsInGaps(l, nodes, edges, layers, e, from);
    RowsInGaps(l, nodes, edges, layers, e, to - 1);
    BoxWithin(l, nodes, edges, layers, e.source);
    BoxWithin(l, nodes, edges, layers, e.target);
    var (s, t, first, last) := (Leaves(l, e), Enters(l, e), l.rows[Channel(e, from)], l.rows[Channel(e, to - 1)]);
    assert s.1 < first && s.1 == l.top[from] + BOX_HEIGHT - 1 && last < t.1 == l.top[to];
    hide Leaves, Enters, Box.Holds, Box.Center;
    var line :| line in Route(l, layers, e) && line.Through(c);
    if to == from + 1 {
      ShortLinesCells(s, t, first, line, c);
    } else {
      LongLinesCells(s, t, first, last, l.columns[e], line, c);
      ColumnBeyond(l, nodes, edges, layers, e);
    }
    if l.top[from] + BOX_HEIGHT <= c.1 < l.top[from + 1] {
      assert InGap(l.top, from, c);
    } else if l.top[to - 1] + BOX_HEIGHT <= c.1 < l.top[to] {
      var below: nat := to - 1;
      assert InGap(l.top, below, c);
    }
  }

  lemma ShortLinesCells(s: (int, int), t: (int, int), row: int, line: Line, c: (int, int))
    requires s.1 < row < t.1 && line in ShortLines(s, t, row) && line.Through(c)
    ensures c == s || c == t || s.1 < c.1 < t.1
  {
  }

  lemma LongLinesCells(s: (int, int), t: (int, int), first: int, last: int, column: int, line: Line, c: (int, int))
    requires s.1 < first && last < t.1 && line in LongLines(s, t, first, last, column) && line.Through(c)
    ensures c == s || c == t || c.0 == column || s.1 < c.1 <= first || last <= c.1 < t.1
  {
  }

  /** It touches a box only on the bottom border of its own source or the top border of its own target. */
  lemma RoutesTouchOnlyTheirEnds(l: Layout, nodes: seq<Node>, edges: seq<Edge>, layers: map<string, nat>,
                                 e: Edge, c: (int, int), id: string)
    requires WellPlaced(l, nodes, edges, layers) && e in edges && Routable(l, layers, e) && OnRoute(l, layers, e, c)
    requires id in l.boxes && l.boxes[id].Holds(c)
    ensures (id == e.source && c == Leaves(l, e)) || (id == e.target && c == Enters(l, e))
  {
    RoutesStayInChannels(l, nodes, edges, layers, e, c);
    BoxWithin(l, nodes, edges, layers, id);
    BoxWithin(l, nodes, edges, layers, e.source);
    BoxWithin(l, nodes, edges, layers, e.target);
    if k: nat :| InGap(l.top, k, c) {
      GapMissesLayers(l.top, l.crossing, k, layers[id], c);
    } else if c == Leaves(l, e) && id != e.source {
      BoxesAreDisjoint(l, nodes, edges, layers, id, e.source, c);
    } else if c == Enters(l, e) && id != e.target {
      BoxesAreDisjoint(l, nodes, edges, layers, id, e.target, c);
    }
  }

  // ----- drawing -----

  /** The lines lead from s to t, each straight and starting where the one before ends. */
  predicate Connects(lines: seq<Line>, s: (int, int), t: (int, int)) {
    && lines != [] && (lines[0].x0, lines[0].y0) == s && (lines[|lines| - 1].x1, lines[|lines| - 1].y1) == t
    && (forall i :: 0 <= i < |lines| ==> lines[i].Straight())
    && (forall i :: 0 < i < |lines| ==> (lines[i].x0, lines[i].y0) == (lines[i - 1].x1, lines[i - 1].y1))
  }

  /** A downward edge leads from its source's bottom to its target's top, any other one to the target's bottom. */
  lemma LinesConnectEnds(l: Layout, layers: map<string, nat>, e: Edge)
    requires Drawable(l, layers, e) && |l.crossing| > 0
    ensures Connects(LinesOf(l, layers, e), Leaves(l, e),
                     if layers[e.source] < layers[e.target] then Enters(l, e)
                     else (l.boxes[e.target].Center(), l.boxes[e.target].y + BOX_HEIGHT - 1))
  {
    var lines := LinesOf(l, layers, e);
    assert |lines| in {3, 4, 5};
  }

  /** The lines drawn for any edge: none without a channel row, a best effort for one that does not go down. */
  function LinesOf(l: Layout, layers: map<string, nat>, e: Edge): seq<Line>
    requires Drawable(l, layers, e)
  {
    if layers[e.source] < layers[e.target] then Route(l, layers, e)
    else if |l.crossing| == 0 then []
    else
      var (source, target, column) := (l.boxes[e.source], l.boxes[e.target], l.columns[e]);
      var row := l.rows[Channel(e, BackGap(layers[e.source], |l.crossing|))];
      [Line(source.Center(), source.y + BOX_HEIGHT - 1, source.Center(), row),
       Line(source.Center(), row, column, row),
       Line(column, row, target.Center(), row),
       Line(target.Center(), row, target.Center(), target.y + BOX_HEIGHT - 1)]
  }

  function BackGap(from: nat, maxLayer: nat): nat
    requires maxLayer > 0
  {
    if from < maxLayer - 1 then from else maxLayer - 1
  }

  predicate Drawable(l: Layout, layers: map<string, nat>, e: Edge) {
    && e.source in l.boxes && e.source in layers && e.target in l.boxes && e.target in layers
    && if layers[e.source] < layers[e.target] then Routable(l, layers, e)
       else e in l.columns && (|l.crossing| > 0 ==> Channel(e, BackGap(layers[e.source], |l.crossing|)) in l.rows)
  }

  lemma EveryEdgeIsDrawable(l: Layout, nodes: seq<Node>, edges: seq<Edge>, layers: map<string, nat>, e: Edge)
    requires WellPlaced(l, nodes, edges, layers) && e in edges && e.source in l.boxes && e.target in l.boxes
    ensures Drawable(l, layers, e)
  {
    BackEdgeIsPlaced(l, nodes, edges, layers, e);
    hide WellPlaced;
    if layers[e.source] < layers[e.target] {
      DownwardIsRoutable(l, nodes, edges, layers, e);
    }
  }

  lemma BackEdgeIsPlaced(l: Layout, nodes: seq<Node>, edges: seq<Edge>, layers: map<string, nat>, e: Edge)
    requires WellPlaced(l, nodes, edges, layers) && e in edges
    ensures e.source in layers && e.target in layers
    ensures layers[e.source] >= layers[e.target] ==> e in l.columns
    ensures layers[e.source] >= layers[e.target] && |l.crossing| > 0 ==>
              Channel(e, BackGap(layers[e.source], |l.crossing|)) in l.rows
  {
    assert HasLayers(e, layers, |l.crossing|);
    assert ColumnsAssigned(l.columns, edges, layers, l.maxRight);
    if layers[e.source] >= layers[e.target] && |l.crossing| > 0 {
      var k := BackGap(layers[e.source], |l.crossing|);
      assert l.crossing[k] == CrossingAt(edges, layers, |l.crossing|, k) && RowsAssigned(l.rows, l.crossing, l.top);
      hide WellPlaced, ColumnsAssigned;
      CrossingMembers(edges, layers, |l.crossing|, k);
      hide CrossingAt;
      assert e in l.crossing[k];
    }
  }

  /** n / d rounded half away from zero. */
  function Rounded(n: int, d: int): int
    requires d != 0
  {
    var (a, b) := if d < 0 then (-n, -d) else (n, d);
    if a >= 0 then (2 * a + b) / (2 * b) else -((-2 * a + b) / (2 * b))
  }

  lemma RoundedZero(k: int, d: int)
    requires d != 0
    ensures Rounded(k * 0, d) == 0
  {
    var b := if d < 0 then -d else d;
    assert 0 <= b < 2 * b;
    assert b / (2 * b) == 0;
  }

  class Canvas {
    var cells: map<(int, int), char>

    constructor ()
      ensures cells == map[]
    {
      cells := map[];
    }

    method Point(x: int, y: int, mark: char)
      modifies this
      ensures cells == old(cells)[(x, y) := mark]
    {
      cells := cells[(x, y) := mark];
    }

    /** Exactly the cells of line are marked. */
    twostate predicate Marked(line: Line, mark: char)
      reads this
    {
      forall c :: && (c in cells <==> c in old(cells) || line.Through(c))
                  && (c in cells ==> cells[c] == if line.Through(c) then mark else old(cells)[c])
    }

    /** Column by column from (x0, y0) to column x1. */
    method DrawAcross(x0: int, y0: int, x1: int, dx: int, dy: int, mark: char)
      requires x0 <= x1 && dx != 0
      modifies this
      ensures dy == 0 ==> Marked(Line(x0, y0, x1, y0), mark)
    {
      for x := x0 to x1 + 1
        invariant dy == 0 ==> if x == x0 then cells == old(cells) else Marked(Line(x0, y0, x - 1, y0), mark)
      {
        if dy == 0 {
          RoundedZero(x - x0, dx);
        }
        Point(x, y0 + Rounded((x - x0) * dy, dx), mark);
      }
    }

    /** Row by row from (x0, y0) down to row y1. */
    method DrawDown(x0: int, y0: int, y1: int, dx: int, dy: int, mark: char)
      requires y0 <= y1 && dy != 0
      modifies this
      ensures dx == 0 ==> Marked(Line(x0, y0, x0, y1), mark)
    {
      for y := y0 to y1 + 1
        invariant dx == 0 ==> if y == y0 then cells == old(cells) else Marked(Line(x0, y0, x0, y - 1), mark)
      {
        if dx == 0 {
          RoundedZero(y - y0, dy);
        }
        Point(x0 + Rounded((y - y0) * dx, dy), y, mark);
      }
    }

    /** The sloped cases round; on a vertical or horizontal line exactly its cells are marked. */
    method DrawLine(line: Line, mark: char)
      modifies this
      ensures line.Straight() ==> Marked(line, mark)
    {
      var (x0, y0, x1, y1) := if line.x0 > line.x1 then (line.x1, line.y1, line.x0, line.y0) else (line.x0, line.y0, line.x1, line.y1);
      var dx, dy := x1 - x0, y1 - y0;
      if dx == 0 && dy == 0 {
        Point(x0, y0, mark);
      } else if Abs(dx) >= Abs(dy) {
        DrawAcross(x0, y0, x1, dx, dy, mark);
      } else if y0 < y1 {
        DrawDown(x0, y0, y1, dx, dy, mark);
      } else {
        DrawDown(x1, y1, y0, dx, dy, mark);
      }
    }
  }

  function Abs(v: int): int {
    if v < 0 then -v else v
  }

  ghost predicate OnLines(lines: seq<Line>, c: (int, int)) {
    exists line :: line in lines && line.Through(c)
  }

  ghost predicate OnEdges(l: Layout, layers: map<string, nat>, edges: seq<Edge>, c: (int, int))
    requires forall e :: e in edges ==> Drawable(l, layers, e)
  {
    exists e :: e in edges && OnLines(LinesOf(l, layers, e), c)
  }

  method DrawLines(canvas: Canvas, lines: seq<Line>, mark: char)
    requires forall line :: line in lines ==> line.Straight()
    modifies canvas
    ensures forall c :: c in canvas.cells <==> c in old(canvas.cells) || OnLines(lines, c)
    ensures forall c :: c in canvas.cells ==> canvas.cells[c] == if OnLines(lines, c) then mark else old(canvas.cells)[c]
  {
    for i := 0 to |lines|
      invariant forall c :: c in canvas.cells <==> c in old(canvas.cells) || OnLines(lines[..i], c)
      invariant forall c :: c in canvas.cells ==>
                  canvas.cells[c] == if OnLines(lines[..i], c) then mark else old(canvas.cells)[c]
    {
      canvas.DrawLine(lines[i], mark);
      assert lines[..i + 1] == lines[..i] + [lines[i]];
    }
    assert lines[..|lines|] == lines;
  }

  function Mark(e: Edge): char {
    if e.conditional then '.' else '*'
  }

  /** The mark of the last edge through c; a blank where there is none. */
  ghost function MarkAt(l: Layout, layers: map<string, nat>, edges: seq<Edge>, c: (int, int)): char
    requires forall e :: e in edges ==> Drawable(l, layers, e)
  {
    if edges == [] then ' '
    else if OnLines(LinesOf(l, layers, edges[|edges| - 1]), c) then Mark(edges[|edges| - 1])
    else MarkAt(l, layers, edges[..|edges| - 1], c)
  }

  /** The cells marked are those of the edges' lines, and no others; where lines meet the later edge shows. */
  method DrawEdges(l: Layout, edges: seq<Edge>, layers: map<string, nat>) returns (canvas: Canvas)
    requires forall e :: e in edges ==> Drawable(l, layers, e)
    ensures fresh(canvas)
    ensures forall c :: c in canvas.cells <==> OnEdges(l, layers, edges, c)
    ensures forall c :: c in canvas.cells ==> canvas.cells[c] == MarkAt(l, layers, edges, c)
  {
    canvas := new Canvas();
    for i := 0 to |edges|
      invariant fresh(canvas)
      invariant forall c :: c in canvas.cells <==> exists e :: e in edges[..i] && OnLines(LinesOf(l, layers, e), c)
      invariant forall c :: c in canvas.cells ==> canvas.cells[c] == MarkAt(l, layers, edges[..i], c)
    {
      DrawLines(canvas, LinesOf(l, layers, edges[i]), Mark(edges[i]));
      assert edges[..i + 1] == edges[..i] + [edges[i]];
      assert edges[..i + 1][..i] == edges[..i];
    }
    assert edges[..|edges|] == edges;
  }

  /**
   On an acyclic graph, layered as the search does it, the lines drawn meet a box only where an edge leaves its own
   source at the bottom or enters its own target at the top.
   */
  lemma AcyclicDrawingTouchesOnlyEnds(l: Layout, nodes: seq<Node>, edges: seq<Edge>, order: seq<string>, c: (int, int), id: string)
    requires Acyclic(edges) && FinishOrder(edges, order) && WellPlaced(l, nodes, edges, LayersOf(edges, order))
    requires forall e :: e in edges ==> Drawable(l, LayersOf(edges, order), e)
    requires id in l.boxes && l.boxes[id].Holds(c) && OnEdges(l, LayersOf(edges, order), edges, c)
    ensures exists e :: e in edges && TouchesEnd(l, e, id, c)
  {
    var layers := LayersOf(edges, order);
    var e :| e in edges && OnLines(LinesOf(l, layers, e), c);
    LayersKeys(edges, order);
    SourcesAreEdges(edges, e.target);
    if Reaches(edges, e.target, e.source) {
      ReachesThrough(edges, e.source, e.target, e.source);
    }
    hide WellPlaced;
    EdgesGoDown(edges, order, e);
    RoutesTouchOnlyTheirEnds(l, nodes, edges, layers, e, c, id);
  }

  // ----- from the graph to the drawing -----

  predicate Known(nodes: seq<Node>, id: string) {
    exists n :: n in nodes && n.id == id
  }

  predicate Drawn(nodes: seq<Node>, e: Edge) {
    e.source != e.target && Known(nodes, e.source) && Known(nodes, e.target)
  }

  /** The edges to draw, in order: self-loops and edges with an unknown end are left out. */
  function DrawnEdges(nodes: seq<Node>, all: seq<Edge>): (edges: seq<Edge>)
    ensures forall e :: e in edges <==> e in all && Drawn(nodes, e)
  {
    if all == [] then []
    else
      var e := all[|all| - 1];
      assert all == all[..|all| - 1] + [e];
      DrawnEdges(nodes, all[..|all| - 1]) + if Drawn(nodes, e) then [e] else []
  }

  method KnownEdges(nodes: seq<Node>, all: seq<Edge>) returns (edges: seq<Edge>)
    ensures edges == DrawnEdges(nodes, all)
  {
    edges := [];
    for i := 0 to |all|
      invariant edges == DrawnEdges(nodes, all[..i])
    {
      var e := all[i];
      assert all[..i + 1][..i] == all[..i];
      if e.source != e.target && Known(nodes, e.source) && Known(nodes, e.target) {
        edges := edges + [e];
      }
    }
    assert all[..|all|] == all;
  }

  method HighestLayer(layers: map<string, nat>) returns (highest: nat)
    ensures forall id :: id in layers ==> layers[id] <= highest
    ensures highest == 0 || exists id :: id in layers && layers[id] == highest
  {
    highest := 0;
    var left := layers.Keys;
    while left != {}
      invariant left <= layers.Keys
      invariant forall id :: id in layers && id !in left ==> layers[id] <= highest
      invariant highest == 0 || exists id :: id in layers && layers[id] == highest
      decreases |left|
    {
      var id :| id in left;
      left := left - {id};
      if layers[id] > highest {
        highest := layers[id];
      }
    }
  }

  /**
   The lines of the whole drawing: each drawn edge has its lines, and nothing else is drawn; cyclic graphs are drawn
   too; on an acyclic one every cell shared with a box is the end of an edge of that box.
   */
  method DrawASCII(nodes: seq<Node>, all: seq<Edge>)
    returns (l: Layout, canvas: Canvas, ghost edges: seq<Edge>, ghost layers: map<string, nat>)
    ensures fresh(canvas)
    ensures edges == DrawnEdges(nodes, all)
    ensures WellPlaced(l, nodes, edges, layers) && forall n :: n in nodes ==> n.id in l.boxes
    ensures |l.crossing| > 0 ==> exists id :: id in layers && layers[id] == |l.crossing|
    ensures Acyclic(edges) ==> forall id :: id in layers ==> Longest(edges, id, layers[id])
    ensures forall e :: e in edges ==> Drawable(l, layers, e)
    ensures forall c :: c in canvas.cells <==> OnEdges(l, layers, edges, c)
    ensures forall c :: c in canvas.cells ==> canvas.cells[c] == MarkAt(l, layers, edges, c)
    ensures Acyclic(edges) ==>
              forall c, id :: c in canvas.cells && id in l.boxes && l.boxes[id].Holds(c) ==>
                exists e :: e in edges && TouchesEnd(l, e, id, c)
  {
    hide Acyclic, FinishOrder, LayersOf, Longest, Reaches, OnLines, LinesOf, Stacked, RowsAssigned, ColumnsAssigned, CrossingAt,
      DrawnEdges, MarkAt;
    var kept := KnownEdges(nodes, all);
    edges := kept;
    var layered, order := AsciiLayers(IdsOf(nodes), kept);
    layers := layered;
    var maxLayer := HighestLayer(layered);
    forall n | n in nodes ensures n.id in layers {
      var i :| 0 <= i < |nodes| && nodes[i] == n;
      assert IdsOf(nodes)[i] == n.id;
    }
    forall e | e in kept ensures HasLayers(e, layers, maxLayer) {
      assert Known(nodes, e.source) && Known(nodes, e.target);
    }
    l := PlaceAll(nodes, kept, layered, maxLayer);
    forall e | e in kept ensures Drawable(l, layers, e) {
      assert Known(nodes, e.source) && Known(nodes, e.target);
      EveryEdgeIsDrawable(l, nodes, kept, layers, e);
    }
    canvas := DrawEdges(l, kept, layered);
    if Acyclic(kept) {
      forall c, id | c in canvas.cells && id in l.boxes && l.boxes[id].Holds(c)
        ensures exists e :: e in kept && TouchesEnd(l, e, id, c)
      {
        AcyclicDrawingTouchesOnlyEnds(l, nodes, kept, order, c, id);
      }
    }
  }

  function IdsOf(nodes: seq<Node>): seq<string> {
    seq(|nodes|, i requires 0 <= i < |nodes| => nodes[i].id)
  }

  /** c is where e leaves the box of its source id, or enters the box of its target id. */
  predicate TouchesEnd(l: Layout, e: Edge, id: string, c: (int, int)) {
    || (id == e.source && id in l.boxes && c == Leaves(l, e))
    || (id == e.target && id in l.boxes && c == Enters(l, e))
  }
}
