/** In which order the path search goes through the index: of equally short paths the collector returns the
    one whose edges come first in the lists of the index. */
module PathOrder {
  import opened Options
  import opened PathCollector
  import opened SemanticIndex
  import opened SemanticPath
  import opened Sequences
  import opened Text
  import opened Traces

  // ---------------------------------------------------------------------------
  // The edges of the index, in one row.

  function EdgeCount(index: SemanticIndexV2): nat {
    |index.callEdges| + |index.buildOwnershipEdges| + |index.inheritanceEdges| + |index.overlayEdges|
    + |index.references|
  }

  /** The `n`-th edge of the index: calls, then build ownership, inheritance, overlays and references. */
  function EdgeOf(index: SemanticIndexV2, n: nat): Edge
    requires n < EdgeCount(index)
  {
    var builds := |index.callEdges|;
    var inheritance := builds + |index.buildOwnershipEdges|;
    var overlays := inheritance + |index.inheritanceEdges|;
    var references := overlays + |index.overlayEdges|;
    if n < builds then
      var e := index.callEdges[n];
      Edge(e.sourceID, e.targetID, e.kind)
    else if n < inheritance then
      var e := index.buildOwnershipEdges[n - builds];
      Edge(e.sourceID, e.targetID, e.kind)
    else if n < overlays then
      var e := index.inheritanceEdges[n - inheritance];
      Edge(e.sourceID, e.targetID, "inherits_from")
    else if n < references then
      var e := index.overlayEdges[n - overlays];
      Edge(e.sourceID, e.targetID, e.kind)
    else
      var e := index.references[n - references];
      Edge(e.sourceID, e.targetID, e.kind)
  }

  predicate EdgeAt(index: SemanticIndexV2, n: nat, s: string, t: string, kind: string) {
    n < EdgeCount(index) && Trimmed(EdgeOf(index, n), s, t, kind)
  }

  function IndexEdges(index: SemanticIndexV2): seq<Edge> {
    Each(CallStep, index.callEdges) + Each(BuildStep, index.buildOwnershipEdges)
    + Each(InheritanceStep, index.inheritanceEdges) + Each(OverlayStep, index.overlayEdges)
    + Each(ReferenceStep, index.references)
  }

  datatype Leaving = Leaving(node: string) {
    /** The step an edge gives, if it leaves the node. */
    function Out(e: Edge): (steps: seq<Step>)
      ensures |steps| <= 1
    {
      if Trim(e.source) == node != "" && Trim(e.target) != "" && Trim(e.kind) != "" then
        [Step(Trim(e.target), Trim(e.kind))]
      else []
    }
  }

  lemma OutMeans(e: Edge, s: string, t: string, kind: string)
    ensures Leaving(s).Out(e) == [Step(t, kind)] <==> Trimmed(e, s, t, kind)
  {}

  lemma EdgeInRow(index: SemanticIndexV2)
    ensures |IndexEdges(index)| == EdgeCount(index)
    ensures forall n :: 0 <= n < EdgeCount(index) ==> IndexEdges(index)[n] == EdgeOf(index, n)
  {}

  lemma EdgeAtMeans(index: SemanticIndexV2, n: nat, s: string, t: string, kind: string)
    ensures EdgeAt(index, n, s, t, kind) <==>
              n < |IndexEdges(index)| && Leaving(s).Out(IndexEdges(index)[n]) == [Step(t, kind)]
  {
    EdgeInRow(index);
    if n < EdgeCount(index) {
      OutMeans(IndexEdges(index)[n], s, t, kind);
    }
  }

  lemma OneEdgeSteps(adj: Adjacency, e: Edge, s: string)
    ensures Steps(AddStep(adj, e), s) == Steps(adj, s) + Leaving(s).Out(e)
  {
    assert Steps(adj, s) + [] == Steps(adj, s);
  }

  lemma {:induction false} AddAllSteps<E>(adj: Adjacency, edges: seq<E>, view: E -> Edge, s: string)
    ensures Steps(AddAll(adj, edges, view), s) == Steps(adj, s) + FlatMap(Leaving(s).Out, Each(view, edges))
  {
    if edges != [] {
      var n := |edges| - 1;
      AddAllSteps(adj, edges[..n], view, s);
      OneEdgeSteps(AddAll(adj, edges[..n], view), view(edges[n]), s);
      assert Each(view, edges)[..n] == Each(view, edges[..n]);
      Associative(Steps(adj, s), FlatMap(Leaving(s).Out, Each(view, edges[..n])), Leaving(s).Out(view(edges[n])));
    }
  }

  /** The steps out of a node are those of the edges that leave it, in the order of the index. */
  lemma StepsAre(index: SemanticIndexV2, s: string)
    ensures Steps(AdjacencyOf(index), s) == FlatMap(Leaving(s).Out, IndexEdges(index))
  {
    var a, b := Each(CallStep, index.callEdges), Each(BuildStep, index.buildOwnershipEdges);
    var c, d := Each(InheritanceStep, index.inheritanceEdges), Each(OverlayStep, index.overlayEdges);
    var calls := AddAll(map[], index.callEdges, CallStep);
    var builds := AddAll(calls, index.buildOwnershipEdges, BuildStep);
    var inheritance := AddAll(builds, index.inheritanceEdges, InheritanceStep);
    var overlays := AddAll(inheritance, index.overlayEdges, OverlayStep);
    AddAllSteps(map[], index.callEdges, CallStep, s);
    AddAllSteps(calls, index.buildOwnershipEdges, BuildStep, s);
    AddAllSteps(builds, index.inheritanceEdges, InheritanceStep, s);
    AddAllSteps(inheritance, index.overlayEdges, OverlayStep, s);
    AddAllSteps(overlays, index.references, ReferenceStep, s);
    FlatMapConcat(Leaving(s).Out, a, b);
    FlatMapConcat(Leaving(s).Out, a + b, c);
    FlatMapConcat(Leaving(s).Out, a + b + c, d);
    FlatMapConcat(Leaving(s).Out, a + b + c + d, Each(ReferenceStep, index.references));
    assert Steps(map[], s) + FlatMap(Leaving(s).Out, a) == FlatMap(Leaving(s).Out, a);
  }

  function PlacesFrom(index: SemanticIndexV2, s: string): seq<nat> {
    Places(Leaving(s).Out, IndexEdges(index))
  }

  /** The places of the steps out of a node: ascending, each that of its step, and none is passed over. */
  lemma StepsInOrder(index: SemanticIndexV2, s: string)
    ensures var steps, places := Steps(AdjacencyOf(index), s), PlacesFrom(index, s);
      && |places| == |steps| && Ascends(places)
      && (forall k :: 0 <= k < |steps| ==> EdgeAt(index, places[k], s, steps[k].next, steps[k].kind))
      && forall n: nat, t, kind :: EdgeAt(index, n, s, t, kind) ==> n in places
  {
    var steps, places := Steps(AdjacencyOf(index), s), PlacesFrom(index, s);
    StepsAre(index, s);
    PlacesMean(Leaving(s).Out, IndexEdges(index));
    forall k | 0 <= k < |steps|
      ensures EdgeAt(index, places[k], s, steps[k].next, steps[k].kind)
    {
      EdgeAtMeans(index, places[k], s, steps[k].next, steps[k].kind);
    }
    forall n: nat, t, kind | EdgeAt(index, n, s, t, kind)
      ensures n in places
    {
      EdgeAtMeans(index, n, s, t, kind);
    }
  }

  // ---------------------------------------------------------------------------
  // Walks as lists of places.

  /** The places hold the edges of the walk, one after the other. */
  ghost predicate Follows(index: SemanticIndexV2, places: seq<nat>, nodes: seq<string>, kinds: seq<string>) {
    && |nodes| == |places| + 1 && |kinds| == |places|
    && forall k :: 0 <= k < |places| ==> EdgeAt(index, places[k], nodes[k], nodes[k + 1], kinds[k])
  }

  /** ... from one node to another. */
  ghost predicate Leads(index: SemanticIndexV2, places: seq<nat>, nodes: seq<string>, kinds: seq<string>, s: string,
                        t: string)
  {
    Follows(index, places, nodes, kinds) && nodes[0] == s && nodes[|kinds|] == t
  }

  function PlaceOf(index: SemanticIndexV2, node: string, i: nat): nat {
    if i < |PlacesFrom(index, node)| then PlacesFrom(index, node)[i] else 0
  }

  /** Each place is that of the step the trace takes. */
  ghost predicate Marks(index: SemanticIndexV2, start: string, t: Trace, places: seq<nat>) {
    && End(AdjacencyOf(index), start, t).Some? && |places| == |t|
    && forall k :: 0 <= k < |t| ==>
         places[k] == PlaceOf(index, Nodes(AdjacencyOf(index), start, t)[k], t[k])
  }

  lemma TraceHasPlaces(index: SemanticIndexV2, start: string, t: Trace) returns (places: seq<nat>)
    requires End(AdjacencyOf(index), start, t).Some?
    ensures Marks(index, start, t, places)
    ensures Follows(index, places, Nodes(AdjacencyOf(index), start, t), Kinds(AdjacencyOf(index), start, t))
  {
    var adj := AdjacencyOf(index);
    var nodes, kinds := Nodes(adj, start, t), Kinds(adj, start, t);
    places := seq(|t|, k requires 0 <= k < |t| => PlaceOf(index, nodes[k], t[k]));
    forall k | 0 <= k < |t|
      ensures EdgeAt(index, places[k], nodes[k], nodes[k + 1], kinds[k])
    {
      EndOfPrefix(adj, start, t, k);
      StepsInOrder(index, nodes[k]);
    }
  }

  lemma StepAtPlace(index: SemanticIndexV2, n: nat, s: string, t: string, kind: string) returns (i: nat)
    requires EdgeAt(index, n, s, t, kind)
    ensures i < |Steps(AdjacencyOf(index), s)| && Steps(AdjacencyOf(index), s)[i] == Step(t, kind)
    ensures PlaceOf(index, s, i) == n
  {
    StepsInOrder(index, s);
    i :| 0 <= i < |PlacesFrom(index, s)| && PlacesFrom(index, s)[i] == n;
    EdgeAtMeans(index, n, s, t, kind);
    var step := Steps(AdjacencyOf(index), s)[i];
    EdgeAtMeans(index, n, s, step.next, step.kind);
  }

  lemma FollowsFront(index: SemanticIndexV2, places: seq<nat>, nodes: seq<string>, kinds: seq<string>)
    requires Follows(index, places, nodes, kinds) && places != []
    ensures var n := |places|; Follows(index, places[..n - 1], nodes[..n], kinds[..n - 1])
  {}

  lemma {:induction false} PlacesHaveTrace(index: SemanticIndexV2, places: seq<nat>, nodes: seq<string>,
                                           kinds: seq<string>)
    returns (t: Trace)
    requires Follows(index, places, nodes, kinds)
    ensures Marks(index, nodes[0], t, places)
    ensures Nodes(AdjacencyOf(index), nodes[0], t) == nodes
    ensures End(AdjacencyOf(index), nodes[0], t) == Some(nodes[|kinds|])
  {
    var n := |places|;
    if n == 0 {
      t := [];
    } else {
      assert places == places[..n - 1] + [places[n - 1]] && nodes == nodes[..n] + [nodes[n]];
      FollowsFront(index, places, nodes, kinds);
      var front := PlacesHaveTrace(index, places[..n - 1], nodes[..n], kinds[..n - 1]);
      var i := StepAtPlace(index, places[n - 1], nodes[n - 1], nodes[n], kinds[n - 1]);
      t := front + [i];
      OneMoreNode(AdjacencyOf(index), nodes[0], front, i);
      OneMoreMark(index, nodes[0], front, i, places[..n - 1], places[n - 1]);
    }
  }

  /** A trace goes on with one more step. */
  lemma OneMoreNode(adj: Adjacency, start: string, front: Trace, i: nat)
    requires End(adj, start, front).Some? && i < |Steps(adj, End(adj, start, front).value)|
    ensures End(adj, start, front + [i]) == Some(Steps(adj, End(adj, start, front).value)[i].next)
    ensures Nodes(adj, start, front + [i]) == Nodes(adj, start, front) + [End(adj, start, front + [i]).value]
  {
    assert (front + [i])[..|front|] == front;
  }

  lemma OneMoreMark(index: SemanticIndexV2, start: string, front: Trace, i: nat, places: seq<nat>, n: nat)
    requires Marks(index, start, front, places)
    requires var end := End(AdjacencyOf(index), start, front).value;
             i < |Steps(AdjacencyOf(index), end)| && PlaceOf(index, end, i) == n
    ensures Marks(index, start, front + [i], places + [n])
  {
    var nodes := Nodes(AdjacencyOf(index), start, front);
    OneMoreNode(AdjacencyOf(index), start, front, i);
    LastNode(AdjacencyOf(index), start, front);
    forall k | 0 <= k <= |front|
      ensures (places + [n])[k] == PlaceOf(index, Nodes(AdjacencyOf(index), start, front + [i])[k], (front + [i])[k])
    {
      assert Nodes(AdjacencyOf(index), start, front + [i])[k] == nodes[k];
    }
  }

  lemma LastNode(adj: Adjacency, start: string, t: Trace)
    requires End(adj, start, t).Some?
    ensures Nodes(adj, start, t)[|t|] == End(adj, start, t).value
  {}

  // ---------------------------------------------------------------------------
  // The order of traces is the order of their places.

  /** One list comes before another of the same length at the first position where they differ. */
  lemma {:induction false} LexLessAt(a: seq<nat>, b: seq<nat>) returns (d: nat)
    requires LexLess(a, b) && |a| == |b|
    ensures d < |a| && a[..d] == b[..d] && a[d] < b[d]
  {
    if a[0] < b[0] {
      d := 0;
    } else {
      d := LexLessAt(a[1..], b[1..]);
      d := d + 1;
      assert a[..d] == [a[0]] + a[1..][..d - 1] && b[..d] == [b[0]] + b[1..][..d - 1];
    }
  }

  lemma {:induction false} LexLessFrom(a: seq<nat>, b: seq<nat>, d: nat)
    requires d < |a| == |b| && a[..d] == b[..d] && a[d] < b[d]
    ensures LexLess(a, b)
  {
    if d > 0 {
      assert a[0] == a[..d][0] == b[..d][0] == b[0];
      assert a[1..][..d - 1] == a[..d][1..] && b[1..][..d - 1] == b[..d][1..];
      LexLessFrom(a[1..], b[1..], d - 1);
    }
  }

  lemma SharedNodes(adj: Adjacency, start: string, t: Trace, u: Trace, d: nat, k: nat)
    requires End(adj, start, t).Some? && End(adj, start, u).Some?
    requires d <= |t| && d <= |u| && t[..d] == u[..d] && k <= d
    ensures Nodes(adj, start, t)[k] == Nodes(adj, start, u)[k]
  {
    EndOfPrefix(adj, start, t, k);
    EndOfPrefix(adj, start, u, k);
    assert t[..k] == t[..d][..k] == u[..d][..k] == u[..k];
  }

  /** Where two traces part, the later step stands at a later place. */
  lemma LaterStepIsLater(index: SemanticIndexV2, start: string, t: Trace, u: Trace, d: nat)
    requires End(AdjacencyOf(index), start, t).Some? && End(AdjacencyOf(index), start, u).Some?
    requires d < |t| && d < |u| && t[..d] == u[..d] && t[d] < u[d]
    ensures PlaceOf(index, Nodes(AdjacencyOf(index), start, t)[d], t[d]) <
            PlaceOf(index, Nodes(AdjacencyOf(index), start, u)[d], u[d])
  {
    var adj := AdjacencyOf(index);
    SharedNodes(adj, start, t, u, d, d);
    EndOfPrefix(adj, start, t, d);
    EndOfPrefix(adj, start, u, d);
    StepsInOrder(index, Nodes(adj, start, t)[d]);
  }

  /** As long as two traces agree, so do their places. */
  lemma SamePlaces(index: SemanticIndexV2, start: string, t: Trace, u: Trace, d: nat, a: seq<nat>, b: seq<nat>)
    requires Marks(index, start, t, a) && Marks(index, start, u, b)
    requires d <= |t| && d <= |u| && t[..d] == u[..d]
    ensures a[..d] == b[..d]
  {
    forall k | 0 <= k < d
      ensures a[k] == b[k]
    {
      SharedNodes(AdjacencyOf(index), start, t, u, d, k);
      assert t[k] == t[..d][k] == u[..d][k] == u[k];
    }
  }

  lemma OrderCarries(index: SemanticIndexV2, start: string, t: Trace, u: Trace, a: seq<nat>, b: seq<nat>)
    requires Marks(index, start, t, a) && Marks(index, start, u, b)
    requires NotAfter(t, u)
    ensures NotAfter(a, b)
  {
    if t == u {
      SamePlaces(index, start, t, u, |t|, a, b);
      assert a[..|t|] == a && b[..|t|] == b;
    } else if |t| == |u| {
      var d := LexLessAt(t, u);
      SamePlaces(index, start, t, u, d, a, b);
      LaterStepIsLater(index, start, t, u, d);
      LexLessFrom(a, b, d);
    }
  }

  /** The path found comes first: its edges stand at places such that every other list of places that leads
      from the one node to the other is longer, or as long and later at the first place that differs. */
  lemma PathIsFirst(index: SemanticIndexV2, s: string, t: string, maxDepth: int) returns (places: seq<nat>)
    requires DeepeningSearch(AdjacencyOf(index), s, t, maxDepth).Some?
    ensures var path := DeepeningSearch(AdjacencyOf(index), s, t, maxDepth).value;
            Follows(index, places, path.nodes, path.edges)
    ensures forall others, nodes, kinds :: Leads(index, others, nodes, kinds, s, t) ==> NotAfter(places, others)
  {
    var adj := AdjacencyOf(index);
    FirstFromIsFirst(adj, s, t, 0, Depth(maxDepth));
    var trace := FirstFrom(adj, s, t, 0, Depth(maxDepth)).value;
    places := TraceHasPlaces(index, s, trace);
    forall others, nodes, kinds | Leads(index, others, nodes, kinds, s, t)
      ensures NotAfter(places, others)
    {
      var other := PlacesHaveTrace(index, others, nodes, kinds);
      OrderCarries(index, s, trace, other, places, others);
    }
  }
}
