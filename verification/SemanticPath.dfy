/** `shortestSemanticPath`: the depth-bounded breadth-first search, proved equal to a
    depth-first search with iterative deepening that keeps no queue and no visited set. */
module SemanticPath {
  import opened Options
  import opened Text
  import opened Traces

  /** The `Nodes` and `Edges` of a `SemanticPathV2`. */
  datatype Path = Path(nodes: seq<string>, edges: seq<string>)

  function PathOf(adj: Adjacency, start: string, t: Trace): Path
    requires End(adj, start, t).Some?
  {
    Path(Nodes(adj, start, t), Kinds(adj, start, t))
  }

  /** A search with a negative bound behaves as with bound zero. */
  function Depth(maxDepth: int): nat {
    if maxDepth < 0 then 0 else maxDepth
  }

  // ---------------------------------------------------------------------------
  // Reference search: try every length in turn, and every edge in order.

  function FirstOfLength(adj: Adjacency, node: string, target: string, k: nat): Option<Trace>
    decreases k, |Steps(adj, node)| + 1
  {
    if k == 0 then (if node == target then Some([]) else None)
    else FirstThrough(adj, node, target, k, 0)
  }

  function FirstThrough(adj: Adjacency, node: string, target: string, k: nat, i: nat): Option<Trace>
    requires k > 0 && i <= |Steps(adj, node)|
    decreases k, |Steps(adj, node)| - i
  {
    if i == |Steps(adj, node)| then None
    else
      match FirstOfLength(adj, Steps(adj, node)[i].next, target, k - 1)
      case Some(t) => Some([i] + t)
      case None => FirstThrough(adj, node, target, k, i + 1)
  }

  function FirstFrom(adj: Adjacency, start: string, target: string, k: nat, depth: nat): Option<Trace>
    decreases depth + 1 - k
  {
    if k > depth then None
    else
      match FirstOfLength(adj, start, target, k)
      case Some(t) => Some(t)
      case None => FirstFrom(adj, start, target, k + 1, depth)
  }

  lemma EndOfCons(adj: Adjacency, node: string, i: nat, t: Trace)
    requires i < |Steps(adj, node)|
    ensures End(adj, node, [i] + t) == End(adj, Steps(adj, node)[i].next, t)
  {
    assert [i][..0] == [];
    EndOfConcat(adj, node, [i], t);
  }

  lemma EndNeedsFirstStep(adj: Adjacency, node: string, t: Trace)
    requires t != [] && End(adj, node, t).Some?
    ensures t[0] < |Steps(adj, node)|
    ensures End(adj, node, t) == End(adj, Steps(adj, node)[t[0]].next, t[1..])
  {
    EndOfPrefix(adj, node, t, 0);
    EndOfCons(adj, node, t[0], t[1..]);
    assert [t[0]] + t[1..] == t;
  }

  /** `r` is the least of the traces of length `k` to `target` whose first position is at least `from`. */
  ghost predicate LeastOfLength(adj: Adjacency, node: string, target: string, k: nat, from: nat, r: Option<Trace>) {
    && (r.Some? ==> Candidate(adj, node, target, k, from, r.value))
    && forall u: Trace :: Candidate(adj, node, target, k, from, u) ==> r.Some? && (u == r.value || LexLess(r.value, u))
  }

  ghost predicate Candidate(adj: Adjacency, node: string, target: string, k: nat, from: nat, u: Trace) {
    |u| == k && (k > 0 ==> from <= u[0]) && End(adj, node, u) == Some(target)
  }

  lemma {:induction false} FirstOfLengthIsLeast(adj: Adjacency, node: string, target: string, k: nat)
    ensures LeastOfLength(adj, node, target, k, 0, FirstOfLength(adj, node, target, k))
    decreases k, |Steps(adj, node)| + 1
  {
    if k > 0 {
      FirstThroughIsLeast(adj, node, target, k, 0);
    }
  }

  lemma {:induction false} FirstThroughIsLeast(adj: Adjacency, node: string, target: string, k: nat, i: nat)
    requires k > 0 && i <= |Steps(adj, node)|
    ensures LeastOfLength(adj, node, target, k, i, FirstThrough(adj, node, target, k, i))
    decreases k, |Steps(adj, node)| - i
  {
    var r := FirstThrough(adj, node, target, k, i);
    if i < |Steps(adj, node)| {
      FirstOfLengthIsLeast(adj, Steps(adj, node)[i].next, target, k - 1);
      FirstThroughIsLeast(adj, node, target, k, i + 1);
      var here := FirstOfLength(adj, Steps(adj, node)[i].next, target, k - 1);
      if here.Some? {
        EndOfCons(adj, node, i, here.value);
      }
    }
    forall u: Trace | Candidate(adj, node, target, k, i, u)
      ensures r.Some? && (u == r.value || LexLess(r.value, u))
    {
      EndNeedsFirstStep(adj, node, u);
      LeastThrough(adj, node, target, k, i, u);
    }
  }

  lemma LeastThrough(adj: Adjacency, node: string, target: string, k: nat, i: nat, u: Trace)
    requires k > 0 && i < |Steps(adj, node)|
    requires var next := Steps(adj, node)[i].next;
      LeastOfLength(adj, next, target, k - 1, 0, FirstOfLength(adj, next, target, k - 1))
    requires LeastOfLength(adj, node, target, k, i + 1, FirstThrough(adj, node, target, k, i + 1))
    requires Candidate(adj, node, target, k, i, u)
    ensures var r := FirstThrough(adj, node, target, k, i); r.Some? && (u == r.value || LexLess(r.value, u))
  {
    EndNeedsFirstStep(adj, node, u);
    assert u == [u[0]] + u[1..];
    if u[0] == i {
      assert Candidate(adj, Steps(adj, node)[i].next, target, k - 1, 0, u[1..]);
    } else {
      assert Candidate(adj, node, target, k, i + 1, u);
    }
    var here := FirstOfLength(adj, Steps(adj, node)[i].next, target, k - 1);
    if here.Some? {
      assert ([i] + here.value)[1..] == here.value;
    }
  }

  lemma {:induction false} FirstFromIsFirst(adj: Adjacency, start: string, target: string, k: nat, depth: nat)
    requires forall u: Trace :: |u| < k ==> End(adj, start, u) != Some(target)
    ensures match FirstFrom(adj, start, target, k, depth)
            case Some(t) => |t| <= depth && IsFirst(adj, start, target, t)
            case None => forall u: Trace :: |u| <= depth ==> End(adj, start, u) != Some(target)
    decreases depth + 1 - k
  {
    if k <= depth {
      FirstOfLengthIsLeast(adj, start, target, k);
      forall u: Trace | |u| == k && End(adj, start, u) == Some(target)
        ensures Candidate(adj, start, target, k, 0, u)
      {}
      if FirstOfLength(adj, start, target, k).None? {
        FirstFromIsFirst(adj, start, target, k + 1, depth);
      }
    }
  }

  function DeepeningSearch(adj: Adjacency, start: string, target: string, maxDepth: int): Option<Path> {
    match FirstFrom(adj, start, target, 0, Depth(maxDepth))
    case None => None
    case Some(t) =>
      FirstFromIsFirst(adj, start, target, 0, Depth(maxDepth));
      Some(PathOf(adj, start, t))
  }

  lemma DeepeningOfFirst(adj: Adjacency, start: string, target: string, maxDepth: int, t: Trace)
    requires IsFirst(adj, start, target, t) && |t| <= Depth(maxDepth)
    ensures DeepeningSearch(adj, start, target, maxDepth) == Some(PathOf(adj, start, t))
  {
    FirstFromIsFirst(adj, start, target, 0, Depth(maxDepth));
    FirstIsUnique(adj, start, target, t, FirstFrom(adj, start, target, 0, Depth(maxDepth)).value);
  }

  lemma DeepeningOfNone(adj: Adjacency, start: string, target: string, maxDepth: int)
    requires forall u: Trace :: |u| <= Depth(maxDepth) ==> End(adj, start, u) != Some(target)
    ensures DeepeningSearch(adj, start, target, maxDepth) == None
  {
    FirstFromIsFirst(adj, start, target, 0, Depth(maxDepth));
  }

  // ---------------------------------------------------------------------------
  // What a found path is.

  /** A path is found exactly when some walk of at most `maxDepth` edges joins the two nodes; it is
      such a walk, no walk joining them is shorter, and it visits no node twice. */
  lemma SearchMeaning(adj: Adjacency, start: string, target: string, maxDepth: int)
    ensures var r := DeepeningSearch(adj, start, target, maxDepth);
      && (r.Some? <==> exists nodes, kinds :: Joins(adj, start, target, nodes, kinds) && |kinds| <= Depth(maxDepth))
      && (r.Some? ==>
            && Joins(adj, start, target, r.value.nodes, r.value.edges)
            && |r.value.edges| <= Depth(maxDepth)
            && Distinct(r.value.nodes)
            && forall nodes, kinds :: Joins(adj, start, target, nodes, kinds) ==> |r.value.edges| <= |kinds|)
  {
    FirstFromIsFirst(adj, start, target, 0, Depth(maxDepth));
    var r := DeepeningSearch(adj, start, target, maxDepth);
    if r.Some? {
      var t := FirstFrom(adj, start, target, 0, Depth(maxDepth)).value;
      TraceIsWalk(adj, start, t);
      forall i, j | 0 <= i < j < |r.value.nodes|
        ensures r.value.nodes[i] != r.value.nodes[j]
      {
        FirstIsSimple(adj, start, target, t, i, j);
      }
    }
    forall nodes, kinds | Joins(adj, start, target, nodes, kinds)
      ensures r.Some? || |kinds| > Depth(maxDepth)
      ensures r.Some? ==> |r.value.edges| <= |kinds|
    {
      var u := WalkHasTrace(adj, nodes, kinds);
    }
  }

  // ---------------------------------------------------------------------------
  // The breadth-first search.

  /** The `state` struct of the search queue. */
  datatype State = State(node: string, nodes: seq<string>, edges: seq<string>)

  /** The nodes discovered so far, in order, each with the trace it was discovered through. */
  ghost predicate Log(adj: Adjacency, start: string, depth: nat, order: seq<string>, found: seq<Trace>) {
    && |order| == |found| > 0 && Distinct(order)
    && order[0] == start && found[0] == []
    && (forall k :: 0 <= k < |found| ==> End(adj, start, found[k]) == Some(order[k]) && |found[k]| <= depth)
    && (forall a, b :: 0 <= a < b < |found| ==> Precedes(found[a], found[b]))
  }

  ghost predicate Describes(adj: Adjacency, start: string, node: string, t: Trace, q: State) {
    && End(adj, start, t) == Some(node)
    && q == State(node, Nodes(adj, start, t), Kinds(adj, start, t))
  }

  /** The queue is the part of the log from position `h` on. */
  ghost predicate Queued(adj: Adjacency, start: string, order: seq<string>, found: seq<Trace>, h: nat,
                         queue: seq<State>)
    requires |order| == |found|
  {
    && h + |queue| == |order|
    && forall k :: 0 <= k < |queue| ==> Describes(adj, start, order[h + k], found[h + k], queue[k])
  }

  /** `node` was discovered through a trace that does not come after `t`. */
  ghost predicate Reached(order: seq<string>, found: seq<Trace>, node: string, t: Trace)
    requires |order| == |found|
  {
    exists b :: 0 <= b < |order| && order[b] == node && NotAfter(found[b], t)
  }

  /** The first `upTo` steps from `node` lead to nodes discovered no later than through `t`. */
  ghost predicate StepsReached(adj: Adjacency, order: seq<string>, found: seq<Trace>, node: string, t: Trace, upTo: nat)
    requires |order| == |found| && upTo <= |Steps(adj, node)|
  {
    forall j :: 0 <= j < upTo ==> Reached(order, found, Steps(adj, node)[j].next, t + [j])
  }

  /** The nodes before position `h` have had all their steps looked at, unless they sit at the bound. */
  ghost predicate Explored(adj: Adjacency, depth: nat, order: seq<string>, found: seq<Trace>, h: nat)
    requires |order| == |found| && h <= |order|
  {
    forall a :: 0 <= a < h && |found[a]| < depth ==>
      StepsReached(adj, order, found, order[a], found[a], |Steps(adj, order[a])|)
  }

  /** A trace that comes before everything from position `h` on ends in a node reached no later. */
  lemma {:induction false} Covered(adj: Adjacency, start: string, depth: nat, order: seq<string>, found: seq<Trace>,
                                   h: nat, t: Trace)
    requires Log(adj, start, depth, order, found) && h <= |order| && Explored(adj, depth, order, found, h)
    requires End(adj, start, t).Some? && |t| <= depth
    requires forall b :: h <= b < |found| ==> !Precedes(found[b], t)
    ensures Reached(order, found, End(adj, start, t).value, t)
  {
    if t != [] {
      var front, j := t[..|t| - 1], t[|t| - 1];
      var u := End(adj, start, front).value;
      assert front + [j] == t;
      assert forall b :: h <= b < |found| ==> !Precedes(found[b], front);
      Covered(adj, start, depth, order, found, h, front);
      var a :| 0 <= a < |order| && order[a] == u && NotAfter(found[a], front);
      PrecedesTransitive(found[a], front, t);
      assert StepsReached(adj, order, found, u, found[a], |Steps(adj, u)|);
      var w := Steps(adj, u)[j].next;
      assert Reached(order, found, w, found[a] + [j]);
      if found[a] != front {
        var b :| 0 <= b < |order| && order[b] == w && NotAfter(found[b], found[a] + [j]);
        PrecedesExtends(found[a], front, j, j);
        PrecedesTransitive(found[b], found[a] + [j], t);
      }
    }
  }

  /** The node at the head of the queue was reached by the first trace to it. */
  lemma HeadIsFirst(adj: Adjacency, start: string, depth: nat, order: seq<string>, found: seq<Trace>, h: nat)
    requires Log(adj, start, depth, order, found) && h < |order| && Explored(adj, depth, order, found, h)
    ensures IsFirst(adj, start, order[h], found[h])
  {
    forall t: Trace | End(adj, start, t) == Some(order[h])
      ensures NotAfter(found[h], t)
    {
      PrecedesTotal(found[h], t);
      if Precedes(t, found[h]) {
        forall b | h <= b < |found|
          ensures !Precedes(found[b], t)
        {
          PrecedesTotal(found[b], t);
          if b > h {
            PrecedesTransitive(t, found[h], found[b]);
          }
        }
        Covered(adj, start, depth, order, found, h, t);
      }
    }
  }

  /** Once nothing waits, every node within the bound has been discovered. */
  lemma ExhaustedMeansUnreachable(adj: Adjacency, start: string, depth: nat, order: seq<string>, found: seq<Trace>,
                                  target: string)
    requires Log(adj, start, depth, order, found) && Explored(adj, depth, order, found, |order|)
    requires target !in order
    ensures forall t: Trace :: |t| <= depth ==> End(adj, start, t) != Some(target)
  {
    forall t: Trace | |t| <= depth
      ensures End(adj, start, t) != Some(target)
    {
      if End(adj, start, t) == Some(target) {
        Covered(adj, start, depth, order, found, |order|, t);
      }
    }
  }

  /** What holds between two rounds of the outer loop. */
  ghost predicate Invariant(adj: Adjacency, start: string, depth: nat, target: string,
                            order: seq<string>, found: seq<Trace>, h: nat, queue: seq<State>)
  {
    && Log(adj, start, depth, order, found) && Queued(adj, start, order, found, h, queue)
    && Explored(adj, depth, order, found, h) && target !in order[..h]
    && (h < |order| ==> Precedes(found[|found| - 1], found[h] + [0]))
  }

  /** What holds while the first `i` steps of the node at position `h` have been looked at. */
  ghost predicate Expanding(adj: Adjacency, start: string, depth: nat, target: string,
                            order: seq<string>, found: seq<Trace>, h: nat, queue: seq<State>, i: nat)
  {
    && Log(adj, start, depth, order, found) && h < |order| && Queued(adj, start, order, found, h + 1, queue)
    && Explored(adj, depth, order, found, h) && target !in order[..h + 1]
    && i <= |Steps(adj, order[h])|
    && StepsReached(adj, order, found, order[h], found[h], i)
    && Precedes(found[|found| - 1], found[h] + [i])
  }

  /** The log only grows, so what was reached stays reached. */
  lemma ReachedGrows(adj: Adjacency, depth: nat, order: seq<string>, found: seq<Trace>, h: nat, i: nat, w: string,
                     t: Trace)
    requires |order| == |found| && h < |order| && i <= |Steps(adj, order[h])|
    requires Explored(adj, depth, order, found, h) && StepsReached(adj, order, found, order[h], found[h], i)
    ensures Explored(adj, depth, order + [w], found + [t], h)
    ensures StepsReached(adj, order + [w], found + [t], order[h], found[h], i)
  {
    var order', found' := order + [w], found + [t];
    forall node, u | Reached(order, found, node, u)
      ensures Reached(order', found', node, u)
    {
      var b :| 0 <= b < |order| && order[b] == node && NotAfter(found[b], u);
      assert order'[b] == node && NotAfter(found'[b], u);
    }
    forall a | 0 <= a < h && |found[a]| < depth
      ensures StepsReached(adj, order', found', order[a], found[a], |Steps(adj, order[a])|)
    {
      assert StepsReached(adj, order, found, order[a], found[a], |Steps(adj, order[a])|);
    }
  }

  /** Discovering the `i`-th neighbour of the node at position `h` appends it to the log and the queue. */
  lemma Discover(adj: Adjacency, start: string, depth: nat, target: string, order: seq<string>, found: seq<Trace>,
                 h: nat, queue: seq<State>, i: nat, w: string, t: Trace, q: State)
    requires Expanding(adj, start, depth, target, order, found, h, queue, i)
    requires |found[h]| < depth && i < |Steps(adj, order[h])|
    requires w == Steps(adj, order[h])[i].next && w !in order && t == found[h] + [i]
    requires Describes(adj, start, w, t, q)
    ensures Expanding(adj, start, depth, target, order + [w], found + [t], h, queue + [q], i + 1)
  {
    var order', found' := order + [w], found + [t];
    ReachedGrows(adj, depth, order, found, h, i, w, t);
    assert order'[|order|] == w && NotAfter(found'[|order|], t);
    assert Reached(order', found', w, t);
    PrecedesExtends(found[h], found[h], i, i + 1);
    LogGrows(adj, start, depth, order, found, w, t);
    assert order'[..h + 1] == order[..h + 1];
  }

  lemma LogGrows(adj: Adjacency, start: string, depth: nat, order: seq<string>, found: seq<Trace>, w: string, t: Trace)
    requires Log(adj, start, depth, order, found) && w !in order
    requires End(adj, start, t) == Some(w) && |t| <= depth && Precedes(found[|found| - 1], t)
    ensures Log(adj, start, depth, order + [w], found + [t])
  {
    forall a | 0 <= a < |found|
      ensures Precedes(found[a], t)
    {
      PrecedesTransitive(found[a], found[|found| - 1], t);
    }
  }

  /** Passing over a neighbour that was already seen changes nothing. */
  lemma PassOver(adj: Adjacency, start: string, depth: nat, target: string, order: seq<string>, found: seq<Trace>,
                 h: nat, queue: seq<State>, i: nat)
    requires Expanding(adj, start, depth, target, order, found, h, queue, i)
    requires i < |Steps(adj, order[h])| && Steps(adj, order[h])[i].next in order
    ensures Expanding(adj, start, depth, target, order, found, h, queue, i + 1)
  {
    SeenIsReached(order, found, Steps(adj, order[h])[i].next, found[h] + [i]);
    NextStepLater(found[|found| - 1], found[h], i);
  }

  lemma NextStepLater(last: Trace, t: Trace, i: nat)
    requires Precedes(last, t + [i])
    ensures Precedes(last, t + [i + 1])
  {
    PrecedesExtends(t, t, i, i + 1);
    PrecedesTransitive(last, t + [i], t + [i + 1]);
  }

  /** A node already in the log was reached by a trace before any that comes after the log. */
  lemma SeenIsReached(order: seq<string>, found: seq<Trace>, node: string, t: Trace)
    requires |order| == |found| && node in order && found != [] && Precedes(found[|found| - 1], t)
    requires forall a, b :: 0 <= a < b < |found| ==> Precedes(found[a], found[b])
    ensures Reached(order, found, node, t)
  {
    var b :| 0 <= b < |order| && order[b] == node;
    PrecedesTransitive(found[b], found[|found| - 1], t);
  }

  /** Taking the head off the queue. */
  lemma Dequeue(adj: Adjacency, start: string, depth: nat, target: string, order: seq<string>, found: seq<Trace>,
                h: nat, queue: seq<State>)
    requires Invariant(adj, start, depth, target, order, found, h, queue) && queue != []
    ensures h < |order| && Describes(adj, start, order[h], found[h], queue[0])
    ensures IsFirst(adj, start, order[h], found[h]) && |found[h]| <= depth
    ensures order[h] != target ==> Expanding(adj, start, depth, target, order, found, h, queue[1..], 0)
  {
    QueuedTail(adj, start, order, found, h, queue);
    HeadIsFirst(adj, start, depth, order, found, h);
    assert order[..h + 1] == order[..h] + [order[h]];
  }

  lemma QueuedTail(adj: Adjacency, start: string, order: seq<string>, found: seq<Trace>, h: nat, queue: seq<State>)
    requires |order| == |found| && Queued(adj, start, order, found, h, queue) && queue != []
    ensures h < |order| && Describes(adj, start, order[h], found[h], queue[0])
    ensures Queued(adj, start, order, found, h + 1, queue[1..])
  {
    assert Describes(adj, start, order[h + 0], found[h + 0], queue[0]);
    forall k | 0 <= k < |queue[1..]|
      ensures Describes(adj, start, order[h + 1 + k], found[h + 1 + k], queue[1..][k])
    {
      assert Describes(adj, start, order[h + (k + 1)], found[h + (k + 1)], queue[k + 1]);
    }
  }

  /** Closing a node, whether its steps were all looked at or it sat at the depth bound. */
  lemma Finish(adj: Adjacency, start: string, depth: nat, target: string, order: seq<string>, found: seq<Trace>,
               h: nat, queue: seq<State>, i: nat)
    requires Expanding(adj, start, depth, target, order, found, h, queue, i)
    requires |found[h]| < depth ==> i == |Steps(adj, order[h])|
    ensures Invariant(adj, start, depth, target, order, found, h + 1, queue)
  {
    if h + 1 < |order| {
      PrecedesExtends(found[h], found[h + 1], i, 0);
      PrecedesTransitive(found[|found| - 1], found[h] + [i], found[h + 1] + [0]);
    }
  }

  /** The copied slices of a child state are the nodes and edge types along its trace. */
  lemma ChildState(adj: Adjacency, start: string, node: string, t: Trace, current: State, i: nat)
    requires Describes(adj, start, node, t, current) && i < |Steps(adj, node)|
    ensures var step := Steps(adj, node)[i];
      Describes(adj, start, step.next, t + [i],
                State(step.next, current.nodes + [step.next], current.edges + [step.kind]))
  {
    assert (t + [i])[..|t + [i]| - 1] == t;
  }

  /** Every node an edge leads to is in `universe`. */
  ghost predicate Closed(adj: Adjacency, universe: set<string>) {
    forall node, i :: 0 <= i < |Steps(adj, node)| ==> Steps(adj, node)[i].next in universe
  }

  lemma FiniteUniverse(adj: Adjacency, start: string) returns (universe: set<string>)
    ensures start in universe && Closed(adj, universe)
  {
    universe := {start} + set node, i | node in adj && 0 <= i < |adj[node]| :: adj[node][i].next;
    forall node, i | 0 <= i < |Steps(adj, node)|
      ensures Steps(adj, node)[i].next in universe
    {
      assert adj[node][i].next in universe;
    }
  }

  /** The log lists distinct nodes of a finite universe, so it cannot grow for ever. */
  lemma LogIsBounded(order: seq<string>, universe: set<string>)
    requires Distinct(order) && (forall v :: v in order ==> v in universe)
    ensures |order| <= |universe|
  {
    if order != [] {
      var last := order[|order| - 1];
      LogIsBounded(order[..|order| - 1], universe - {last});
    }
  }

  /** The loop over the steps of the node just taken off the queue: unseen neighbours are marked and queued. */
  method EnqueueNeighbours(adj: Adjacency, current: State, queue: seq<State>, seen: set<string>,
                           ghost start: string, ghost depth: nat, ghost target: string,
                           ghost order: seq<string>, ghost found: seq<Trace>, ghost h: nat, ghost universe: set<string>)
    returns (queue': seq<State>, seen': set<string>, ghost order': seq<string>, ghost found': seq<Trace>)
    requires Expanding(adj, start, depth, target, order, found, h, queue, 0)
    requires Describes(adj, start, order[h], found[h], current) && |found[h]| < depth
    requires (forall v :: v in seen <==> v in order) && seen <= universe && Closed(adj, universe)
    ensures Expanding(adj, start, depth, target, order', found', h, queue', |Steps(adj, current.node)|)
    ensures forall v :: v in seen' <==> v in order'
    ensures seen' <= universe
    ensures |order'| > h && order'[h] == order[h]
  {
    queue', seen', order', found' := queue, seen, order, found;
    ghost var t := found[h];
    for i := 0 to |Steps(adj, current.node)|
      invariant Expanding(adj, start, depth, target, order', found', h, queue', i)
      invariant order'[h] == current.node && found'[h] == t
      invariant forall v :: v in seen' <==> v in order'
      invariant seen' <= universe
    {
      var step := Steps(adj, current.node)[i];
      if step.next in seen' {
        PassOver(adj, start, depth, target, order', found', h, queue', i);
        continue;
      }
      var child := State(step.next, current.nodes + [step.next], current.edges + [step.kind]);
      ChildState(adj, start, current.node, t, current, i);
      Discover(adj, start, depth, target, order', found', h, queue', i, step.next, t + [i], child);
      seen' := seen' + {step.next};
      queue' := queue' + [child];
      order', found' := order' + [step.next], found' + [t + [i]];
    }
  }

  /** `shortestSemanticPath` finds what the reference search finds. Every node enters the queue at
      most once, which is why the loop ends on cyclic graphs too. */
  method ShortestSemanticPath(adj: Adjacency, startID: string, targetID: string, maxDepth: int)
    returns (r: Option<Path>)
    ensures r == DeepeningSearch(adj, startID, targetID, maxDepth)
  {
    var queue := [State(startID, [startID], [])];
    var seen := {startID};
    ghost var depth := Depth(maxDepth);
    ghost var order: seq<string>, found: seq<Trace>, h := [startID], [[]], 0;
    ghost var universe := FiniteUniverse(adj, startID);
    while queue != []
      invariant Invariant(adj, startID, depth, targetID, order, found, h, queue)
      invariant forall v :: v in seen <==> v in order
      invariant seen <= universe
      decreases |universe| - h
    {
      var current := queue[0];
      Dequeue(adj, startID, depth, targetID, order, found, h, queue);
      LogIsBounded(order, universe);
      queue := queue[1..];
      if current.node == targetID {
        DeepeningOfFirst(adj, startID, targetID, maxDepth, found[h]);
        return Some(Path(current.nodes, current.edges));
      }
      if |current.edges| >= maxDepth {
        Finish(adj, startID, depth, targetID, order, found, h, queue, 0);
        h := h + 1;
        continue;
      }
      queue, seen, order, found :=
        EnqueueNeighbours(adj, current, queue, seen, startID, depth, targetID, order, found, h, universe);
      Finish(adj, startID, depth, targetID, order, found, h, queue, |Steps(adj, current.node)|);
      h := h + 1;
    }
    assert order[..h] == order;
    ExhaustedMeansUnreachable(adj, startID, depth, order, found, targetID);
    DeepeningOfNone(adj, startID, targetID, maxDepth);
    return None;
  }
}
