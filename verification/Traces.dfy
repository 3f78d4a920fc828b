/** Walks through a typed adjacency map, written as traces: the list of edge positions taken.
    Traces carry the order a breadth-first search discovers things in: shorter first, then by
    the first position that differs. */
module Traces {
  import opened Options

  /** `semanticPathStep`. */
  datatype Step = Step(next: string, kind: string)

  type Adjacency = map<string, seq<Step>>

  type Trace = seq<nat>

  /** Reading a Go map at a missing key yields the empty slice. */
  function Steps(adj: Adjacency, node: string): seq<Step> {
    if node in adj then adj[node] else []
  }

  /** The node a trace ends in, if every position it names exists. */
  function End(adj: Adjacency, start: string, t: Trace): Option<string> {
    if t == [] then Some(start)
    else
      match End(adj, start, t[..|t| - 1])
      case None => None
      case Some(node) =>
        var i := t[|t| - 1];
        if i < |Steps(adj, node)| then Some(Steps(adj, node)[i].next) else None
  }

  function Nodes(adj: Adjacency, start: string, t: Trace): (nodes: seq<string>)
    requires End(adj, start, t).Some?
    ensures |nodes| == |t| + 1
  {
    if t == [] then [start]
    else Nodes(adj, start, t[..|t| - 1]) + [End(adj, start, t).value]
  }

  function Kinds(adj: Adjacency, start: string, t: Trace): (kinds: seq<string>)
    requires End(adj, start, t).Some?
    ensures |kinds| == |t|
  {
    if t == [] then []
    else
      var node := End(adj, start, t[..|t| - 1]).value;
      Kinds(adj, start, t[..|t| - 1]) + [Steps(adj, node)[t[|t| - 1]].kind]
  }

  // ---------------------------------------------------------------------------
  // Discovery order.

  predicate LexLess(a: Trace, b: Trace) {
    a != [] && b != [] && (a[0] < b[0] || (a[0] == b[0] && LexLess(a[1..], b[1..])))
  }

  predicate Precedes(a: Trace, b: Trace) {
    |a| < |b| || (|a| == |b| && LexLess(a, b))
  }

  predicate NotAfter(a: Trace, b: Trace) {
    a == b || Precedes(a, b)
  }

  lemma {:induction false} LexLessTransitive(a: Trace, b: Trace, c: Trace)
    requires LexLess(a, b) && LexLess(b, c)
    ensures LexLess(a, c)
  {
    if a[0] == b[0] && b[0] == c[0] {
      LexLessTransitive(a[1..], b[1..], c[1..]);
    }
  }

  lemma PrecedesTransitive(a: Trace, b: Trace, c: Trace)
    requires (NotAfter(a, b) && Precedes(b, c)) || (Precedes(a, b) && NotAfter(b, c))
    ensures Precedes(a, c)
  {
    if a != b && b != c && |a| == |b| == |c| {
      LexLessTransitive(a, b, c);
    }
  }

  lemma {:induction false} LexLessTotal(a: Trace, b: Trace)
    requires |a| == |b|
    ensures LexLess(a, b) || a == b || LexLess(b, a)
    ensures !(LexLess(a, b) && LexLess(b, a)) && !LexLess(a, a)
  {
    if a != [] {
      LexLessTotal(a[1..], b[1..]);
      LexLessTotal(a[1..], a[1..]);
      if a[0] == b[0] && a[1..] == b[1..] {
        assert a == [a[0]] + a[1..] == [b[0]] + b[1..] == b;
      }
    }
  }

  lemma PrecedesTotal(a: Trace, b: Trace)
    ensures NotAfter(a, b) || Precedes(b, a)
    ensures !(NotAfter(a, b) && Precedes(b, a)) && !Precedes(a, a)
  {
    LexLessTotal(a, a);
    if |a| == |b| {
      LexLessTotal(a, b);
    }
  }

  lemma {:induction false} LexLessExtends(a: Trace, b: Trace, i: nat, j: nat)
    requires |a| == |b|
    requires LexLess(a, b) || (a == b && i < j)
    ensures LexLess(a + [i], b + [j])
  {
    if a != [] && a[0] == b[0] {
      assert (a + [i])[1..] == a[1..] + [i];
      assert (b + [j])[1..] == b[1..] + [j];
      LexLessExtends(a[1..], b[1..], i, j);
    }
  }

  /** Extending two traces keeps their order, whatever is appended. */
  lemma PrecedesExtends(a: Trace, b: Trace, i: nat, j: nat)
    requires Precedes(a, b) || (a == b && i < j)
    ensures Precedes(a + [i], b + [j])
  {
    if |a| == |b| {
      LexLessExtends(a, b, i, j);
    }
  }

  /** `t` is the trace a breadth-first search finds first on its way to `target`. */
  ghost predicate IsFirst(adj: Adjacency, start: string, target: string, t: Trace) {
    && End(adj, start, t) == Some(target)
    && forall u: Trace :: End(adj, start, u) == Some(target) ==> NotAfter(t, u)
  }

  lemma FirstIsUnique(adj: Adjacency, start: string, target: string, t: Trace, u: Trace)
    requires IsFirst(adj, start, target, t) && IsFirst(adj, start, target, u)
    ensures t == u
  {
    PrecedesTotal(t, u);
  }

  // ---------------------------------------------------------------------------
  // Traces and walks.

  /** Following `a` and then `b` is following `b` from where `a` ends. */
  lemma {:induction false} EndOfConcat(adj: Adjacency, start: string, a: Trace, b: Trace)
    requires End(adj, start, a).Some?
    ensures End(adj, start, a + b) == End(adj, End(adj, start, a).value, b)
  {
    if b == [] {
      assert a + b == a;
    } else {
      assert (a + b)[..|a + b| - 1] == a + b[..|b| - 1];
      EndOfConcat(adj, start, a, b[..|b| - 1]);
    }
  }

  lemma {:induction false} EndOfPrefix(adj: Adjacency, start: string, t: Trace, k: nat)
    requires End(adj, start, t).Some? && k <= |t|
    ensures End(adj, start, t[..k]).Some?
    ensures Nodes(adj, start, t)[k] == End(adj, start, t[..k]).value
    ensures k < |t| ==>
              var here := Nodes(adj, start, t)[k];
              && t[k] < |Steps(adj, here)|
              && Steps(adj, here)[t[k]] == Step(Nodes(adj, start, t)[k + 1], Kinds(adj, start, t)[k])
  {
    if k == |t| {
      assert t[..k] == t;
    } else {
      var shorter := t[..|t| - 1];
      assert shorter[..k] == t[..k];
      EndOfPrefix(adj, start, shorter, k);
      if k == |shorter| {
        assert shorter[..k] == shorter;
      }
    }
  }

  /** Every consecutive pair of nodes is an adjacency step of the recorded type. */
  ghost predicate IsWalk(adj: Adjacency, nodes: seq<string>, kinds: seq<string>) {
    && |nodes| == |kinds| + 1
    && forall i :: 0 <= i < |kinds| ==> Step(nodes[i + 1], kinds[i]) in Steps(adj, nodes[i])
  }

  ghost predicate Joins(adj: Adjacency, start: string, target: string, nodes: seq<string>, kinds: seq<string>) {
    IsWalk(adj, nodes, kinds) && nodes[0] == start && nodes[|kinds|] == target
  }

  lemma TraceIsWalk(adj: Adjacency, start: string, t: Trace)
    requires End(adj, start, t).Some?
    ensures Joins(adj, start, End(adj, start, t).value, Nodes(adj, start, t), Kinds(adj, start, t))
  {
    var nodes, kinds := Nodes(adj, start, t), Kinds(adj, start, t);
    forall i | 0 <= i < |kinds|
      ensures Step(nodes[i + 1], kinds[i]) in Steps(adj, nodes[i])
    {
      EndOfPrefix(adj, start, t, i);
    }
    EndOfPrefix(adj, start, t, 0);
    EndOfPrefix(adj, start, t, |t|);
    assert t[..|t|] == t;
  }

  lemma {:induction false} WalkHasTrace(adj: Adjacency, nodes: seq<string>, kinds: seq<string>) returns (t: Trace)
    requires IsWalk(adj, nodes, kinds)
    ensures |t| == |kinds| && End(adj, nodes[0], t) == Some(nodes[|kinds|])
  {
    if kinds == [] {
      t := [];
    } else {
      var n := |kinds| - 1;
      var front := WalkHasTrace(adj, nodes[..n + 1], kinds[..n]);
      var step := Step(nodes[n + 1], kinds[n]);
      var i :| 0 <= i < |Steps(adj, nodes[n])| && Steps(adj, nodes[n])[i] == step;
      t := front + [i];
      assert t[..|t| - 1] == front;
    }
  }

  /** A trace that visits a node twice can be cut short. */
  lemma CutLoop(adj: Adjacency, start: string, t: Trace, i: nat, j: nat) returns (cut: Trace)
    requires End(adj, start, t).Some? && i < j <= |t|
    requires Nodes(adj, start, t)[i] == Nodes(adj, start, t)[j]
    ensures |cut| < |t| && End(adj, start, cut) == End(adj, start, t)
  {
    EndOfPrefix(adj, start, t, i);
    EndOfPrefix(adj, start, t, j);
    cut := t[..i] + t[j..];
    EndOfConcat(adj, start, t[..i], t[j..]);
    EndOfConcat(adj, start, t[..j], t[j..]);
    assert t[..j] + t[j..] == t;
  }

  /** The first trace to a node never visits a node twice. */
  lemma FirstIsSimple(adj: Adjacency, start: string, target: string, t: Trace, i: nat, j: nat)
    requires IsFirst(adj, start, target, t) && i < j <= |t|
    ensures Nodes(adj, start, t)[i] != Nodes(adj, start, t)[j]
  {
    if Nodes(adj, start, t)[i] == Nodes(adj, start, t)[j] {
      var cut := CutLoop(adj, start, t, i, j);
    }
  }
}
