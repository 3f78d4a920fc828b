/** Which of the candidate paths the collector keeps, and in which order: start by start, target by target,
    each the first with its key, and of equally short paths the first in the index. */
module CollectionOrder {
  import opened PathCollector
  import opened PathOrder
  import opened SemanticIndex
  import opened SemanticPath
  import opened Sequences
  import opened Text
  import opened Traces

  /** The pair of the `c`-th start and `d`-th target comes before that of the `a`-th and `b`-th. */
  predicate Earlier(starts: seq<string>, targets: seq<string>, c: nat, d: nat, a: nat, b: nat) {
    c < |starts| && d < |targets| && (c < a || (c == a && d < b))
  }

  /** A candidate stands behind those of all earlier pairs. */
  lemma CandidateAt(find: PairFinder, starts: seq<string>, targets: seq<string>, n: nat) returns (a: nat, b: nat)
    requires n < |FoundFromAll(find, starts, targets)|
    ensures a < |starts| && b < |targets| && FoundFromAll(find, starts, targets)[n] in find(starts[a], targets[b])
    ensures forall c: nat, d: nat, q :: Earlier(starts, targets, c, d, a, b) && q in find(starts[c], targets[d]) ==>
              q in FoundFromAll(find, starts, targets)[..n]
  {
    var outer := Sweep(find, targets).From;
    var j, m;
    a, j := FlatMapSplit(outer, starts, n);
    var inner := Origin(find, starts[a]).To;
    b, m := FlatMapSplit(inner, targets, j);
    forall c: nat, d: nat, q | Earlier(starts, targets, c, d, a, b) && q in find(starts[c], targets[d])
      ensures q in FoundFromAll(find, starts, targets)[..n]
    {
      EarlierIsInFront(find, starts, targets, n, a, j, b, m, c, d, q);
    }
  }

  lemma PrefixHolds<T>(a: seq<T>, b: seq<T>, n: nat, x: T)
    requires x in a && |a| <= n <= |a + b|
    ensures x in (a + b)[..n]
  {
    var i :| 0 <= i < |a| && a[i] == x;
    assert (a + b)[..n][i] == x;
  }

  lemma EarlierIsInFront(find: PairFinder, starts: seq<string>, targets: seq<string>, n: nat, a: nat, j: nat, b: nat,
                         m: nat, c: nat, d: nat, q: SemanticPathV2)
    requires n < |FoundFromAll(find, starts, targets)| && a < |starts| && b < |targets|
    requires n == |FoundFromAll(find, starts[..a], targets)| + j && j < |FoundFrom(find, starts[a], targets)|
    requires j == |FoundFrom(find, starts[a], targets[..b])| + m
    requires Earlier(starts, targets, c, d, a, b) && q in find(starts[c], targets[d])
    ensures q in FoundFromAll(find, starts, targets)[..n]
  {
    var front, here := FoundFromAll(find, starts[..a], targets), FoundFrom(find, starts[a], targets);
    var after := FoundFromAll(find, starts[a + 1..], targets);
    SplitAtStart(find, starts, targets, a);
    if c < a {
      HeldByStart(find, starts[..a], targets, c, d, q);
      PrefixHolds(front, here + after, n, q);
    } else {
      var first, second := FoundFrom(find, starts[a], targets[..b]), FoundFrom(find, starts[a], targets[b..]);
      HeldByTarget(find, starts[a], targets[..b], d, q);
      FlatMapConcat(Origin(find, starts[a]).To, targets[..b], targets[b..]);
      assert targets == targets[..b] + targets[b..];
      Regroup(front, first, second, after);
      assert q in front + first;
      PrefixHolds(front + first, second + after, n, q);
    }
  }

  lemma SplitAtStart(find: PairFinder, starts: seq<string>, targets: seq<string>, a: nat)
    requires a < |starts|
    ensures FoundFromAll(find, starts, targets) == FoundFromAll(find, starts[..a], targets) +
              (FoundFrom(find, starts[a], targets) + FoundFromAll(find, starts[a + 1..], targets))
  {
    assert starts == starts[..a] + starts[a..] && starts[a..][1..] == starts[a + 1..];
    FlatMapConcat(Sweep(find, targets).From, starts[..a], starts[a..]);
    FlatMapFront(Sweep(find, targets).From, starts[a..]);
  }

  lemma HeldByTarget(find: PairFinder, start: string, targets: seq<string>, d: nat, q: SemanticPathV2)
    requires d < |targets| && q in find(start, targets[d])
    ensures q in FoundFrom(find, start, targets)
  {
    FlatMapMembers(Origin(find, start).To, targets);
    assert targets[d] in targets && q in Origin(find, start).To(targets[d]);
  }

  lemma HeldByStart(find: PairFinder, starts: seq<string>, targets: seq<string>, c: nat, d: nat, q: SemanticPathV2)
    requires c < |starts| && d < |targets| && q in find(starts[c], targets[d])
    ensures q in FoundFromAll(find, starts, targets)
  {
    HeldByTarget(find, starts[c], targets, d, q);
    FlatMapMembers(Sweep(find, targets).From, starts);
    assert starts[c] in starts && q in Sweep(find, targets).From(starts[c]);
  }

  lemma Regroup<T>(a: seq<T>, b: seq<T>, c: seq<T>, d: seq<T>)
    ensures a + ((b + c) + d) == (a + b) + (c + d)
  {}

  /** What deduplication keeps comes first with its key. */
  lemma {:induction false} DedupAt(paths: seq<SemanticPathV2>, i: nat) returns (n: nat)
    requires i < |Dedup(paths)|
    ensures n < |paths| && paths[n] == Dedup(paths)[i]
    ensures forall m :: 0 <= m < n ==> Represented(Dedup(paths)[..i], PathKey(paths[m]))
  {
    var k := |paths| - 1;
    var before := Dedup(paths[..k]);
    if i < |before| {
      n := DedupAt(paths[..k], i);
      assert Dedup(paths)[..i] == before[..i];
    } else {
      n := k;
      DedupMeans(paths[..k]);
      assert Dedup(paths)[..i] == before;
      assert forall m :: 0 <= m < k ==> paths[m] == paths[..k][m] && paths[..k][m] in paths[..k];
    }
  }

  /** The path of a joined pair, with its reason and score. */
  ghost predicate IsPathOf(index: SemanticIndexV2, mode: string, s: string, t: string, p: SemanticPathV2) {
    && p.nodes == ShortestNodes(index, s, t) && p.reason == mode + "_graph_expansion" && p.score == |p.nodes|
    && exists places :: FirstWay(index, s, t, p, places)
  }

  /** The edges of the path stand at the places, and every other way from `s` to `t` is longer, or as long and
      later in the index. */
  ghost predicate FirstWay(index: SemanticIndexV2, s: string, t: string, p: SemanticPathV2, places: seq<nat>) {
    && Leads(index, places, p.nodes, p.edges, s, t)
    && forall others, nodes, kinds :: Leads(index, others, nodes, kinds, s, t) ==> NotAfter(places, others)
  }

  lemma CandidateIsFirst(index: SemanticIndexV2, mode: string, s: string, t: string, p: SemanticPathV2)
    requires p in Finder(AdjacencyOf(index), mode).Candidate(s, t)
    ensures IsPathOf(index, mode, s, t, p)
  {
    SearchMeaning(AdjacencyOf(index), s, t, 4);
    var places := PathIsFirst(index, s, t, 4);
    assert FirstWay(index, s, t, p, places);
  }

  /** The `i`-th collected path is that of some pair of a start and a target, and every joined pair before
      this one, start by start and target by target, has its key among the paths before it. */
  lemma CollectedInOrder(index: SemanticIndexV2, seedIDs: set<string>, targets: seq<string>,
                         contexts: seq<BuildContextRecord>, mode: string, limit: int, i: nat)
    returns (a: nat, b: nat)
    requires ListsSeeds(targets, seedIDs)
    requires i < |Collected(index, seedIDs, targets, contexts, mode, limit)|
    ensures var paths, starts := Collected(index, seedIDs, targets, contexts, mode, limit), StartIDs(index, contexts);
      && a < |starts| && b < |targets| && JoinedPair(index, seedIDs, contexts, starts[a], targets[b])
      && IsPathOf(index, mode, starts[a], targets[b], paths[i])
      && forall c: nat, d: nat :: Earlier(starts, targets, c, d, a, b) ==>
           JoinedPair(index, seedIDs, contexts, starts[c], targets[d]) ==>
             Represented(paths[..i], Join(ShortestNodes(index, starts[c], targets[d]), "->"))
  {
    var find: PairFinder := Finder(AdjacencyOf(index), mode).Candidate;
    var starts := StartIDs(index, contexts);
    var all := FoundFromAll(find, starts, targets);
    var paths := Collected(index, seedIDs, targets, contexts, mode, limit);
    var n := DedupAt(all, i);
    assert paths[..i] == Dedup(all)[..i];
    a, b := CandidateAt(find, starts, targets, n);
    CandidateIsFirst(index, mode, starts[a], targets[b], paths[i]);
    CandidateIsJoined(index, seedIDs, contexts, mode, starts[a], targets[b], paths[i]);
    forall c: nat, d: nat | Earlier(starts, targets, c, d, a, b)
      ensures JoinedPair(index, seedIDs, contexts, starts[c], targets[d]) ==>
                Represented(paths[..i], Join(ShortestNodes(index, starts[c], targets[d]), "->"))
    {
      if JoinedPair(index, seedIDs, contexts, starts[c], targets[d]) {
        var q := JoinedPairIsCandidate(index, seedIDs, contexts, mode, starts[c], targets[d]);
        assert q in all[..n];
        var m :| 0 <= m < n && all[m] == q;
        assert PathKey(q) == Join(ShortestNodes(index, starts[c], targets[d]), "->");
      }
    }
  }

  lemma CandidateIsJoined(index: SemanticIndexV2, seedIDs: set<string>, contexts: seq<BuildContextRecord>,
                          mode: string, s: string, t: string, p: SemanticPathV2)
    requires p in Finder(AdjacencyOf(index), mode).Candidate(s, t) && s in StartIDs(index, contexts) && t in seedIDs
    ensures JoinedPair(index, seedIDs, contexts, s, t)
  {
    SearchMeaning(AdjacencyOf(index), s, t, 4);
  }

  // ---------------------------------------------------------------------------
  // The starts.

  /** The `n`-th id a search may start from: the ids of the contexts, then the primary startup in four
      spellings. */
  function StartAt(index: SemanticIndexV2, contexts: seq<BuildContextRecord>, n: nat): string {
    if n < |contexts| then contexts[n].id
    else if Trim(index.primaryStartup) == "" then ""
    else if n == |contexts| then "project:" + index.primaryStartup
    else if n == |contexts| + 1 then "target:" + index.primaryStartup
    else if n == |contexts| + 2 then "module:" + index.primaryStartup
    else if n == |contexts| + 3 then "type:" + index.primaryStartup
    else ""
  }

  ghost predicate FirstStart(index: SemanticIndexV2, contexts: seq<BuildContextRecord>, s: string, n: nat) {
    Trim(StartAt(index, contexts, n)) == s != "" && forall m :: 0 <= m < n ==> Trim(StartAt(index, contexts, m)) != s
  }

  /** The `i`-th start is the id that occurs first at `n`. */
  ghost predicate StartsWith(index: SemanticIndexV2, contexts: seq<BuildContextRecord>, i: nat, n: nat) {
    i < |StartIDs(index, contexts)| && FirstStart(index, contexts, StartIDs(index, contexts)[i], n)
  }

  lemma StartIs(index: SemanticIndexV2, contexts: seq<BuildContextRecord>, m: nat)
    ensures var ids := ContextIDs(contexts) + StartupIDs(index.primaryStartup);
            StartAt(index, contexts, m) == if m < |ids| then ids[m] else ""
  {
    var startup := StartupIDs(index.primaryStartup);
    if m >= |contexts| && startup != [] {
      assert |startup| == 4;
    }
  }

  lemma StartsListed(index: SemanticIndexV2, contexts: seq<BuildContextRecord>, s: string, n: nat)
    requires s != ""
    ensures FirstAt(ContextIDs(contexts) + StartupIDs(index.primaryStartup), s, n) <==>
              FirstStart(index, contexts, s, n)
  {
    var ids := ContextIDs(contexts) + StartupIDs(index.primaryStartup);
    forall m: nat
      ensures StartAt(index, contexts, m) == if m < |ids| then ids[m] else ""
    {
      StartIs(index, contexts, m);
    }
    assert Trim("") == "";
  }

  /** The starts are these ids, trimmed, the blank ones dropped, in the order of their first occurrences. */
  lemma StartsInOrder(index: SemanticIndexV2, contexts: seq<BuildContextRecord>)
    ensures forall s :: s in StartIDs(index, contexts) <==> exists n: nat :: FirstStart(index, contexts, s, n)
    ensures forall i: nat, j: nat, m: nat, n: nat ::
              i < j && StartsWith(index, contexts, i, m) && StartsWith(index, contexts, j, n) ==> m < n
  {
    var starts := StartIDs(index, contexts);
    var ids := ContextIDs(contexts) + StartupIDs(index.primaryStartup);
    UniquesHolds(ids);
    forall s
      ensures s in starts <==> exists n: nat :: FirstStart(index, contexts, s, n)
    {
      if s in starts {
        var n := FirstPlace(ids, s);
        StartsListed(index, contexts, s, n);
      }
      if n: nat :| FirstStart(index, contexts, s, n) {
        StartsListed(index, contexts, s, n);
      }
    }
    forall i: nat, j: nat, m: nat, n: nat |
      i < j && StartsWith(index, contexts, i, m) && StartsWith(index, contexts, j, n)
      ensures m < n
    {
      StartsListed(index, contexts, starts[i], m);
      StartsListed(index, contexts, starts[j], n);
      UniquesInOrder(ids, i, j, m, n);
    }
  }

  lemma FirstPlace(items: seq<string>, s: string) returns (n: nat)
    requires TrimsTo(items, s)
    ensures FirstAt(items, s, n)
  {
    n := 0;
    while Trim(items[n]) != s
      invariant n < |items| && forall m :: 0 <= m < n ==> Trim(items[m]) != s
      invariant exists m :: n <= m < |items| && Trim(items[m]) == s
      decreases |items| - n
    {
      n := n + 1;
    }
  }
}
