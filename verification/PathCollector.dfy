/** `buildRelevantSemanticPaths`: the bounded collection of shortest paths from the build contexts
    and the primary startup to the seeds. */
module PathCollector {
  import opened SemanticIndex
  import opened SemanticPath
  import opened Sequences
  import opened Sorting
  import opened Text
  import opened Traces

  datatype SemanticPathV2 = SemanticPathV2(nodes: seq<string>, edges: seq<string>, reason: string, score: nat)

  // ---------------------------------------------------------------------------
  // The adjacency map.

  /** The arguments of one `addStep` call. */
  datatype Edge = Edge(source: string, target: string, kind: string)

  function AddStep(adj: Adjacency, e: Edge): Adjacency {
    var source, target, kind := Trim(e.source), Trim(e.target), Trim(e.kind);
    if source == "" || target == "" || kind == "" then adj
    else adj[source := Steps(adj, source) + [Step(target, kind)]]
  }

  function AddAll<E>(adj: Adjacency, edges: seq<E>, view: E -> Edge): Adjacency {
    if edges == [] then adj
    else AddStep(AddAll(adj, edges[..|edges| - 1], view), view(edges[|edges| - 1]))
  }

  function CallStep(e: CallEdge): Edge { Edge(e.sourceID, e.targetID, e.kind) }

  function BuildStep(e: BuildOwnershipEdge): Edge { Edge(e.sourceID, e.targetID, e.kind) }

  function InheritanceStep(e: InheritanceEdge): Edge { Edge(e.sourceID, e.targetID, "inherits_from") }

  function OverlayStep(e: OverlayEdge): Edge { Edge(e.sourceID, e.targetID, e.kind) }

  function ReferenceStep(e: ReferenceRecord): Edge { Edge(e.sourceID, e.targetID, e.kind) }

  function AdjacencyOf(index: SemanticIndexV2): Adjacency {
    var calls := AddAll(map[], index.callEdges, CallStep);
    var builds := AddAll(calls, index.buildOwnershipEdges, BuildStep);
    var inheritance := AddAll(builds, index.inheritanceEdges, InheritanceStep);
    var overlays := AddAll(inheritance, index.overlayEdges, OverlayStep);
    AddAll(overlays, index.references, ReferenceStep)
  }

  method AddSteps<E>(adjacency: Adjacency, edges: seq<E>, view: E -> Edge) returns (r: Adjacency)
    ensures r == AddAll(adjacency, edges, view)
  {
    r := adjacency;
    for i := 0 to |edges|
      invariant r == AddAll(adjacency, edges[..i], view)
    {
      assert edges[..i + 1][..i] == edges[..i];
      r := AddStep(r, view(edges[i]));
    }
    assert edges[..|edges|] == edges;
  }

  /** The trimmed edge is listed in the index with no blank part. */
  ghost predicate Listed<E>(edges: seq<E>, view: E -> Edge, s: string, t: string, kind: string) {
    exists e :: e in edges && Trimmed(view(e), s, t, kind)
  }

  predicate Trimmed(e: Edge, s: string, t: string, kind: string) {
    Trim(e.source) == s != "" && Trim(e.target) == t != "" && Trim(e.kind) == kind != ""
  }

  ghost predicate IndexEdge(index: SemanticIndexV2, s: string, t: string, kind: string) {
    || Listed(index.callEdges, CallStep, s, t, kind)
    || Listed(index.buildOwnershipEdges, BuildStep, s, t, kind)
    || Listed(index.inheritanceEdges, InheritanceStep, s, t, kind)
    || Listed(index.overlayEdges, OverlayStep, s, t, kind)
    || Listed(index.references, ReferenceStep, s, t, kind)
  }

  lemma {:induction false} AddAllMeans<E>(adj: Adjacency, edges: seq<E>, view: E -> Edge, s: string, t: string,
                                          kind: string)
    ensures Step(t, kind) in Steps(AddAll(adj, edges, view), s) <==>
              (Step(t, kind) in Steps(adj, s) || Listed(edges, view, s, t, kind))
  {
    if edges != [] {
      var n := |edges| - 1;
      AddAllMeans(adj, edges[..n], view, s, t, kind);
      assert edges == edges[..n] + [edges[n]];
      assert Listed(edges, view, s, t, kind) <==>
        (Listed(edges[..n], view, s, t, kind) || Trimmed(view(edges[n]), s, t, kind)) by {
        if Trimmed(view(edges[n]), s, t, kind) {
          assert edges[n] in edges;
        }
      }
    }
  }

  /** The steps out of a node are exactly the trimmed edges of the index with no blank part. */
  lemma AdjacencyMeans(index: SemanticIndexV2, s: string, t: string, kind: string)
    ensures Step(t, kind) in Steps(AdjacencyOf(index), s) <==> IndexEdge(index, s, t, kind)
  {
    var calls := AddAll(map[], index.callEdges, CallStep);
    var builds := AddAll(calls, index.buildOwnershipEdges, BuildStep);
    var inheritance := AddAll(builds, index.inheritanceEdges, InheritanceStep);
    var overlays := AddAll(inheritance, index.overlayEdges, OverlayStep);
    AddAllMeans(map[], index.callEdges, CallStep, s, t, kind);
    AddAllMeans(calls, index.buildOwnershipEdges, BuildStep, s, t, kind);
    AddAllMeans(builds, index.inheritanceEdges, InheritanceStep, s, t, kind);
    AddAllMeans(inheritance, index.overlayEdges, OverlayStep, s, t, kind);
    AddAllMeans(overlays, index.references, ReferenceStep, s, t, kind);
  }

  // ---------------------------------------------------------------------------
  // Starts and targets.

  function StartupIDs(startup: string): seq<string> {
    if IsBlank(startup) then []
    else ["project:" + startup, "target:" + startup, "module:" + startup, "type:" + startup]
  }

  function ContextIDs(contexts: seq<BuildContextRecord>): seq<string> {
    seq(|contexts|, i requires 0 <= i < |contexts| => contexts[i].id)
  }

  function StartIDs(index: SemanticIndexV2, contexts: seq<BuildContextRecord>): seq<string> {
    Uniques(ContextIDs(contexts) + StartupIDs(index.primaryStartup))
  }

  function Itself(s: string): string { s }

  /** `ids` lists the seed set in string order. */
  ghost predicate ListsSeeds(ids: seq<string>, seedIDs: set<string>) {
    StrictlyAscending(ids, Itself) && forall id :: id in ids <==> id in seedIDs
  }

  lemma SeedListIsUnique(a: seq<string>, b: seq<string>, seedIDs: set<string>)
    requires ListsSeeds(a, seedIDs) && ListsSeeds(b, seedIDs)
    ensures a == b
  {
    StrictListingIsUnique(a, b, Itself);
  }

  lemma NewKeyDiffers(listed: seq<string>, id: string)
    requires KeysDiffer(listed, Itself) && id !in listed
    ensures KeysDiffer(listed + [id], Itself)
  {
    forall i | 0 <= i < |listed|
      ensures Itself(listed[i]) != Itself(id)
    {
      assert listed[i] in listed;
    }
  }

  /** The targets: the map is ranged over in any order, then sorted. */
  method SortedSeeds(seedIDs: set<string>) returns (ids: seq<string>)
    ensures ListsSeeds(ids, seedIDs)
  {
    var listed := [];
    var pending := seedIDs;
    while pending != {}
      invariant pending <= seedIDs
      invariant forall id :: id in listed <==> id in seedIDs - pending
      invariant KeysDiffer(listed, Itself)
      decreases |pending|
    {
      var id :| id in pending;
      NewKeyDiffers(listed, id);
      pending := pending - {id};
      listed := listed + [id];
    }
    ids := SortByKey(listed, Itself);
    SortedDistinctIsStrict(listed, ids, Itself);
    SameElements(ids, listed);
  }

  // ---------------------------------------------------------------------------
  // The collection, as a list of candidates that is deduplicated and cut.

  const MAX_HOPS := 4

  function PathKey(p: SemanticPathV2): string {
    Join(p.nodes, "->")
  }

  datatype Finder = Finder(adj: Adjacency, mode: string) {
    /** The candidate a pair contributes: none when the ends are blank, equal or not joined in time. */
    function Candidate(startID: string, targetID: string): seq<SemanticPathV2> {
      if IsBlank(startID) || IsBlank(targetID) || startID == targetID then []
      else
        match DeepeningSearch(adj, startID, targetID, MAX_HOPS)
        case None => []
        case Some(path) =>
          if |path.nodes| < 2 then []
          else [SemanticPathV2(path.nodes, path.edges, mode + "_graph_expansion", |path.nodes|)]
    }
  }

  type PairFinder = (string, string) -> seq<SemanticPathV2>

  datatype Origin = Origin(find: PairFinder, startID: string) {
    function To(targetID: string): seq<SemanticPathV2> { find(startID, targetID) }
  }

  function FoundFrom(find: PairFinder, startID: string, targets: seq<string>): seq<SemanticPathV2> {
    FlatMap(Origin(find, startID).To, targets)
  }

  datatype Sweep = Sweep(find: PairFinder, targets: seq<string>) {
    function From(startID: string): seq<SemanticPathV2> { FoundFrom(find, startID, targets) }
  }

  /** The candidates of all pairs, start by start. */
  function FoundFromAll(find: PairFinder, starts: seq<string>, targets: seq<string>): seq<SemanticPathV2> {
    FlatMap(Sweep(find, targets).From, starts)
  }

  ghost predicate Represented(paths: seq<SemanticPathV2>, key: string) {
    exists p :: p in paths && PathKey(p) == key
  }

  /** Drops every path whose joined key came earlier. */
  ghost function Dedup(paths: seq<SemanticPathV2>): seq<SemanticPathV2> {
    if paths == [] then []
    else
      var before := Dedup(paths[..|paths| - 1]);
      var last := paths[|paths| - 1];
      if Represented(before, PathKey(last)) then before else before + [last]
  }

  /** What the collector returns: the first `limit` candidates with new keys. */
  ghost function Collected(index: SemanticIndexV2, seedIDs: set<string>, targets: seq<string>,
                           contexts: seq<BuildContextRecord>, mode: string, limit: int): seq<SemanticPathV2>
  {
    if seedIDs == {} then []
    else Take(Dedup(FoundFromAll(Finder(AdjacencyOf(index), mode).Candidate, StartIDs(index, contexts), targets)),
              limit)
  }

  lemma {:induction false} DedupGrows(a: seq<SemanticPathV2>, b: seq<SemanticPathV2>)
    ensures Dedup(a) <= Dedup(a + b)
  {
    if b == [] {
      assert a + b == a;
    } else {
      assert (a + b)[..|a + b| - 1] == a + b[..|b| - 1];
      DedupGrows(a, b[..|b| - 1]);
    }
  }

  /** The candidates of the pairs up to the `j`-th target of the `i`-th start come first. */
  lemma FoundFirst(find: PairFinder, starts: seq<string>, targets: seq<string>, i: nat, j: nat)
    returns (rest: seq<SemanticPathV2>)
    requires i < |starts| && j <= |targets|
    ensures FoundFromAll(find, starts[..i], targets) + FoundFrom(find, starts[i], targets[..j]) + rest
         == FoundFromAll(find, starts, targets)
  {
    var before, here, after := starts[..i], starts[i], starts[i + 1..];
    assert starts == before + ([here] + after) && targets == targets[..j] + targets[j..];
    FlatMapConcat(Sweep(find, targets).From, before, [here] + after);
    FlatMapConcat(Sweep(find, targets).From, [here], after);
    FlatMapOne(Sweep(find, targets).From, here);
    FlatMapConcat(Origin(find, here).To, targets[..j], targets[j..]);
    var x, y := FoundFrom(find, here, targets[..j]), FoundFrom(find, here, targets[j..]);
    var z := FoundFromAll(find, after, targets);
    rest := y + z;
    Associative(x, y, z);
    Associative(FoundFromAll(find, before, targets), x, rest);
  }

  /** `paths` and `seen` while the candidates so far are `done`. */
  ghost predicate Collecting(done: seq<SemanticPathV2>, paths: seq<SemanticPathV2>, seen: set<string>, limit: int) {
    && paths == Dedup(done) && |paths| < limit
    && forall k :: k in seen <==> Represented(paths, k)
  }

  lemma RepresentedGrows(paths: seq<SemanticPathV2>, p: SemanticPathV2)
    ensures forall k :: Represented(paths + [p], k) <==> Represented(paths, k) || k == PathKey(p)
  {
    forall k
      ensures Represented(paths + [p], k) <==> Represented(paths, k) || k == PathKey(p)
    {
      if Represented(paths, k) {
        var q :| q in paths && PathKey(q) == k;
        assert q in paths + [p];
      }
      assert p in paths + [p];
    }
  }

  method BuildRelevantSemanticPaths(index: SemanticIndexV2, seedIDs: set<string>, contexts: seq<BuildContextRecord>,
                                    mode: string, limit: int)
    returns (paths: seq<SemanticPathV2>)
    ensures forall targets :: ListsSeeds(targets, seedIDs) ==>
              paths == Collected(index, seedIDs, targets, contexts, mode, limit)
  {
    if seedIDs == {} || limit <= 0 {
      return [];
    }
    var adjacency := AddSteps(map[], index.callEdges, CallStep);
    adjacency := AddSteps(adjacency, index.buildOwnershipEdges, BuildStep);
    adjacency := AddSteps(adjacency, index.inheritanceEdges, InheritanceStep);
    adjacency := AddSteps(adjacency, index.overlayEdges, OverlayStep);
    adjacency := AddSteps(adjacency, index.references, ReferenceStep);
    var startIDs := UniqueStrings(ContextIDs(contexts) + StartupIDs(index.primaryStartup));
    var targetIDs := SortedSeeds(seedIDs);
    forall targets | ListsSeeds(targets, seedIDs)
      ensures targets == targetIDs
    {
      SeedListIsUnique(targets, targetIDs, seedIDs);
    }
    paths := CollectPaths(adjacency, startIDs, targetIDs, mode, limit);
  }

  /** A full list is what the cut leaves, however many candidates follow. */
  lemma FullIsTaken(done: seq<SemanticPathV2>, rest: seq<SemanticPathV2>, limit: nat)
    requires |Dedup(done)| == limit > 0
    ensures Dedup(done) == Take(Dedup(done + rest), limit)
  {
    DedupGrows(done, rest);
  }

  lemma DedupOfOne(done: seq<SemanticPathV2>, p: SemanticPathV2)
    ensures Dedup(done + [p]) == if Represented(Dedup(done), PathKey(p)) then Dedup(done) else Dedup(done) + [p]
  {
    assert (done + [p])[..|done|] == done;
  }

  /** The body of the inner loop. */
  method CollectPair(adjacency: Adjacency, startID: string, targetID: string, mode: string, limit: int,
                     paths: seq<SemanticPathV2>, seen: set<string>, ghost done: seq<SemanticPathV2>)
    returns (paths': seq<SemanticPathV2>, seen': set<string>)
    requires Collecting(done, paths, seen, limit)
    ensures paths' == Dedup(done + Finder(adjacency, mode).Candidate(startID, targetID)) && |paths'| <= limit
    ensures forall k :: k in seen' <==> Represented(paths', k)
  {
    paths', seen' := paths, seen;
    assert done + [] == done;
    if IsBlank(startID) || IsBlank(targetID) || startID == targetID {
      return;
    }
    var path := ShortestSemanticPath(adjacency, startID, targetID, MAX_HOPS);
    if path.None? || |path.value.nodes| < 2 {
      return;
    }
    var p := SemanticPathV2(path.value.nodes, path.value.edges, mode + "_graph_expansion", |path.value.nodes|);
    DedupOfOne(done, p);
    if PathKey(p) in seen {
      return;
    }
    RepresentedGrows(paths, p);
    seen' := seen + {PathKey(p)};
    paths' := paths + [p];
  }

  lemma FoundFromNext(find: PairFinder, startID: string, targets: seq<string>, j: nat, earlier: seq<SemanticPathV2>)
    requires j < |targets|
    ensures earlier + FoundFrom(find, startID, targets[..j + 1])
         == earlier + FoundFrom(find, startID, targets[..j]) + find(startID, targets[j])
  {
    FlatMapNext(Origin(find, startID).To, targets, j);
  }

  /** `paths` is full after the candidates of the first targets of one start. */
  ghost predicate FullWithin(find: PairFinder, startID: string, targets: seq<string>, earlier: seq<SemanticPathV2>,
                             paths: seq<SemanticPathV2>, limit: int)
  {
    |paths| == limit &&
    exists j :: 0 <= j <= |targets| && paths == Dedup(earlier + FoundFrom(find, startID, targets[..j]))
  }

  /** The inner loop: all targets for one start, or fewer when the list is full. */
  method CollectFrom(adjacency: Adjacency, startID: string, targetIDs: seq<string>, mode: string, limit: int,
                     paths: seq<SemanticPathV2>, seen: set<string>, ghost earlier: seq<SemanticPathV2>)
    returns (paths': seq<SemanticPathV2>, seen': set<string>)
    requires Collecting(earlier, paths, seen, limit)
    ensures var find: PairFinder := Finder(adjacency, mode).Candidate;
            if |paths'| < limit then Collecting(earlier + FoundFrom(find, startID, targetIDs), paths', seen', limit)
            else FullWithin(find, startID, targetIDs, earlier, paths', limit)
  {
    ghost var find: PairFinder := Finder(adjacency, mode).Candidate;
    paths', seen' := paths, seen;
    assert earlier + FoundFrom(find, startID, targetIDs[..0]) == earlier;
    for j := 0 to |targetIDs|
      invariant Collecting(earlier + FoundFrom(find, startID, targetIDs[..j]), paths', seen', limit)
    {
      FoundFromNext(find, startID, targetIDs, j, earlier);
      paths', seen' := CollectPair(adjacency, startID, targetIDs[j], mode, limit, paths', seen',
                                   earlier + FoundFrom(find, startID, targetIDs[..j]));
      if |paths'| >= limit {
        return;
      }
    }
    assert targetIDs[..|targetIDs|] == targetIDs;
  }

  /** The outer loop, left as soon as the list is full. */
  method CollectPaths(adjacency: Adjacency, startIDs: seq<string>, targetIDs: seq<string>, mode: string, limit: int)
    returns (paths: seq<SemanticPathV2>)
    requires limit > 0
    ensures paths == Take(Dedup(FoundFromAll(Finder(adjacency, mode).Candidate, startIDs, targetIDs)), limit)
  {
    ghost var find: PairFinder := Finder(adjacency, mode).Candidate;
    paths := [];
    var seen := {};
    for i := 0 to |startIDs|
      invariant Collecting(FoundFromAll(find, startIDs[..i], targetIDs), paths, seen, limit)
    {
      ghost var earlier := FoundFromAll(find, startIDs[..i], targetIDs);
      paths, seen := CollectFrom(adjacency, startIDs[i], targetIDs, mode, limit, paths, seen, earlier);
      if |paths| >= limit {
        FullIsResult(find, startIDs, targetIDs, i, paths, limit);
        return;
      }
      FlatMapNext(Sweep(find, targetIDs).From, startIDs, i);
    }
    assert startIDs[..|startIDs|] == startIDs;
  }

  lemma FullIsResult(find: PairFinder, startIDs: seq<string>, targetIDs: seq<string>, i: nat,
                     paths: seq<SemanticPathV2>, limit: nat)
    requires i < |startIDs| && limit > 0
    requires FullWithin(find, startIDs[i], targetIDs, FoundFromAll(find, startIDs[..i], targetIDs), paths, limit)
    ensures paths == Take(Dedup(FoundFromAll(find, startIDs, targetIDs)), limit)
  {
    var earlier := FoundFromAll(find, startIDs[..i], targetIDs);
    var j :| 0 <= j <= |targetIDs| && paths == Dedup(earlier + FoundFrom(find, startIDs[i], targetIDs[..j]));
    var rest := FoundFirst(find, startIDs, targetIDs, i, j);
    FullIsTaken(earlier + FoundFrom(find, startIDs[i], targetIDs[..j]), rest, limit);
  }

  // ---------------------------------------------------------------------------
  // What the collected paths are.

  /** `p` runs from a context or startup id to a different seed, over 1 to 4 edges of the index. */
  ghost predicate GoodPath(index: SemanticIndexV2, seedIDs: set<string>, contexts: seq<BuildContextRecord>,
                           p: SemanticPathV2)
  {
    && 1 <= |p.edges| <= 4 && |p.nodes| == |p.edges| + 1 && Distinct(p.nodes)
    && p.nodes[0] in StartIDs(index, contexts) && p.nodes[|p.edges|] in seedIDs
    && forall i :: 0 <= i < |p.edges| ==> IndexEdge(index, p.nodes[i], p.nodes[i + 1], p.edges[i])
  }

  lemma FoundFromAllMembers(find: PairFinder, starts: seq<string>, targets: seq<string>, p: SemanticPathV2)
    ensures p in FoundFromAll(find, starts, targets) <==>
              exists s, t :: s in starts && t in targets && p in find(s, t)
  {
    FlatMapMembers(Sweep(find, targets).From, starts);
    forall s
      ensures p in Sweep(find, targets).From(s) <==> exists t :: t in targets && p in find(s, t)
    {
      FlatMapMembers(Origin(find, s).To, targets);
    }
  }

  lemma {:induction false} DedupMeans(paths: seq<SemanticPathV2>)
    ensures forall i, j :: 0 <= i < j < |Dedup(paths)| ==> PathKey(Dedup(paths)[i]) != PathKey(Dedup(paths)[j])
    ensures forall p :: p in Dedup(paths) ==> p in paths
    ensures forall p :: p in paths ==> Represented(Dedup(paths), PathKey(p))
  {
    if paths != [] {
      var n := |paths| - 1;
      DedupMeans(paths[..n]);
      assert paths == paths[..n] + [paths[n]];
      RepresentedGrows(Dedup(paths[..n]), paths[n]);
    }
  }

  lemma CandidateIsGood(index: SemanticIndexV2, seedIDs: set<string>, contexts: seq<BuildContextRecord>, mode: string,
                        s: string, t: string, p: SemanticPathV2)
    requires p in Finder(AdjacencyOf(index), mode).Candidate(s, t)
    requires s in StartIDs(index, contexts) && t in seedIDs
    ensures GoodPath(index, seedIDs, contexts, p)
  {
    var adj := AdjacencyOf(index);
    SearchMeaning(adj, s, t, MAX_HOPS);
    forall i | 0 <= i < |p.edges|
      ensures IndexEdge(index, p.nodes[i], p.nodes[i + 1], p.edges[i])
    {
      AdjacencyMeans(index, p.nodes[i], p.nodes[i + 1], p.edges[i]);
    }
  }

  /** A start and a different seed that an index walk of at most four edges joins. */
  ghost predicate JoinedPair(index: SemanticIndexV2, seedIDs: set<string>, contexts: seq<BuildContextRecord>,
                             s: string, t: string)
  {
    && s in StartIDs(index, contexts) && t in seedIDs && s != t && !IsBlank(t)
    && exists nodes, kinds :: Joins(AdjacencyOf(index), s, t, nodes, kinds) && |kinds| <= 4
  }

  /** The node list the search finds for a joined pair. */
  ghost function ShortestNodes(index: SemanticIndexV2, s: string, t: string): seq<string> {
    match DeepeningSearch(AdjacencyOf(index), s, t, 4)
    case Some(path) => path.nodes
    case None => []
  }

  lemma JoinedPairIsCandidate(index: SemanticIndexV2, seedIDs: set<string>, contexts: seq<BuildContextRecord>,
                              mode: string,
                              s: string, t: string) returns (p: SemanticPathV2)
    requires JoinedPair(index, seedIDs, contexts, s, t)
    ensures p in Finder(AdjacencyOf(index), mode).Candidate(s, t) && p.nodes == ShortestNodes(index, s, t)
  {
    SearchMeaning(AdjacencyOf(index), s, t, MAX_HOPS);
    var ids := ContextIDs(contexts) + StartupIDs(index.primaryStartup);
    UniquesHolds(ids);
    var i :| 0 <= i < |ids| && Trim(ids[i]) == s;
    TrimIdempotent(ids[i]);
    p := Finder(AdjacencyOf(index), mode).Candidate(s, t)[0];
  }

  /** At most `limit` paths, no two with the same joined key (so no two with the same nodes), each a
      good path; and a list that is not full represents every joined pair. */
  lemma CollectorMeans(index: SemanticIndexV2, seedIDs: set<string>, targets: seq<string>,
                       contexts: seq<BuildContextRecord>, mode: string, limit: int)
    requires ListsSeeds(targets, seedIDs)
    ensures var paths := Collected(index, seedIDs, targets, contexts, mode, limit);
      && |paths| <= (if limit < 0 then 0 else limit)
      && (forall i, j :: 0 <= i < j < |paths| ==>
            PathKey(paths[i]) != PathKey(paths[j]) && paths[i].nodes != paths[j].nodes)
      && (forall p :: p in paths ==> GoodPath(index, seedIDs, contexts, p))
      && (|paths| < limit ==>
            forall s, t :: JoinedPair(index, seedIDs, contexts, s, t) ==>
              Represented(paths, Join(ShortestNodes(index, s, t), "->")))
  {
    var find: PairFinder := Finder(AdjacencyOf(index), mode).Candidate;
    DedupMeans(FoundFromAll(find, StartIDs(index, contexts), targets));
    var paths := Collected(index, seedIDs, targets, contexts, mode, limit);
    forall p | p in paths
      ensures GoodPath(index, seedIDs, contexts, p)
    {
      CollectedIsGood(index, seedIDs, targets, contexts, mode, limit, p);
    }
    if |paths| < limit {
      forall s, t | JoinedPair(index, seedIDs, contexts, s, t)
        ensures Represented(paths, Join(ShortestNodes(index, s, t), "->"))
      {
        JoinedIsRepresented(index, seedIDs, targets, contexts, mode, limit, s, t);
      }
    }
  }

  lemma CollectedIsGood(index: SemanticIndexV2, seedIDs: set<string>, targets: seq<string>,
                        contexts: seq<BuildContextRecord>, mode: string, limit: int, p: SemanticPathV2)
    requires ListsSeeds(targets, seedIDs) && p in Collected(index, seedIDs, targets, contexts, mode, limit)
    ensures GoodPath(index, seedIDs, contexts, p)
  {
    var find: PairFinder := Finder(AdjacencyOf(index), mode).Candidate;
    var starts := StartIDs(index, contexts);
    DedupMeans(FoundFromAll(find, starts, targets));
    FoundFromAllMembers(find, starts, targets, p);
    var s, t :| s in starts && t in targets && p in find(s, t);
    CandidateIsGood(index, seedIDs, contexts, mode, s, t, p);
  }

  lemma JoinedIsRepresented(index: SemanticIndexV2, seedIDs: set<string>, targets: seq<string>,
                            contexts: seq<BuildContextRecord>, mode: string, limit: int, s: string, t: string)
    requires ListsSeeds(targets, seedIDs) && JoinedPair(index, seedIDs, contexts, s, t)
    requires |Collected(index, seedIDs, targets, contexts, mode, limit)| < limit
    ensures Represented(Collected(index, seedIDs, targets, contexts, mode, limit),
                        Join(ShortestNodes(index, s, t), "->"))
  {
    var find: PairFinder := Finder(AdjacencyOf(index), mode).Candidate;
    var starts := StartIDs(index, contexts);
    DedupMeans(FoundFromAll(find, starts, targets));
    var p := JoinedPairIsCandidate(index, seedIDs, contexts, mode, s, t);
    FoundFromAllMembers(find, starts, targets, p);
  }
}
