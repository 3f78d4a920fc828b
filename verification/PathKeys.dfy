/** What the joined path keys cost: the collector keeps a path of every joined pair exactly when no two
    pairs with different paths share a key. */
module PathKeys {
  import opened JoinedKeys
  import opened PathCollector
  import opened SemanticIndex
  import opened SemanticPath
  import opened Text
  import opened Traces

  // ---------------------------------------------------------------------------
  // Which joined pairs have a path of their own.

  ghost predicate HasOwnPath(paths: seq<SemanticPathV2>, index: SemanticIndexV2, s: string, t: string) {
    exists p :: p in paths && p.nodes == ShortestNodes(index, s, t)
  }

  ghost predicate AllHaveOwnPaths(paths: seq<SemanticPathV2>, index: SemanticIndexV2, seedIDs: set<string>,
                                  contexts: seq<BuildContextRecord>)
  {
    forall s, t :: JoinedPair(index, seedIDs, contexts, s, t) ==> HasOwnPath(paths, index, s, t)
  }

  /** Two joined pairs with different shortest node lists and one key. */
  ghost predicate Collide(index: SemanticIndexV2, seedIDs: set<string>, contexts: seq<BuildContextRecord>,
                          s: string, t: string, s': string, t': string)
  {
    && JoinedPair(index, seedIDs, contexts, s, t) && JoinedPair(index, seedIDs, contexts, s', t')
    && ShortestNodes(index, s, t) != ShortestNodes(index, s', t')
    && Join(ShortestNodes(index, s, t), "->") == Join(ShortestNodes(index, s', t'), "->")
  }

  ghost predicate KeysCollide(index: SemanticIndexV2, seedIDs: set<string>, contexts: seq<BuildContextRecord>) {
    exists s, t, s', t' :: Collide(index, seedIDs, contexts, s, t, s', t')
  }

  /** Every collected path is the shortest path of some joined pair. */
  lemma CollectedIsJoined(index: SemanticIndexV2, seedIDs: set<string>, targets: seq<string>,
                          contexts: seq<BuildContextRecord>, mode: string, limit: int, p: SemanticPathV2)
    returns (s: string, t: string)
    requires ListsSeeds(targets, seedIDs) && p in Collected(index, seedIDs, targets, contexts, mode, limit)
    ensures JoinedPair(index, seedIDs, contexts, s, t) && p.nodes == ShortestNodes(index, s, t)
  {
    var find: PairFinder := Finder(AdjacencyOf(index), mode).Candidate;
    var starts := StartIDs(index, contexts);
    DedupMeans(FoundFromAll(find, starts, targets));
    FoundFromAllMembers(find, starts, targets, p);
    s, t :| s in starts && t in targets && p in find(s, t);
    SearchMeaning(AdjacencyOf(index), s, t, MAX_HOPS);
  }

  /** Whatever the limit, of two colliding pairs one has no path of its own. */
  lemma CollisionLoses(index: SemanticIndexV2, seedIDs: set<string>, targets: seq<string>,
                       contexts: seq<BuildContextRecord>, mode: string, limit: int, s: string, t: string,
                       s': string, t': string)
    requires ListsSeeds(targets, seedIDs) && Collide(index, seedIDs, contexts, s, t, s', t')
    ensures var paths := Collected(index, seedIDs, targets, contexts, mode, limit);
            !(HasOwnPath(paths, index, s, t) && HasOwnPath(paths, index, s', t'))
  {
    CollectorMeans(index, seedIDs, targets, contexts, mode, limit);
  }

  /** Below the limit, all joined pairs have a path of their own exactly when no keys collide. */
  lemma OwnPathsIff(index: SemanticIndexV2, seedIDs: set<string>, targets: seq<string>,
                    contexts: seq<BuildContextRecord>, mode: string, limit: int)
    requires ListsSeeds(targets, seedIDs) && |Collected(index, seedIDs, targets, contexts, mode, limit)| < limit
    ensures AllHaveOwnPaths(Collected(index, seedIDs, targets, contexts, mode, limit), index, seedIDs, contexts) <==>
              !KeysCollide(index, seedIDs, contexts)
  {
    var paths := Collected(index, seedIDs, targets, contexts, mode, limit);
    if s, t, s', t' :| Collide(index, seedIDs, contexts, s, t, s', t') {
      CollisionLoses(index, seedIDs, targets, contexts, mode, limit, s, t, s', t');
    } else {
      CollectorMeans(index, seedIDs, targets, contexts, mode, limit);
      forall s, t | JoinedPair(index, seedIDs, contexts, s, t)
        ensures HasOwnPath(paths, index, s, t)
      {
        var p :| p in paths && PathKey(p) == Join(ShortestNodes(index, s, t), "->");
        var s', t' := CollectedIsJoined(index, seedIDs, targets, contexts, mode, limit, p);
        assert !Collide(index, seedIDs, contexts, s, t, s', t');
      }
    }
  }

  // ---------------------------------------------------------------------------
  // Ids without arrows.

  /** No start id and no target of an index edge contains an arrow. */
  ghost predicate ArrowFreeIds(index: SemanticIndexV2, contexts: seq<BuildContextRecord>) {
    && (forall s :: s in StartIDs(index, contexts) ==> !Contains(s, "->"))
    && forall s, t, kind :: IndexEdge(index, s, t, kind) ==> !Contains(t, "->")
  }

  lemma JoinedNodesAreArrowFree(index: SemanticIndexV2, seedIDs: set<string>, contexts: seq<BuildContextRecord>,
                                s: string, t: string)
    requires ArrowFreeIds(index, contexts) && JoinedPair(index, seedIDs, contexts, s, t)
    ensures ShortestNodes(index, s, t) != [] && SepFree(ShortestNodes(index, s, t), "->")
  {
    var adj := AdjacencyOf(index);
    SearchMeaning(adj, s, t, MAX_HOPS);
    var path := DeepeningSearch(adj, s, t, MAX_HOPS).value;
    forall i | 0 <= i < |path.nodes|
      ensures !Contains(path.nodes[i], "->")
    {
      if i > 0 {
        AdjacencyMeans(index, path.nodes[i - 1], path.nodes[i], path.edges[i - 1]);
      }
    }
  }

  /** With ids free of arrows no keys collide, so below the limit every joined pair has a path of its
      own. */
  lemma ArrowFreeKeepsAll(index: SemanticIndexV2, seedIDs: set<string>, targets: seq<string>,
                          contexts: seq<BuildContextRecord>, mode: string, limit: int)
    requires ArrowFreeIds(index, contexts) && ListsSeeds(targets, seedIDs)
    ensures !KeysCollide(index, seedIDs, contexts)
    ensures var paths := Collected(index, seedIDs, targets, contexts, mode, limit);
            |paths| < limit ==> AllHaveOwnPaths(paths, index, seedIDs, contexts)
  {
    if s, t, s', t' :| Collide(index, seedIDs, contexts, s, t, s', t') {
      JoinedNodesAreArrowFree(index, seedIDs, contexts, s, t);
      JoinedNodesAreArrowFree(index, seedIDs, contexts, s', t');
      JoinIsFaithful(ShortestNodes(index, s, t), ShortestNodes(index, s', t'), "->");
      assert false;
    }
    if |Collected(index, seedIDs, targets, contexts, mode, limit)| < limit {
      OwnPathsIff(index, seedIDs, targets, contexts, mode, limit);
    }
  }

  // ---------------------------------------------------------------------------
  // An index on which a path is lost.

  /** A pair joined by one edge has that edge as its shortest path. */
  lemma EdgeIsShortest(index: SemanticIndexV2, seedIDs: set<string>, contexts: seq<BuildContextRecord>, s: string,
                       t: string, kind: string)
    requires IndexEdge(index, s, t, kind) && s in StartIDs(index, contexts) && t in seedIDs && s != t && !IsBlank(t)
    ensures JoinedPair(index, seedIDs, contexts, s, t) && ShortestNodes(index, s, t) == [s, t]
  {
    var adj := AdjacencyOf(index);
    AdjacencyMeans(index, s, t, kind);
    assert Joins(adj, s, t, [s, t], [kind]);
    SearchMeaning(adj, s, t, MAX_HOPS);
    var nodes := ShortestNodes(index, s, t);
    assert nodes == [nodes[0]] + nodes[1..];
  }

  function Context(id: string): BuildContextRecord {
    BuildContextRecord(id, "", "", "", "", "", "", "", "", [], [], [], [], "", "", "")
  }

  /** Two calls whose ids hold arrows in different places. */
  const ARROW_INDEX := SemanticIndexV2([], [], [], [], [],
                                       [CallEdge("a->b", "c", "k", []), CallEdge("a", "b->c", "k", [])],
                                       [], [], [], [], "")
  const ARROW_CONTEXTS := [Context("a->b"), Context("a")]
  const ARROW_SEEDS := {"c", "b->c"}

  lemma ArrowStarts()
    ensures "a->b" in StartIDs(ARROW_INDEX, ARROW_CONTEXTS) && "a" in StartIDs(ARROW_INDEX, ARROW_CONTEXTS)
  {
    var ids := ContextIDs(ARROW_CONTEXTS) + StartupIDs(ARROW_INDEX.primaryStartup);
    UniquesHolds(ids);
    TrimOfTight("a->b");
    TrimOfTight("a");
    assert Trim(ids[0]) == "a->b" && Trim(ids[1]) == "a";
  }

  lemma ArrowEdge(s: string, t: string)
    requires CallEdge(s, t, "k", []) in ARROW_INDEX.callEdges
    requires IsTight(s) && s != "" && IsTight(t) && t != ""
    ensures IndexEdge(ARROW_INDEX, s, t, "k")
  {
    TrimOfTight(s);
    TrimOfTight(t);
    TrimOfTight("k");
  }

  /** Two different node lists with one key. */
  lemma KeyCanCollide()
    ensures Join(["a->b", "c"], "->") == Join(["a", "b->c"], "->")
  {
    assert Join(["c"], "->") == "c";
    assert ["a->b", "c"][1..] == ["c"] && ["a", "b->c"][1..] == ["b->c"];
    assert Join(["a->b", "c"], "->") == "a->b->c" == Join(["a", "b->c"], "->");
  }

  /** On this index the collector loses the path of one of two joined pairs, whatever the limit. */
  lemma ArrowIndexLoses(targets: seq<string>, mode: string, limit: int)
    requires ListsSeeds(targets, ARROW_SEEDS)
    ensures Collide(ARROW_INDEX, ARROW_SEEDS, ARROW_CONTEXTS, "a->b", "c", "a", "b->c")
    ensures !AllHaveOwnPaths(Collected(ARROW_INDEX, ARROW_SEEDS, targets, ARROW_CONTEXTS, mode, limit), ARROW_INDEX,
                             ARROW_SEEDS, ARROW_CONTEXTS)
  {
    ArrowStarts();
    ArrowEdge("a->b", "c");
    ArrowEdge("a", "b->c");
    TrimOfTight("c");
    TrimOfTight("b->c");
    EdgeIsShortest(ARROW_INDEX, ARROW_SEEDS, ARROW_CONTEXTS, "a->b", "c", "k");
    EdgeIsShortest(ARROW_INDEX, ARROW_SEEDS, ARROW_CONTEXTS, "a", "b->c", "k");
    KeyCanCollide();
    CollisionLoses(ARROW_INDEX, ARROW_SEEDS, targets, ARROW_CONTEXTS, mode, limit, "a->b", "c", "a", "b->c");
  }
}
