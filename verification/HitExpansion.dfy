/** `expandRelevantSemanticIndexV2Hits` from the seeds on: one neighbourhood, nine merges against it,
    and the paths from the merged build contexts. */
module HitExpansion {
  import opened SemanticIndex
  import Neighborhood
  import PathCollector
  import RelevantMerge

  datatype Hits = Hits(
    mode: string, buildContexts: seq<BuildContextRecord>, symbols: seq<SymbolRecord>, files: seq<FileRecord>,
    calls: seq<CallEdge>, inheritance: seq<InheritanceEdge>, builds: seq<BuildOwnershipEdge>,
    overlays: seq<OverlayEdge>, references: seq<ReferenceRecord>, occurrences: seq<SymbolOccurrence>,
    paths: seq<PathCollector.SemanticPathV2>)

  function DepthOf(mode: string): int {
    if mode in ["trace", "impact", "security"] then 2 else 1
  }

  ghost predicate Merged<T(!new)>(items: seq<T>, base: seq<T>, index: seq<T>, key: T -> string, touched: T -> bool,
                                  limit: nat)
  {
    RelevantMerge.IsSortedPrefix(items, RelevantMerge.Candidates(base, index, key, touched), key, limit)
  }

  /** Each list of the result is the merge of the list of the hits with the touched items of the index. */
  ghost predicate Expanded(index: SemanticIndexV2, hits: Hits, scope: RelevantMerge.Scope, r: Hits) {
    && Merged(r.buildContexts, hits.buildContexts, index.buildContexts, RelevantMerge.ContextKey,
              scope.TouchesContext, 3)
    && Merged(r.symbols, hits.symbols, index.symbols, RelevantMerge.SymbolKey, scope.TouchesSymbol, 6)
    && Merged(r.files, hits.files, index.files, RelevantMerge.FileKey, scope.TouchesFile, 4)
    && Merged(r.calls, hits.calls, index.callEdges, RelevantMerge.CallKey, scope.TouchesCall, 5)
    && Merged(r.inheritance, hits.inheritance, index.inheritanceEdges, RelevantMerge.InheritanceKey,
              scope.TouchesInheritance, 4)
    && Merged(r.builds, hits.builds, index.buildOwnershipEdges, RelevantMerge.BuildKey, scope.TouchesBuild, 5)
    && Merged(r.overlays, hits.overlays, index.overlayEdges, RelevantMerge.OverlayKey, scope.TouchesOverlay, 5)
    && Merged(r.references, hits.references, index.references, RelevantMerge.ReferenceKey, scope.TouchesReference, 5)
    && Merged(r.occurrences, hits.occurrences, index.occurrences, RelevantMerge.OccurrenceKey,
              scope.TouchesOccurrence, 4)
  }

  method ExpandFromSeeds(index: SemanticIndexV2, hits: Hits, seedIDs: set<string>, seedFiles: set<string>)
    returns (r: Hits, nodeSet: set<string>)
    ensures var depth := if hits.mode == "trace" || hits.mode == "impact" || hits.mode == "security" then 2 else 1;
            forall v :: v in nodeSet <==> Neighborhood.InNeighborhood(index, seedIDs, seedFiles, depth, v)
    ensures Expanded(index, hits, RelevantMerge.Scope(nodeSet, seedFiles), r)
    ensures forall targets :: PathCollector.ListsSeeds(targets, seedIDs) ==>
              r.paths == PathCollector.Collected(index, seedIDs, targets, r.buildContexts, hits.mode, 2)
    ensures r.mode == hits.mode
  {
    nodeSet := Neighborhood.ExpandSemanticV2Neighborhood(index, seedIDs, seedFiles, DepthOf(hits.mode));
    var scope := RelevantMerge.Scope(nodeSet, seedFiles);
    var contexts := RelevantMerge.MergeRelevant(hits.buildContexts, index.buildContexts, RelevantMerge.ContextKey,
                                                scope.TouchesContext, 3);
    var symbols := RelevantMerge.MergeRelevant(hits.symbols, index.symbols, RelevantMerge.SymbolKey,
                                               scope.TouchesSymbol, 6);
    var files := RelevantMerge.MergeRelevant(hits.files, index.files, RelevantMerge.FileKey, scope.TouchesFile, 4);
    var calls := RelevantMerge.MergeRelevant(hits.calls, index.callEdges, RelevantMerge.CallKey, scope.TouchesCall, 5);
    var inheritance := RelevantMerge.MergeRelevant(hits.inheritance, index.inheritanceEdges,
                                                   RelevantMerge.InheritanceKey, scope.TouchesInheritance, 4);
    var builds := RelevantMerge.MergeRelevant(hits.builds, index.buildOwnershipEdges, RelevantMerge.BuildKey,
                                              scope.TouchesBuild, 5);
    var overlays := RelevantMerge.MergeRelevant(hits.overlays, index.overlayEdges, RelevantMerge.OverlayKey,
                                                scope.TouchesOverlay, 5);
    var references := RelevantMerge.MergeRelevant(hits.references, index.references, RelevantMerge.ReferenceKey,
                                                  scope.TouchesReference, 5);
    var occurrences := RelevantMerge.MergeRelevant(hits.occurrences, index.occurrences, RelevantMerge.OccurrenceKey,
                                                   scope.TouchesOccurrence, 4);
    var paths := PathCollector.BuildRelevantSemanticPaths(index, seedIDs, contexts, hits.mode, 2);
    r := Hits(hits.mode, contexts, symbols, files, calls, inheritance, builds, overlays, references, occurrences,
              paths);
  }
}
