/** What the merges of the expansion keep, by the fields of the records: an item is touched when an end of it
    lies in the neighbourhood, or when it names or its evidence mentions a seed file. */
module HitLaws {
  import opened HitExpansion
  import opened RelevantMerge
  import opened SemanticIndex
  import opened Sequences
  import opened Sorting
  import opened Text

  /** The neighbourhood and the seed files. */
  datatype Reach = Reach(nodes: set<string>, files: set<string>) {

    ghost predicate Context(c: BuildContextRecord) {
      c.id in nodes || exists f :: f in c.files && f in files
    }

    ghost predicate Symbol(s: SymbolRecord) { s.id in nodes }

    ghost predicate File(f: FileRecord) {
      f.path in files || exists id :: id in f.buildContextIDs && id in nodes
    }

    ghost predicate Call(e: CallEdge) {
      e.sourceID in nodes || e.targetID in nodes || Mentions(e.evidence, files)
    }

    ghost predicate Inheritance(e: InheritanceEdge) {
      e.sourceID in nodes || e.targetID in nodes || Mentions(e.evidence, files)
    }

    ghost predicate Build(e: BuildOwnershipEdge) {
      e.sourceID in nodes || e.targetID in nodes || Mentions(e.evidence, files)
    }

    ghost predicate Overlay(e: OverlayEdge) {
      e.sourceID in nodes || e.targetID in nodes || Mentions(e.evidence, files)
    }

    ghost predicate Reference(r: ReferenceRecord) {
      || r.sourceID in nodes || r.targetID in nodes || r.sourceFile in files || r.targetPath in files
      || Mentions(r.evidence, files)
    }

    ghost predicate Occurrence(o: SymbolOccurrence) { o.symbolID in nodes || o.file in files }
  }

  /** Some item has the key, or the list is full of items whose keys do not come after it. */
  ghost predicate Answers<T>(items: seq<T>, key: T -> string, limit: nat, k: string) {
    || (exists y :: y in items && key(y) == k)
    || (|items| == limit && forall y :: y in items ==> !StrLess(k, key(y)))
  }

  /** The list is in the order of its keys, holds at most `limit` offered items, and answers for every one. */
  ghost predicate Holds<T(!new)>(items: seq<T>, base: seq<T>, index: seq<T>, key: T -> string, reached: T -> bool,
                                 limit: nat)
  {
    && Ascending(items, key) && |items| <= limit
    && (forall y :: y in items ==> Offered(base, index, reached, y))
    && forall x :: Offered(base, index, reached, x) ==> Answers(items, key, limit, key(x))
  }

  lemma PrefixAnswers<T>(sorted: seq<T>, key: T -> string, limit: nat, y: T)
    requires Ascending(sorted, key) && y in sorted
    ensures Answers(Take(sorted, limit), key, limit, key(y))
  {
    var i :| 0 <= i < |sorted| && sorted[i] == y;
    if |sorted| > limit {
      if i < limit {
        assert sorted[..limit][i] == y;
      }
    }
  }

  lemma MergedHolds<T(!new)>(items: seq<T>, base: seq<T>, index: seq<T>, key: T -> string, touched: T -> bool,
                             reached: T -> bool, limit: nat)
    requires Merged(items, base, index, key, touched, limit)
    requires forall x :: touched(x) <==> reached(x)
    ensures Holds(items, base, index, key, reached, limit)
  {
    var all := Candidates(base, index, key, touched);
    var sorted :| Ascending(sorted, key) && multiset(sorted) == multiset(all) && items == Take(sorted, limit);
    SameElements(sorted, all);
    forall y | y in items
      ensures Offered(base, index, reached, y)
    {
      assert y in sorted;
      CandidateOffered(base, index, key, touched, y);
    }
    forall x | Offered(base, index, reached, x)
      ensures Answers(items, key, limit, key(x))
    {
      OfferedIsKeyed(base, index, key, touched, x);
      var y :| y in all && key(y) == key(x);
      PrefixAnswers(sorted, key, limit, y);
    }
  }

  /** The touch tests decide by the ends, the files and the evidence. */
  lemma TouchesAreReached(scope: Scope, reach: Reach)
    requires reach == Reach(scope.nodeSet, scope.fileSet)
    ensures forall c :: scope.TouchesContext(c) <==> reach.Context(c)
    ensures forall s :: scope.TouchesSymbol(s) <==> reach.Symbol(s)
    ensures forall f :: scope.TouchesFile(f) <==> reach.File(f)
    ensures forall e :: scope.TouchesCall(e) <==> reach.Call(e)
    ensures forall e :: scope.TouchesInheritance(e) <==> reach.Inheritance(e)
    ensures forall e :: scope.TouchesBuild(e) <==> reach.Build(e)
    ensures forall e :: scope.TouchesOverlay(e) <==> reach.Overlay(e)
    ensures forall r :: scope.TouchesReference(r) <==> reach.Reference(r)
    ensures forall o :: scope.TouchesOccurrence(o) <==> reach.Occurrence(o)
  {
    forall evidence
      ensures EvidenceTouches(evidence, scope.fileSet) <==> Mentions(evidence, scope.fileSet)
    {
      TouchesMean(evidence, scope.fileSet);
    }
  }

  /** What each list of an expansion holds. */
  lemma ExpansionMeans(index: SemanticIndexV2, hits: Hits, nodes: set<string>, files: set<string>, r: Hits)
    requires Expanded(index, hits, Scope(nodes, files), r)
    ensures var reach := Reach(nodes, files);
            && Holds(r.buildContexts, hits.buildContexts, index.buildContexts, ContextKey, reach.Context, 3)
            && Holds(r.symbols, hits.symbols, index.symbols, SymbolKey, reach.Symbol, 6)
            && Holds(r.files, hits.files, index.files, FileKey, reach.File, 4)
            && Holds(r.calls, hits.calls, index.callEdges, CallKey, reach.Call, 5)
            && Holds(r.inheritance, hits.inheritance, index.inheritanceEdges, InheritanceKey, reach.Inheritance, 4)
            && Holds(r.builds, hits.builds, index.buildOwnershipEdges, BuildKey, reach.Build, 5)
            && Holds(r.overlays, hits.overlays, index.overlayEdges, OverlayKey, reach.Overlay, 5)
            && Holds(r.references, hits.references, index.references, ReferenceKey, reach.Reference, 5)
            && Holds(r.occurrences, hits.occurrences, index.occurrences, OccurrenceKey, reach.Occurrence, 4)
  {
    var scope, reach := Scope(nodes, files), Reach(nodes, files);
    TouchesAreReached(scope, reach);
    MergedHolds(r.buildContexts, hits.buildContexts, index.buildContexts, ContextKey, scope.TouchesContext,
                reach.Context, 3);
    MergedHolds(r.symbols, hits.symbols, index.symbols, SymbolKey, scope.TouchesSymbol, reach.Symbol, 6);
    MergedHolds(r.files, hits.files, index.files, FileKey, scope.TouchesFile, reach.File, 4);
    MergedHolds(r.calls, hits.calls, index.callEdges, CallKey, scope.TouchesCall, reach.Call, 5);
    MergedHolds(r.inheritance, hits.inheritance, index.inheritanceEdges, InheritanceKey, scope.TouchesInheritance,
                reach.Inheritance, 4);
    MergedHolds(r.builds, hits.builds, index.buildOwnershipEdges, BuildKey, scope.TouchesBuild, reach.Build, 5);
    MergedHolds(r.overlays, hits.overlays, index.overlayEdges, OverlayKey, scope.TouchesOverlay, reach.Overlay, 5);
    MergedHolds(r.references, hits.references, index.references, ReferenceKey, scope.TouchesReference,
                reach.Reference, 5);
    MergedHolds(r.occurrences, hits.occurrences, index.occurrences, OccurrenceKey, scope.TouchesOccurrence,
                reach.Occurrence, 4);
  }
}
