/** The records of the semantic index that graph retrieval reads. Fields nothing here reads are dropped. */
module SemanticIndex {
  import opened Text

  datatype FileRecord = FileRecord(path: string, buildContextIDs: seq<string>)

  datatype SymbolRecord = SymbolRecord(id: string, name: string, canonicalName: string, file: string)

  datatype SymbolOccurrence = SymbolOccurrence(symbolID: string, file: string, role: string)

  datatype ReferenceRecord = ReferenceRecord(sourceID: string, sourceFile: string, targetID: string,
                                             targetPath: string, kind: string, evidence: seq<string>)

  datatype CallEdge = CallEdge(sourceID: string, targetID: string, kind: string, evidence: seq<string>)

  datatype InheritanceEdge = InheritanceEdge(sourceID: string, targetID: string, evidence: seq<string>)

  datatype BuildOwnershipEdge = BuildOwnershipEdge(
    sourceID: string, targetID: string, kind: string, evidence: seq<string>)

  datatype GeneratedCodeEdge = GeneratedCodeEdge(sourceFile: string, targetID: string, kind: string)

  datatype OverlayEdge = OverlayEdge(
    sourceID: string, targetID: string, kind: string, domain: string, evidence: seq<string>)

  datatype BuildContextRecord = BuildContextRecord(
    id: string, name: string, kind: string, directory: string, project: string, target: string, moduleName: string,
    plugin: string, compiler: string, files: seq<string>, includePaths: seq<string>, defines: seq<string>,
    forceIncludes: seq<string>, source: string, sourceAdapter: string, confidence: string)

  datatype SemanticIndexV2 = SemanticIndexV2(
    files: seq<FileRecord>, buildContexts: seq<BuildContextRecord>, symbols: seq<SymbolRecord>,
    occurrences: seq<SymbolOccurrence>, references: seq<ReferenceRecord>, callEdges: seq<CallEdge>,
    inheritanceEdges: seq<InheritanceEdge>, buildOwnershipEdges: seq<BuildOwnershipEdge>,
    generatedCodeEdges: seq<GeneratedCodeEdge>, overlayEdges: seq<OverlayEdge>, primaryStartup: string)

  /** `edgeTouchesFiles`: some evidence line mentions some file of the set. */
  predicate EvidenceTouches(evidence: seq<string>, fileSet: set<string>) {
    exists item | item in evidence :: exists path | path in fileSet :: Contains(item, path)
  }

  /** Some path of the set stands somewhere in some line of the evidence. */
  ghost predicate Mentions(evidence: seq<string>, fileSet: set<string>) {
    exists item, path, at: nat :: item in evidence && path in fileSet && StandsAt(item, path, at)
  }

  predicate StandsAt(item: string, path: string, at: nat) {
    at + |path| <= |item| && forall i :: 0 <= i < |path| ==> item[at + i] == path[i]
  }

  lemma OccursIsStands(item: string, path: string, at: nat)
    ensures OccursAt(item, path, at) <==> StandsAt(item, path, at)
  {
    if OccursAt(item, path, at) {
      forall i | 0 <= i < |path|
        ensures item[at + i] == path[i]
      {
        assert item[at..at + |path|][i] == path[i];
      }
    }
    if StandsAt(item, path, at) {
      assert item[at..at + |path|] == path;
    }
  }

  lemma TouchesMean(evidence: seq<string>, fileSet: set<string>)
    ensures EvidenceTouches(evidence, fileSet) <==> Mentions(evidence, fileSet)
  {
    if item, path, at: nat :| item in evidence && path in fileSet && StandsAt(item, path, at) {
      OccursIsStands(item, path, at);
    }
    if EvidenceTouches(evidence, fileSet) {
      var item :| item in evidence && exists path | path in fileSet :: Contains(item, path);
      var path :| path in fileSet && Contains(item, path);
      var at :| 0 <= at <= |item| && OccursAt(item, path, at);
      OccursIsStands(item, path, at);
    }
  }

  /** The file test the expansion applies to a reference. */
  predicate ReferenceTouches(r: ReferenceRecord, fileSet: set<string>) {
    EvidenceTouches(r.evidence, fileSet) || r.sourceFile in fileSet || r.targetPath in fileSet
  }
}
