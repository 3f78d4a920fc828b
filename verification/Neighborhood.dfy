/** `expandSemanticV2Neighborhood`: the round-by-round expansion around the seeds, proved to return
    exactly the nodes within the hop bound, the endpoints of edges that touch a seed file, and what
    generated code from a seed file leads to. */
module Neighborhood {
  import opened SemanticIndex
  import opened Sequences
  import opened Text

  // ---------------------------------------------------------------------------
  // What the expansion means.

  /** Some edge of one of the five walkable kinds runs from `s` to `t`. */
  ghost predicate HasEdge(index: SemanticIndexV2, s: string, t: string) {
    || (exists e :: e in index.callEdges && e.sourceID == s && e.targetID == t)
    || (exists e :: e in index.buildOwnershipEdges && e.sourceID == s && e.targetID == t)
    || (exists e :: e in index.inheritanceEdges && e.sourceID == s && e.targetID == t)
    || (exists e :: e in index.overlayEdges && e.sourceID == s && e.targetID == t)
    || (exists e :: e in index.references && e.sourceID == s && e.targetID == t)
  }

  /** Some such edge mentions a seed file in its evidence, or is a reference from or to one. */
  ghost predicate HasFileEdge(index: SemanticIndexV2, files: set<string>, s: string, t: string) {
    || (exists e :: e in index.callEdges && e.sourceID == s && e.targetID == t && Mentions(e.evidence, files))
    || (exists e :: e in index.buildOwnershipEdges && e.sourceID == s && e.targetID == t && Mentions(e.evidence, files))
    || (exists e :: e in index.inheritanceEdges && e.sourceID == s && e.targetID == t && Mentions(e.evidence, files))
    || (exists e :: e in index.overlayEdges && e.sourceID == s && e.targetID == t && Mentions(e.evidence, files))
    || (exists e :: e in index.references && e.sourceID == s && e.targetID == t && Refers(e, files))
  }

  ghost predicate Refers(e: ReferenceRecord, files: set<string>) {
    Mentions(e.evidence, files) || e.sourceFile in files || e.targetPath in files
  }

  ghost predicate Adjacent(index: SemanticIndexV2, u: string, v: string) {
    HasEdge(index, u, v) || HasEdge(index, v, u)
  }

  /** A non-blank endpoint of an edge that touches a seed file. */
  ghost predicate Touched(index: SemanticIndexV2, files: set<string>, v: string) {
    !IsBlank(v) && exists w :: HasFileEdge(index, files, v, w) || HasFileEdge(index, files, w, v)
  }

  /** The non-blank target of code generated from a seed file. */
  ghost predicate Generated(index: SemanticIndexV2, files: set<string>, v: string) {
    !IsBlank(v) && exists e :: e in index.generatedCodeEdges && e.sourceFile in files && e.targetID == v
  }

  ghost predicate Chain(index: SemanticIndexV2, p: seq<string>) {
    && p != [] && (forall i :: 0 <= i < |p| ==> !IsBlank(p[i]))
    && forall i :: 0 < i < |p| ==> Adjacent(index, p[i - 1], p[i])
  }

  /** An undirected chain of exactly `k` hops through non-blank nodes from a seed to `v`. */
  ghost predicate SeedChain(index: SemanticIndexV2, seeds: set<string>, v: string, k: nat, p: seq<string>) {
    Chain(index, p) && |p| == k + 1 && p[0] in seeds && p[k] == v
  }

  ghost predicate GeneratedChain(index: SemanticIndexV2, files: set<string>, v: string, k: nat, p: seq<string>) {
    Chain(index, p) && |p| == k + 1 && Generated(index, files, p[0]) && p[k] == v
  }

  ghost predicate SeedHops(index: SemanticIndexV2, seeds: set<string>, v: string, k: nat) {
    exists p :: SeedChain(index, seeds, v, k, p)
  }

  ghost predicate GeneratedHops(index: SemanticIndexV2, files: set<string>, v: string, k: nat) {
    exists p :: GeneratedChain(index, files, v, k, p)
  }

  /** Membership in the neighbourhood, with no mention of rounds or frontiers. */
  ghost predicate InNeighborhood(index: SemanticIndexV2, seeds: set<string>, files: set<string>, depth: int, v: string)
  {
    || (v in seeds && !IsBlank(v))
    || (depth >= 1 && Touched(index, files, v))
    || (exists k: nat :: k <= depth && SeedHops(index, seeds, v, k))
    || (exists k: nat :: k < depth && GeneratedHops(index, files, v, k))
  }

  // ---------------------------------------------------------------------------
  // Rounds.

  /** The frontier after `s` rounds. */
  ghost predicate OnFrontier(index: SemanticIndexV2, seeds: set<string>, files: set<string>, s: nat, v: string) {
    SeedHops(index, seeds, v, s) || exists k: nat :: k < s && GeneratedHops(index, files, v, k)
  }

  /** One round reaches the neighbours of the frontier and the generated targets. */
  ghost predicate NextFrontier(index: SemanticIndexV2, files: set<string>, frontier: set<string>, v: string) {
    || (!IsBlank(v) && exists u :: u in frontier && Adjacent(index, u, v))
    || Generated(index, files, v)
  }

  lemma ChainGrows(index: SemanticIndexV2, p: seq<string>, v: string)
    requires Chain(index, p) && Adjacent(index, p[|p| - 1], v) && !IsBlank(v)
    ensures Chain(index, p + [v])
  {}

  lemma ChainShrinks(index: SemanticIndexV2, p: seq<string>, n: nat)
    requires Chain(index, p) && 0 < n <= |p|
    ensures Chain(index, p[..n])
  {}

  lemma SeedHopsGrow(index: SemanticIndexV2, seeds: set<string>, u: string, v: string, k: nat)
    requires SeedHops(index, seeds, u, k) && Adjacent(index, u, v) && !IsBlank(v)
    ensures SeedHops(index, seeds, v, k + 1)
  {
    var p :| SeedChain(index, seeds, u, k, p);
    ChainGrows(index, p, v);
    assert SeedChain(index, seeds, v, k + 1, p + [v]);
  }

  lemma GeneratedHopsGrow(index: SemanticIndexV2, files: set<string>, u: string, v: string, k: nat)
    requires GeneratedHops(index, files, u, k) && Adjacent(index, u, v) && !IsBlank(v)
    ensures GeneratedHops(index, files, v, k + 1)
  {
    var p :| GeneratedChain(index, files, u, k, p);
    ChainGrows(index, p, v);
    assert GeneratedChain(index, files, v, k + 1, p + [v]);
  }

  lemma SeedHopsShrink(index: SemanticIndexV2, seeds: set<string>, v: string, k: nat, j: nat) returns (u: string)
    requires SeedHops(index, seeds, v, k) && j <= k
    ensures SeedHops(index, seeds, u, j)
    ensures j + 1 == k ==> Adjacent(index, u, v)
  {
    var p :| SeedChain(index, seeds, v, k, p);
    u := p[j];
    ChainShrinks(index, p, j + 1);
    assert SeedChain(index, seeds, u, j, p[..j + 1]);
  }

  lemma GeneratedHopsShrink(index: SemanticIndexV2, files: set<string>, v: string, k: nat, j: nat) returns (u: string)
    requires GeneratedHops(index, files, v, k) && j <= k
    ensures GeneratedHops(index, files, u, j)
    ensures j + 1 == k ==> Adjacent(index, u, v)
  {
    var p :| GeneratedChain(index, files, v, k, p);
    u := p[j];
    ChainShrinks(index, p, j + 1);
    assert GeneratedChain(index, files, u, j, p[..j + 1]);
  }

  lemma NoHops(index: SemanticIndexV2, seeds: set<string>, files: set<string>, v: string)
    ensures SeedHops(index, seeds, v, 0) <==> v in seeds && !IsBlank(v)
    ensures GeneratedHops(index, files, v, 0) <==> Generated(index, files, v)
  {
    if v in seeds && !IsBlank(v) {
      assert SeedChain(index, seeds, v, 0, [v]);
    }
    if Generated(index, files, v) {
      assert GeneratedChain(index, files, v, 0, [v]);
    }
  }

  lemma HopsAreNotBlank(index: SemanticIndexV2, seeds: set<string>, files: set<string>, v: string, k: nat)
    ensures SeedHops(index, seeds, v, k) || GeneratedHops(index, files, v, k) ==> !IsBlank(v)
  {}

  /** The frontier of the next round is exactly the set of nodes one hop further out. */
  lemma FrontierAdvances(index: SemanticIndexV2, seeds: set<string>, files: set<string>, s: nat, frontier: set<string>,
                         v: string)
    requires forall u :: u in frontier <==> OnFrontier(index, seeds, files, s, u)
    ensures NextFrontier(index, files, frontier, v) <==> OnFrontier(index, seeds, files, s + 1, v)
  {
    NoHops(index, seeds, files, v);
    if NextFrontier(index, files, frontier, v) && !Generated(index, files, v) {
      var u :| u in frontier && Adjacent(index, u, v);
      if SeedHops(index, seeds, u, s) {
        SeedHopsGrow(index, seeds, u, v, s);
      } else {
        var k: nat :| k < s && GeneratedHops(index, files, u, k);
        GeneratedHopsGrow(index, files, u, v, k);
      }
    }
    if SeedHops(index, seeds, v, s + 1) {
      var u := SeedHopsShrink(index, seeds, v, s + 1, s);
      HopsAreNotBlank(index, seeds, files, v, s + 1);
      assert u in frontier;
    } else if OnFrontier(index, seeds, files, s + 1, v) {
      var k: nat :| k < s + 1 && GeneratedHops(index, files, v, k);
      if k > 0 {
        var u := GeneratedHopsShrink(index, files, v, k, k - 1);
        HopsAreNotBlank(index, seeds, files, v, k);
        assert OnFrontier(index, seeds, files, s, u);
        assert u in frontier;
      }
    }
  }

  /** Each round adds the new frontier and the file-edge endpoints to the neighbourhood. */
  lemma NeighborhoodAdvances(index: SemanticIndexV2, seeds: set<string>, files: set<string>, s: nat, v: string)
    ensures InNeighborhood(index, seeds, files, s + 1, v) <==>
              || InNeighborhood(index, seeds, files, s, v)
              || Touched(index, files, v) || OnFrontier(index, seeds, files, s + 1, v)
  {
    if OnFrontier(index, seeds, files, s + 1, v) && !SeedHops(index, seeds, v, s + 1) {
      var k: nat :| k < s + 1 && GeneratedHops(index, files, v, k);
    }
    if SeedHops(index, seeds, v, s + 1) {
      assert s + 1 <= s + 1;
    }
  }

  /** Once the frontier is empty, later rounds add nothing. */
  lemma EmptyFrontierIsFinal(index: SemanticIndexV2, seeds: set<string>, files: set<string>, s: nat, depth: int,
                             v: string)
    requires 1 <= s <= depth
    requires forall u :: !OnFrontier(index, seeds, files, s, u)
    ensures InNeighborhood(index, seeds, files, depth, v) <==> InNeighborhood(index, seeds, files, s, v)
  {
    if InNeighborhood(index, seeds, files, depth, v) {
      if k: nat :| k <= depth && SeedHops(index, seeds, v, k) {
        if k >= s {
          var u := SeedHopsShrink(index, seeds, v, k, s);
          assert OnFrontier(index, seeds, files, s, u);
        }
      } else if k: nat :| k < depth && GeneratedHops(index, files, v, k) {
        var u := GeneratedHopsShrink(index, files, v, k, 0);
        assert OnFrontier(index, seeds, files, s, u);
      }
    }
  }

  // ---------------------------------------------------------------------------
  // The expansion itself.

  /** The arguments of one `visit` call. */
  datatype Link = Link(source: string, target: string, touchesFile: bool)

  function CallLink(e: CallEdge, files: set<string>): Link {
    Link(e.sourceID, e.targetID, EvidenceTouches(e.evidence, files))
  }

  function BuildLink(e: BuildOwnershipEdge, files: set<string>): Link {
    Link(e.sourceID, e.targetID, EvidenceTouches(e.evidence, files))
  }

  function InheritanceLink(e: InheritanceEdge, files: set<string>): Link {
    Link(e.sourceID, e.targetID, EvidenceTouches(e.evidence, files))
  }

  function OverlayLink(e: OverlayEdge, files: set<string>): Link {
    Link(e.sourceID, e.targetID, EvidenceTouches(e.evidence, files))
  }

  function ReferenceLink(e: ReferenceRecord, files: set<string>): Link {
    Link(e.sourceID, e.targetID, ReferenceTouches(e, files))
  }

  /** `l` is the `visit` call made for some edge of the index. */
  ghost predicate IsLink(index: SemanticIndexV2, files: set<string>, l: Link) {
    || (exists e :: e in index.callEdges && CallLink(e, files) == l)
    || (exists e :: e in index.buildOwnershipEdges && BuildLink(e, files) == l)
    || (exists e :: e in index.inheritanceEdges && InheritanceLink(e, files) == l)
    || (exists e :: e in index.overlayEdges && OverlayLink(e, files) == l)
    || (exists e :: e in index.references && ReferenceLink(e, files) == l)
  }

  lemma LinksAreEdges(index: SemanticIndexV2, files: set<string>, l: Link)
    requires IsLink(index, files, l)
    ensures HasEdge(index, l.source, l.target)
    ensures l.touchesFile ==> HasFileEdge(index, files, l.source, l.target)
  {
    forall evidence
      ensures EvidenceTouches(evidence, files) <==> Mentions(evidence, files)
    {
      TouchesMean(evidence, files);
    }
  }

  lemma EdgesAreLinks(index: SemanticIndexV2, files: set<string>, s: string, t: string) returns (l: Link)
    requires HasEdge(index, s, t)
    ensures IsLink(index, files, l) && l.source == s && l.target == t
  {
    if e :| e in index.callEdges && e.sourceID == s && e.targetID == t {
      l := CallLink(e, files);
    } else if e :| e in index.buildOwnershipEdges && e.sourceID == s && e.targetID == t {
      l := BuildLink(e, files);
    } else if e :| e in index.inheritanceEdges && e.sourceID == s && e.targetID == t {
      l := InheritanceLink(e, files);
    } else if e :| e in index.overlayEdges && e.sourceID == s && e.targetID == t {
      l := OverlayLink(e, files);
    } else {
      var e :| e in index.references && e.sourceID == s && e.targetID == t;
      l := ReferenceLink(e, files);
    }
  }

  lemma FileEdgesAreLinks(index: SemanticIndexV2, files: set<string>, s: string, t: string)
    requires HasFileEdge(index, files, s, t)
    ensures IsLink(index, files, Link(s, t, true)) && HasEdge(index, s, t)
  {
    forall evidence
      ensures EvidenceTouches(evidence, files) <==> Mentions(evidence, files)
    {
      TouchesMean(evidence, files);
    }
  }

  /** The far ends a visited edge leads to from the frontier. */
  function ReachedBy(frontier: set<string>, l: Link): set<string> {
    (if l.source in frontier && !IsBlank(l.target) then {l.target} else {}) +
    (if l.target in frontier && !IsBlank(l.source) then {l.source} else {})
  }

  function VisitedBy(frontier: set<string>, l: Link): set<string> {
    (if l.touchesFile then (set v | v in {l.source, l.target} && !IsBlank(v)) else {}) + ReachedBy(frontier, l)
  }

  /** Visiting every edge reaches the non-blank neighbours of the frontier. */
  lemma VisitsReachNeighbours(index: SemanticIndexV2, files: set<string>, frontier: set<string>, v: string)
    ensures (exists l :: IsLink(index, files, l) && v in ReachedBy(frontier, l)) <==>
              (!IsBlank(v) && exists u :: u in frontier && Adjacent(index, u, v))
  {
    if l :| IsLink(index, files, l) && v in ReachedBy(frontier, l) {
      LinksAreEdges(index, files, l);
      assert Adjacent(index, l.source, l.target) && Adjacent(index, l.target, l.source);
    }
    if !IsBlank(v) && exists u :: u in frontier && Adjacent(index, u, v) {
      var u :| u in frontier && Adjacent(index, u, v);
      if HasEdge(index, u, v) {
        var l := EdgesAreLinks(index, files, u, v);
        assert v in ReachedBy(frontier, l);
      } else {
        var l := EdgesAreLinks(index, files, v, u);
        assert v in ReachedBy(frontier, l);
      }
    }
  }

  /** Besides those, visiting adds the non-blank endpoints of edges that touch a seed file. */
  lemma VisitsAddTouched(index: SemanticIndexV2, files: set<string>, frontier: set<string>, v: string)
    ensures (exists l :: IsLink(index, files, l) && v in VisitedBy(frontier, l)) <==>
              (Touched(index, files, v) || exists l :: IsLink(index, files, l) && v in ReachedBy(frontier, l))
  {
    if l :| IsLink(index, files, l) && v in VisitedBy(frontier, l) {
      LinksAreEdges(index, files, l);
    }
    if l :| IsLink(index, files, l) && v in ReachedBy(frontier, l) {
      assert v in VisitedBy(frontier, l);
    }
    if Touched(index, files, v) {
      var w :| HasFileEdge(index, files, v, w) || HasFileEdge(index, files, w, v);
      var l := if HasFileEdge(index, files, v, w) then Link(v, w, true) else Link(w, v, true);
      FileEdgesAreLinks(index, files, l.source, l.target);
      assert v in VisitedBy(frontier, l);
    }
  }

  /** The two sets after `s` rounds. */
  ghost predicate After(index: SemanticIndexV2, seeds: set<string>, files: set<string>, s: nat, frontier: set<string>,
                        nodeSet: set<string>)
  {
    forall v ::
      (v in frontier <==> OnFrontier(index, seeds, files, s, v)) &&
      (v in nodeSet <==> InNeighborhood(index, seeds, files, s, v))
  }

  lemma AfterNone(index: SemanticIndexV2, seeds: set<string>, files: set<string>, start: set<string>)
    requires start == set id | id in seeds && !IsBlank(id)
    ensures After(index, seeds, files, 0, start, start)
  {
    forall v
      ensures v in start <==> OnFrontier(index, seeds, files, 0, v)
      ensures v in start <==> InNeighborhood(index, seeds, files, 0, v)
    {
      NoHops(index, seeds, files, v);
    }
  }

  lemma AfterRound(index: SemanticIndexV2, seeds: set<string>, files: set<string>, s: nat, frontier: set<string>,
                   nodeSet: set<string>, frontier': set<string>, nodeSet': set<string>)
    requires After(index, seeds, files, s, frontier, nodeSet)
    requires forall v :: v in frontier' <==> NextFrontier(index, files, frontier, v)
    requires forall v :: v in nodeSet' <==> v in nodeSet || Touched(index, files, v) || v in frontier'
    ensures After(index, seeds, files, s + 1, frontier', nodeSet')
  {
    forall v
      ensures v in frontier' <==> OnFrontier(index, seeds, files, s + 1, v)
      ensures v in nodeSet' <==> InNeighborhood(index, seeds, files, s + 1, v)
    {
      FrontierAdvances(index, seeds, files, s, frontier, v);
      NeighborhoodAdvances(index, seeds, files, s, v);
    }
  }

  /** No round is left, or the remaining ones add nothing. */
  lemma Settled(index: SemanticIndexV2, seeds: set<string>, files: set<string>, s: nat, frontier: set<string>,
                nodeSet: set<string>, depth: int)
    requires After(index, seeds, files, s, frontier, nodeSet)
    requires (s == depth || s == 0 >= depth) || (frontier == {} && 0 < s <= depth)
    ensures forall v :: v in nodeSet <==> InNeighborhood(index, seeds, files, depth, v)
  {
    forall v
      ensures v in nodeSet <==> InNeighborhood(index, seeds, files, depth, v)
    {
      NoHops(index, seeds, files, v);
      if s < depth {
        assert forall u :: OnFrontier(index, seeds, files, s, u) ==> u in frontier;
        EmptyFrontierIsFinal(index, seeds, files, s, depth, v);
      }
    }
  }

  /** A frontier, and how the edges of a list are viewed as links. */
  datatype Sight<!E> = Sight(frontier: set<string>, view: E -> Link) {

    function Visited(e: E): set<string> { VisitedBy(frontier, view(e)) }

    function Reached(e: E): set<string> { ReachedBy(frontier, view(e)) }
  }

  /** The variables shared by the `visit` closure and the loops around it. */
  class Expansion {
    var nodeSet: set<string>
    var frontier: set<string>
    var next: set<string>

    constructor ()
      ensures nodeSet == {} && frontier == {} && next == {}
    {
      nodeSet, frontier, next := {}, {}, {};
    }

    /** The `visit` closure. */
    method Visit(sourceID: string, targetID: string, touchesFile: bool)
      modifies this
      ensures frontier == old(frontier)
      ensures nodeSet == old(nodeSet) + VisitedBy(frontier, Link(sourceID, targetID, touchesFile))
      ensures next == old(next) + ReachedBy(frontier, Link(sourceID, targetID, touchesFile))
    {
      if touchesFile {
        if !IsBlank(sourceID) {
          nodeSet := nodeSet + {sourceID};
        }
        if !IsBlank(targetID) {
          nodeSet := nodeSet + {targetID};
        }
      }
      if sourceID in frontier {
        if !IsBlank(targetID) {
          nodeSet := nodeSet + {targetID};
          next := next + {targetID};
        }
      }
      if targetID in frontier {
        if !IsBlank(sourceID) {
          nodeSet := nodeSet + {sourceID};
          next := next + {sourceID};
        }
      }
    }

    /** One of the loops over an edge list. */
    method VisitEach<E>(edges: seq<E>, view: E -> Link)
      modifies this
      ensures frontier == old(frontier)
      ensures forall v :: v in nodeSet <==>
                (v in old(nodeSet) || exists e :: e in edges && v in VisitedBy(frontier, view(e)))
      ensures forall v :: v in next <==>
                (v in old(next) || exists e :: e in edges && v in ReachedBy(frontier, view(e)))
    {
      ghost var sight := Sight(frontier, view);
      for i := 0 to |edges|
        invariant frontier == old(frontier)
        invariant nodeSet == old(nodeSet) + UnionMap(sight.Visited, edges[..i])
        invariant next == old(next) + UnionMap(sight.Reached, edges[..i])
      {
        UnionMapNext(sight.Visited, edges, i);
        UnionMapNext(sight.Reached, edges, i);
        var link := view(edges[i]);
        Visit(link.source, link.target, link.touchesFile);
      }
      assert edges[..|edges|] == edges;
      UnionMapMembers(sight.Visited, edges);
      UnionMapMembers(sight.Reached, edges);
    }

    /** The loop over generated-code edges. */
    method VisitGenerated(edges: seq<GeneratedCodeEdge>, seedFiles: set<string>)
      modifies this
      ensures frontier == old(frontier)
      ensures forall v :: v in nodeSet <==>
                (v in old(nodeSet) || exists e :: e in edges && e.sourceFile in seedFiles && !IsBlank(v) &&
                                                  e.targetID == v)
      ensures forall v :: v in next <==>
                (v in old(next) || exists e :: e in edges && e.sourceFile in seedFiles && !IsBlank(v) &&
                                               e.targetID == v)
    {
      for i := 0 to |edges|
        invariant frontier == old(frontier)
        invariant forall v :: v in nodeSet <==>
                    (v in old(nodeSet) || exists e :: e in edges[..i] && e.sourceFile in seedFiles && !IsBlank(v) &&
                                                      e.targetID == v)
        invariant forall v :: v in next <==>
                    (v in old(next) || exists e :: e in edges[..i] && e.sourceFile in seedFiles && !IsBlank(v) &&
                                                   e.targetID == v)
      {
        if edges[i].sourceFile in seedFiles {
          if !IsBlank(edges[i].targetID) {
            nodeSet := nodeSet + {edges[i].targetID};
            next := next + {edges[i].targetID};
          }
        }
        assert edges[..i + 1] == edges[..i] + [edges[i]];
      }
      assert edges[..|edges|] == edges;
    }

    /** The five loops that call `visit`. */
    method VisitEdges(index: SemanticIndexV2, seedFiles: set<string>)
      modifies this
      ensures frontier == old(frontier)
      ensures forall v :: v in nodeSet <==>
                (v in old(nodeSet) || exists l :: IsLink(index, seedFiles, l) && v in VisitedBy(frontier, l))
      ensures forall v :: v in next <==>
                (v in old(next) || exists l :: IsLink(index, seedFiles, l) && v in ReachedBy(frontier, l))
    {
      VisitEach(index.callEdges, (e: CallEdge) => CallLink(e, seedFiles));
      VisitEach(index.buildOwnershipEdges, (e: BuildOwnershipEdge) => BuildLink(e, seedFiles));
      VisitEach(index.inheritanceEdges, (e: InheritanceEdge) => InheritanceLink(e, seedFiles));
      VisitEach(index.overlayEdges, (e: OverlayEdge) => OverlayLink(e, seedFiles));
      VisitEach(index.references, (e: ReferenceRecord) => ReferenceLink(e, seedFiles));
    }

    /** The loop over the seeds. */
    method Start(seedIDs: set<string>)
      requires nodeSet == frontier == {}
      modifies this
      ensures nodeSet == frontier == set id | id in seedIDs && !IsBlank(id)
    {
      var pending := seedIDs;
      while pending != {}
        invariant pending <= seedIDs
        invariant nodeSet == frontier == set id | id in seedIDs - pending && !IsBlank(id)
        decreases |pending|
      {
        var id :| id in pending;
        pending := pending - {id};
        if IsBlank(id) {
          continue;
        }
        nodeSet := nodeSet + {id};
        frontier := frontier + {id};
      }
      assert seedIDs - pending == seedIDs;
    }

    /** One round of the outer loop, up to `frontier = next`. */
    method Round(index: SemanticIndexV2, seedFiles: set<string>)
      modifies this
      ensures forall v :: v in frontier <==> NextFrontier(index, seedFiles, old(frontier), v)
      ensures forall v :: v in nodeSet <==> v in old(nodeSet) || Touched(index, seedFiles, v) || v in frontier
    {
      next := {};
      VisitEdges(index, seedFiles);
      VisitGenerated(index.generatedCodeEdges, seedFiles);
      forall v
        ensures v in next <==> NextFrontier(index, seedFiles, frontier, v)
        ensures v in nodeSet <==> v in old(nodeSet) || Touched(index, seedFiles, v) || v in next
      {
        VisitsReachNeighbours(index, seedFiles, frontier, v);
        VisitsAddTouched(index, seedFiles, frontier, v);
        assert Generated(index, seedFiles, v) <==>
          exists e :: e in index.generatedCodeEdges && e.sourceFile in seedFiles && !IsBlank(v) && e.targetID == v;
      }
      frontier := next;
    }

    /** A round takes the sets after `step` rounds to those after one more. */
    method Advance(index: SemanticIndexV2, ghost seedIDs: set<string>, seedFiles: set<string>, ghost step: nat)
      requires After(index, seedIDs, seedFiles, step, frontier, nodeSet)
      modifies this
      ensures After(index, seedIDs, seedFiles, step + 1, frontier, nodeSet)
    {
      ghost var before, nodes := frontier, nodeSet;
      Round(index, seedFiles);
      AfterRound(index, seedIDs, seedFiles, step, before, nodes, frontier, nodeSet);
    }
  }

  method ExpandSemanticV2Neighborhood(index: SemanticIndexV2, seedIDs: set<string>, seedFiles: set<string>, depth: int)
    returns (nodeSet: set<string>)
    ensures forall v :: v in nodeSet <==> InNeighborhood(index, seedIDs, seedFiles, depth, v)
  {
    var x := new Expansion();
    x.Start(seedIDs);
    AfterNone(index, seedIDs, seedFiles, x.frontier);
    var step := 0;
    while step < depth
      invariant 0 <= step && (step <= depth || step == 0)
      invariant After(index, seedIDs, seedFiles, step, x.frontier, x.nodeSet)
    {
      x.Advance(index, seedIDs, seedFiles, step);
      step := step + 1;
      if x.frontier == {} {
        break;
      }
    }
    Settled(index, seedIDs, seedFiles, step, x.frontier, x.nodeSet, depth);
    nodeSet := x.nodeSet;
  }

  // ---------------------------------------------------------------------------
  // What the neighbourhood does not depend on, and what it grows with.

  /** The two indexes list the same edges, in any order. */
  ghost predicate SameEdges(a: SemanticIndexV2, b: SemanticIndexV2) {
    && multiset(a.callEdges) == multiset(b.callEdges)
    && multiset(a.buildOwnershipEdges) == multiset(b.buildOwnershipEdges)
    && multiset(a.inheritanceEdges) == multiset(b.inheritanceEdges)
    && multiset(a.overlayEdges) == multiset(b.overlayEdges)
    && multiset(a.references) == multiset(b.references)
    && multiset(a.generatedCodeEdges) == multiset(b.generatedCodeEdges)
  }

  lemma SameEdgesSameRelations(a: SemanticIndexV2, b: SemanticIndexV2)
    requires SameEdges(a, b)
    ensures forall u, v :: Adjacent(a, u, v) <==> Adjacent(b, u, v)
    ensures forall files, v :: Touched(a, files, v) <==> Touched(b, files, v)
    ensures forall files, v :: Generated(a, files, v) <==> Generated(b, files, v)
  {
    SameElements(a.callEdges, b.callEdges);
    SameElements(a.buildOwnershipEdges, b.buildOwnershipEdges);
    SameElements(a.inheritanceEdges, b.inheritanceEdges);
    SameElements(a.overlayEdges, b.overlayEdges);
    SameElements(a.references, b.references);
    SameElements(a.generatedCodeEdges, b.generatedCodeEdges);
    assert forall files, s, t :: HasFileEdge(a, files, s, t) <==> HasFileEdge(b, files, s, t);
  }

  /** Permuting the edge lists leaves the neighbourhood unchanged. */
  lemma OrderIndependent(a: SemanticIndexV2, b: SemanticIndexV2, seeds: set<string>, files: set<string>, depth: int,
                         v: string)
    requires SameEdges(a, b)
    ensures InNeighborhood(a, seeds, files, depth, v) <==> InNeighborhood(b, seeds, files, depth, v)
  {
    SameEdgesSameRelations(a, b);
    assert forall p :: Chain(a, p) <==> Chain(b, p);
    forall k: nat
      ensures SeedHops(a, seeds, v, k) <==> SeedHops(b, seeds, v, k)
      ensures GeneratedHops(a, files, v, k) <==> GeneratedHops(b, files, v, k)
    {
      assert forall p :: SeedChain(a, seeds, v, k, p) <==> SeedChain(b, seeds, v, k, p);
      assert forall p :: GeneratedChain(a, files, v, k, p) <==> GeneratedChain(b, files, v, k, p);
    }
  }

  /** A larger bound or more seeds never lose a node. */
  lemma Monotone(index: SemanticIndexV2, seeds: set<string>, more: set<string>, files: set<string>,
                 depth: int, deeper: int, v: string)
    requires seeds <= more && depth <= deeper
    requires InNeighborhood(index, seeds, files, depth, v)
    ensures InNeighborhood(index, more, files, deeper, v)
  {
    if k: nat :| k <= depth && SeedHops(index, seeds, v, k) {
      var p :| SeedChain(index, seeds, v, k, p);
      assert SeedChain(index, more, v, k, p);
      assert SeedHops(index, more, v, k);
    }
  }

  /** No blank identifier ever enters. */
  lemma NeverBlank(index: SemanticIndexV2, seeds: set<string>, files: set<string>, depth: int, v: string)
    requires InNeighborhood(index, seeds, files, depth, v)
    ensures !IsBlank(v)
  {}
}
