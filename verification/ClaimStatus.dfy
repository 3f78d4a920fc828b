/** Which issues a claim gets, and which status follows, in terms of the records of the run. */
module ClaimStatus {
  import opened ClaimCauses
  import opened ClaimGrounding
  import opened ClaimModel
  import opened ClaimRun
  import opened ClaimVerifier
  import opened SemanticIndex
  import opened Sequences
  import opened Text

  // ---------------------------------------------------------------------------
  // The issues, one by one.

  /** The severity of what is missing: it blocks a high-confidence claim. */
  function Scaled(k: Case, severity: string): string {
    if k.High() then "blocking" else severity
  }

  /** The issues over one cited id. */
  ghost predicate IdRaised(k: Case, id: string, x: Issue) {
    || (k.Unknown(id) && x == Issue("packet_id_not_found", Scaled(k, "error"), Trim(id)))
    || (exists p :: k.CitedUnder(id, p) && k.Foreign(p) && x == Issue("packet_shard_scope_mismatch", "blocking", p.id))
    || (exists p :: k.CitedUnder(id, p) && !k.Passes(p.path) &&
          x == Issue("packet_source_scope_mismatch", "blocking", p.id))
  }

  ghost predicate MissingRaised(k: Case, x: Issue) {
    || (k.CitesNothing() && x == Issue("missing_packet_id", Scaled(k, "warning"), k.claim.claim))
    || (!k.CitesNothing() && (forall p :: !k.Cites(p)) && x == Issue("no_valid_packet", Scaled(k, "error"), ""))
  }

  ghost predicate ParseRaised(k: Case, x: Issue) {
    || (exists raw :: k.Unparsed(raw) && x == Issue("unparseable_source_anchor", Scaled(k, "warning"), raw))
    || (k.AnchorsNothing() && x == Issue("missing_source_anchor", Scaled(k, "warning"), ""))
  }

  ghost predicate AnchorRaised(k: Case, raw: string, path: string, line: int, x: Issue) {
    && k.AnchorAt(raw, path, line)
    && (|| (!k.Passes(path) && x == Issue("source_scope_mismatch", "blocking", raw))
        || (k.MissesFile(path) && x == Issue("source_packet_mismatch", "warning", raw))
        || (k.MissesLine(path, line) && x == Issue("line_range_mismatch", "blocking", raw)))
  }

  ghost predicate SymbolRaised(k: Case, x: Issue) {
    exists symbol :: symbol in k.v.h.citedSymbols(k.claim) && !k.Knows(symbol) &&
      x == Issue("symbol_mismatch", "blocking", symbol)
  }

  ghost predicate EdgeRaised(k: Case, x: Issue) {
    && k.v.h.needsGraphEdge(k.claim) && (forall edgeID :: !k.HasEdge(edgeID))
    && x == Issue("graph_edge_unverified", "warning", k.claim.claim)
  }

  predicate FactRaised(k: Case, x: Issue) {
    || (k.v.h.coverageConflict(k.claim) && x == Issue("coverage_fact_conflict", "blocking", ""))
    || (k.v.h.architectureConflict(k.claim) && x == Issue("architecture_fact_conflict", "blocking", ""))
    || (k.v.h.driverConflict(k.claim) && x == Issue("windows_driver_fact_conflict", "blocking", ""))
  }

  /** A security-relevant claim says a boundary is safe that the overlay records as open. */
  ghost predicate BoundaryConflict(k: Case) {
    k.v.h.securityRelevant(k.claim) && k.v.h.contradictsBoundary(k.claim, k.Found(k.claim.evidencePacketIDs))
  }

  /** A security-relevant claim with packets that no edge of the overlay links to. */
  ghost predicate Unlinked(k: Case) {
    && k.v.h.securityRelevant(k.claim) && k.v.h.overlayHasEdges && (exists p :: k.Cites(p))
    && !k.v.h.overlayTouches(k.claim, k.Found(k.claim.evidencePacketIDs))
  }

  ghost predicate SecurityRaised(k: Case, x: Issue) {
    || (BoundaryConflict(k) && x == Issue("security_boundary_invariant_violation", "blocking", ""))
    || (Unlinked(k) && x == Issue("security_overlay_unlinked", "warning", k.claim.claim))
  }

  ghost predicate SourceRaised(k: Case, x: Issue) {
    ParseRaised(k, x) || exists raw, path, line :: AnchorRaised(k, raw, path, line, x)
  }

  ghost predicate Raised(k: Case, x: Issue) {
    || (k.Ambiguous() && x == Issue("duplicate_shard_id", "blocking", k.w.shardID))
    || (exists id :: IdRaised(k, id, x)) || MissingRaised(k, x) || SourceRaised(k, x) || SymbolRaised(k, x)
    || EdgeRaised(k, x) || FactRaised(k, x) || SecurityRaised(k, x)
  }

  // ---------------------------------------------------------------------------
  // The checks raise exactly these.

  lemma HighMeans(k: Case)
    ensures k.Check().Original() == "high" <==> k.High()
    ensures k.Check().Original() == "low" <==> k.LowConfidence()
    ensures forall severity :: k.v.h.SeverityFor(k.claim.confidence, severity) == Scaled(k, severity)
    ensures forall severity :: k.v.h.SeverityFor(k.Check().Original(), severity) == Scaled(k, severity)
  {
    NormalizeWords(k.v.h, k.claim.confidence);
    NormalizeMeans(k.v.h, k.claim.confidence);
    forall severity
      ensures k.v.h.SeverityFor(k.claim.confidence, severity) == Scaled(k, severity)
      ensures k.v.h.SeverityFor(k.Check().Original(), severity) == Scaled(k, severity)
    {
      SeverityMeans(k.v.h, k.claim.confidence, severity);
      SeverityMeans(k.v.h, k.Check().Original(), severity);
    }
  }

  lemma PacketIssuesMean(k: Case, id: string, x: Issue)
    requires id in k.claim.evidencePacketIDs
    ensures x in k.Check().PacketIssues(id) <==> IdRaised(k, id, x)
  {
    var c := k.Check();
    HighMeans(k);
    AmbiguousMeans(k);
    if Trim(id) != "" {
      LookupFinds(k, id);
      match c.Lookup(id)
      case None =>
        forall p
          ensures !k.CitedUnder(id, p)
        {
          LookupIs(k, id, p);
        }
      case Some(p) =>
        ForeignMeans(k, p);
        ScopeMeans(k, p.path);
        forall q | k.CitedUnder(id, q)
          ensures q == p
        {
          FoundIsUnique(k, id, p, q);
        }
    }
  }

  lemma PacketsRaise(k: Case, x: Issue)
    ensures x in FlatMap(k.Check().PacketIssues, k.claim.evidencePacketIDs) <==> exists id :: IdRaised(k, id, x)
  {
    FlatMapMembers(k.Check().PacketIssues, k.claim.evidencePacketIDs);
    forall id | id in k.claim.evidencePacketIDs
      ensures x in k.Check().PacketIssues(id) <==> IdRaised(k, id, x)
    {
      PacketIssuesMean(k, id, x);
    }
  }

  lemma SamePackets(k: Case)
    ensures forall p :: p in k.Check().Packets() <==> k.Cites(p)
  {
    forall p
      ensures p in k.Check().Packets() <==> k.Cites(p)
    {
      PacketsAreCited(k, p);
    }
  }

  lemma NoPackets(k: Case)
    ensures k.Check().Packets() == [] <==> forall p :: !k.Cites(p)
  {
    SamePackets(k);
    if k.Check().Packets() != [] {
      assert k.Check().Packets()[0] in k.Check().Packets();
    }
  }

  lemma MissingRaise(k: Case, x: Issue)
    ensures x in k.Check().MissingPacketIssues() <==> MissingRaised(k, x)
  {
    HighMeans(k);
    NoPackets(k);
    UniquesEmpty(k.claim.evidencePacketIDs);
  }

  // --- anchors

  lemma ParseMeans(k: Case, raw: string)
    requires raw in k.claim.sourceAnchors
    ensures k.Check().ParsedAnchor(raw) == [] <==> forall path, line :: !k.AnchorAt(raw, path, line)
    ensures forall path, line :: k.AnchorAt(raw, path, line) ==>
              k.Check().ParsedAnchor(raw) == [Anchor(raw, path, line)]
    ensures forall a :: a in k.Check().ParsedAnchor(raw) ==> a.raw == raw && k.AnchorAt(raw, a.path, a.line)
  {
    if Trim(raw) != "" && k.Check().Parse(raw).Some? {
      var hit := k.v.h.parseAnchor(raw).value;
      assert k.AnchorAt(raw, hit.0, hit.1);
    }
  }

  lemma AnchorsAreParsed(k: Case, a: Anchor)
    ensures a in k.Check().Anchors() <==> k.AnchorAt(a.raw, a.path, a.line)
  {
    FlatMapMembers(k.Check().ParsedAnchor, k.claim.sourceAnchors);
    if raw :| raw in k.claim.sourceAnchors && a in k.Check().ParsedAnchor(raw) {
      ParseMeans(k, raw);
    }
    if k.AnchorAt(a.raw, a.path, a.line) {
      ParseMeans(k, a.raw);
      assert a in k.Check().ParsedAnchor(a.raw);
    }
  }

  lemma FileFits(k: Case, a: Anchor)
    ensures (exists p :: p in k.Check().Packets() && k.Check().SamePath(a, p)) <==> k.CitesFile(a.path)
  {
    SamePackets(k);
    assert forall p :: k.Check().SamePath(a, p) <==> k.SameFile(p.path, a.path);
  }

  lemma LineFits(k: Case, a: Anchor)
    requires k.Passes(a.path) && k.CitesFile(a.path)
    ensures (exists p :: p in k.Check().Packets() && k.Check().SamePath(a, p) && k.Check().LineFits(a, p)) <==>
              !k.MissesLine(a.path, a.line)
  {
    SamePackets(k);
    assert forall p :: k.Check().SamePath(a, p) <==> k.SameFile(p.path, a.path);
  }

  lemma AnchorIssuesMean(k: Case, a: Anchor, x: Issue)
    requires k.AnchorAt(a.raw, a.path, a.line)
    ensures x in k.Check().AnchorIssues(a) <==> AnchorRaised(k, a.raw, a.path, a.line, x)
  {
    AmbiguousMeans(k);
    ScopeMeans(k, a.path);
    if k.Passes(a.path) {
      InScopeIssues(k, a);
    }
  }

  /** The issues of an anchor that passes the scope test. */
  lemma InScopeIssues(k: Case, a: Anchor)
    requires k.Passes(a.path) && (k.Check().ambiguous || k.Check().InScope(a.path))
    ensures k.Check().AnchorIssues(a) ==
              if k.MissesFile(a.path) then [Issue("source_packet_mismatch", "warning", a.raw)]
              else if k.MissesLine(a.path, a.line) then [Issue("line_range_mismatch", "blocking", a.raw)]
              else []
    ensures !(k.MissesFile(a.path) && k.MissesLine(a.path, a.line))
  {
    NoPackets(k);
    FileFits(k, a);
    if k.CitesFile(a.path) {
      LineFits(k, a);
    }
  }

  lemma AnchorsRaise(k: Case, x: Issue)
    ensures x in FlatMap(k.Check().AnchorIssues, k.Check().Anchors()) <==>
              exists raw, path, line :: AnchorRaised(k, raw, path, line, x)
  {
    var c := k.Check();
    FlatMapMembers(c.AnchorIssues, c.Anchors());
    if a :| a in c.Anchors() && x in c.AnchorIssues(a) {
      AnchorsAreParsed(k, a);
      AnchorIssuesMean(k, a, x);
    }
    if raw, path, line :| AnchorRaised(k, raw, path, line, x) {
      AnchorsAreParsed(k, Anchor(raw, path, line));
      AnchorIssuesMean(k, Anchor(raw, path, line), x);
    }
  }

  lemma ParsesRaise(k: Case, x: Issue)
    ensures x in FlatMap(k.Check().ParseIssues, k.claim.sourceAnchors) <==>
              exists raw :: k.Unparsed(raw) && x == Issue("unparseable_source_anchor", Scaled(k, "warning"), raw)
  {
    HighMeans(k);
    FlatMapMembers(k.Check().ParseIssues, k.claim.sourceAnchors);
    forall raw | raw in k.claim.sourceAnchors
      ensures x in k.Check().ParseIssues(raw) <==>
                k.Unparsed(raw) && x == Issue("unparseable_source_anchor", Scaled(k, "warning"), raw)
    {
      ParseMeans(k, raw);
    }
  }

  /** No anchor parses and none fails to exactly when all are blank. */
  lemma NoAnchors(k: Case)
    ensures k.Check().Anchors() == [] && FlatMap(k.Check().ParseIssues, k.claim.sourceAnchors) == [] <==>
              k.AnchorsNothing()
  {
    var c := k.Check();
    var unparsed := FlatMap(c.ParseIssues, k.claim.sourceAnchors);
    if c.Anchors() != [] {
      AnchorsAreParsed(k, c.Anchors()[0]);
    } else if unparsed != [] {
      ParsesRaise(k, unparsed[0]);
      assert unparsed[0] in unparsed;
    } else {
      forall raw | raw in k.claim.sourceAnchors
        ensures Trim(raw) == ""
      {
        NonBlankShows(k, raw);
      }
    }
  }

  lemma NonBlankShows(k: Case, raw: string)
    requires raw in k.claim.sourceAnchors && k.Check().Anchors() == []
    requires FlatMap(k.Check().ParseIssues, k.claim.sourceAnchors) == []
    ensures Trim(raw) == ""
  {
    if path, line :| k.AnchorAt(raw, path, line) {
      AnchorsAreParsed(k, Anchor(raw, path, line));
      assert false;
    } else if k.Unparsed(raw) {
      ParsesRaise(k, Issue("unparseable_source_anchor", Scaled(k, "warning"), raw));
      assert false;
    }
  }

  lemma SourcesRaise(k: Case, x: Issue)
    ensures x in k.Check().SourceIssues() <==> SourceRaised(k, x)
  {
    HighMeans(k);
    NoAnchors(k);
    AnchorsRaise(k, x);
    ParsesRaise(k, x);
  }

  // --- symbols, edges and the rest

  lemma ListedIsSpelled(k: Case, low: string, p: EvidencePacket, s: SymbolRecord)
    requires k.Lists(low, p, s)
    ensures s in k.Check().symbols && low in k.Check().SpellingsOf(s)
  {
    PacketsAreCited(k, p);
    assert k.Check().CitedFile(k.v.h.PathKey(s.file));
  }

  lemma SpelledIsListed(k: Case, low: string, s: SymbolRecord) returns (p: EvidencePacket)
    requires s in k.Check().symbols && low in k.Check().SpellingsOf(s)
    ensures k.Lists(low, p, s)
  {
    p :| p in k.Check().Packets() && k.v.h.PathKey(p.path) == k.v.h.PathKey(s.file);
    PacketsAreCited(k, p);
  }

  lemma SpellingsMean(k: Case, low: string)
    ensures (exists s :: s in k.Check().symbols && low in k.Check().SpellingsOf(s)) <==>
              exists p, s :: k.Lists(low, p, s)
  {
    if s :| s in k.Check().symbols && low in k.Check().SpellingsOf(s) {
      var p := SpelledIsListed(k, low, s);
    }
    if p, s :| k.Lists(low, p, s) {
      ListedIsSpelled(k, low, p, s);
    }
  }

  lemma KnowsMeans(k: Case, symbol: string)
    ensures k.Check().KnownSymbol(k.v.h.Low(symbol)) <==> k.Knows(symbol)
  {
    var c, low := k.Check(), k.v.h.Low(symbol);
    SpellingsMean(k, low);
    SamePackets(k);
    forall p
      ensures low in c.NamesOf(p) <==> k.NamedBy(low, p)
    {}
  }

  lemma SymbolsRaise(k: Case, x: Issue)
    ensures x in FlatMap(k.Check().SymbolIssues, k.v.h.citedSymbols(k.claim)) <==> SymbolRaised(k, x)
  {
    FlatMapMembers(k.Check().SymbolIssues, k.v.h.citedSymbols(k.claim));
    forall symbol
      ensures k.Check().KnownSymbol(k.v.h.Low(symbol)) <==> k.Knows(symbol)
    {
      KnowsMeans(k, symbol);
    }
  }

  lemma PathsAreCited(k: Case)
    ensures k.Check().Cited().paths == k.CitedPaths()
  {
    var c := k.Check();
    SamePackets(k);
    UnionMapMembers(c.PathOf, c.Packets());
    forall path
      ensures path in c.Cited().paths <==> path in k.CitedPaths()
    {
      if p :| p in c.Packets() && path in c.PathOf(p) {
        CitedIsListed(k, p);
      }
      if p :| p in k.v.run.packets && k.Cites(p) && p.path == path {
        assert path in c.PathOf(p);
      }
    }
  }

  lemma IDsAreCited(k: Case, id: string)
    ensures id in k.Check().Cited().ids <==> exists p :: k.Cites(p) && p.id == id
  {
    var c := k.Check();
    SamePackets(k);
    UnionMapMembers(c.IDOf, c.Packets());
    if p :| k.Cites(p) && p.id == id {
      assert id in c.IDOf(p);
    }
  }

  lemma NodesAreCited(k: Case, node: string)
    ensures node in k.Check().Cited().nodes <==> exists p :: k.Cites(p) && k.IsNode(node, p)
  {
    var c := k.Check();
    SamePackets(k);
    UnionMapMembers(c.NodesOf, c.Packets());
    if p :| k.Cites(p) && k.IsNode(node, p) {
      assert node in c.NodesOf(p);
    }
  }

  lemma BacksMeans(k: Case, e: GraphEdge)
    ensures k.Check().Supports(e) <==> k.Backs(e)
  {
    PathsAreCited(k);
    NodesAreCited(k, e.sourceID);
    NodesAreCited(k, e.targetID);
    forall id
      ensures id in k.Check().Cited().ids <==> exists p :: k.Cites(p) && p.id == id
    {
      IDsAreCited(k, id);
    }
  }

  lemma EdgeMeans(k: Case, edgeID: string)
    ensures k.Check().LeansOn(edgeID) <==> k.HasEdge(edgeID)
  {
    SamePackets(k);
    forall e
      ensures k.Check().Supports(e) <==> k.Backs(e)
    {
      BacksMeans(k, e);
    }
  }

  lemma EdgesRaise(k: Case, x: Issue)
    ensures x in k.Check().GraphIssues() <==> EdgeRaised(k, x)
  {
    forall edgeID
      ensures k.Check().LeansOn(edgeID) <==> k.HasEdge(edgeID)
    {
      EdgeMeans(k, edgeID);
    }
  }

  lemma FactsRaise(k: Case, x: Issue)
    ensures x in k.Check().FactIssues() <==> FactRaised(k, x)
  {}

  lemma SecurityRaises(k: Case, x: Issue)
    ensures x in k.Check().SecurityIssues() <==> SecurityRaised(k, x)
  {
    FoundIsPackets(k, k.claim.evidencePacketIDs);
    NoPackets(k);
  }

  /** The issues of a claim are exactly those that what is wrong with it raises. */
  lemma IssuesMean(k: Case, x: Issue)
    ensures x in k.Check().Issues() <==> Raised(k, x)
  {
    AmbiguousMeans(k);
    PacketsRaise(k, x);
    MissingRaise(k, x);
    SourcesRaise(k, x);
    SymbolsRaise(k, x);
    EdgesRaise(k, x);
    FactsRaise(k, x);
    SecurityRaises(k, x);
    if k.Ambiguous() {
      TrimOfNamed(k);
    }
  }

  lemma TrimOfNamed(k: Case)
    requires k.Ambiguous()
    ensures k.Check().ShardID() == k.w.shardID
  {
    var i, j :| 0 <= i < j < |k.v.run.shards| && Trim(k.v.run.shards[i].id) == k.w.shardID &&
      Trim(k.v.run.shards[j].id) == k.w.shardID;
    TrimIdempotent(k.v.run.shards[i].id);
  }

  // ---------------------------------------------------------------------------
  // The status.

  /** A cited packet belongs to another shard or lies outside its files. */
  ghost predicate CitesOutside(k: Case) {
    exists p :: k.Cites(p) && (k.Foreign(p) || !k.Passes(p.path))
  }

  /** An anchor lies outside the files of the shard, or its line outside the lines of every cited packet of
      its file. */
  ghost predicate Misplaced(k: Case) {
    exists raw, path, line :: k.AnchorAt(raw, path, line) && (!k.Passes(path) || k.MissesLine(path, line))
  }

  /** A cited symbol is unknown. */
  ghost predicate Misnamed(k: Case) {
    exists symbol :: symbol in k.v.h.citedSymbols(k.claim) && !k.Knows(symbol)
  }

  /** The claim contradicts a deterministic fact or a recorded boundary. */
  ghost predicate Contradicted(k: Case) {
    || k.v.h.coverageConflict(k.claim) || k.v.h.architectureConflict(k.claim) || k.v.h.driverConflict(k.claim)
    || BoundaryConflict(k)
  }

  /** What blocks a claim of any confidence. */
  ghost predicate Fatal(k: Case) {
    k.Ambiguous() || CitesOutside(k) || Misplaced(k) || Misnamed(k) || Contradicted(k)
  }

  ghost predicate CitesUnknown(k: Case) {
    exists id :: k.Unknown(id)
  }

  /** A cited id, every id, or a usable anchor is missing. */
  ghost predicate Incomplete(k: Case) {
    CitesUnknown(k) || k.CitesNothing() || k.AnchorsNothing() || exists raw :: k.Unparsed(raw)
  }

  /** An anchor's file, a graph edge or a link of the overlay is missing. */
  ghost predicate Loose(k: Case) {
    || (exists raw, path, line :: k.AnchorAt(raw, path, line) && k.MissesFile(path))
    || (k.v.h.needsGraphEdge(k.claim) && forall edgeID :: !k.HasEdge(edgeID))
    || Unlinked(k)
  }

  ghost predicate RaisedAs(k: Case, severity: string) {
    exists x :: Raised(k, x) && x.severity == severity
  }

  lemma SeverityIs(k: Case, word: string)
    requires word in ["blocking", "error", "warning"]
    ensures HasSeverity(k.v.h, k.Check().Issues(), word) <==> RaisedAs(k, word)
  {
    var c := k.Check();
    SeveritiesFit(c);
    forall x
      ensures x in c.Issues() <==> Raised(k, x)
    {
      IssuesMean(k, x);
    }
    forall x | x in c.Issues()
      ensures Severity(k.v.h, x) == x.severity
    {
      KnownSeverity(k.v.h, x);
    }
  }

  /** Only unknown packets raise an error: when none of the cited ids is found, some id is unknown. */
  lemma NoneFound(k: Case)
    ensures !k.CitesNothing() && (forall p :: !k.Cites(p)) ==> CitesUnknown(k)
  {
    if !k.CitesNothing() && forall p :: !k.Cites(p) {
      var id :| id in k.claim.evidencePacketIDs && Trim(id) != "";
      LookupFinds(k, id);
      if k.Check().Lookup(id).Some? {
        assert k.Cites(k.Check().Lookup(id).value);
      }
    }
  }

  lemma IdRaises(k: Case, id: string, x: Issue)
    requires IdRaised(k, id, x)
    ensures RaisedAs(k, x.severity)
  {
    assert Raised(k, x);
  }

  lemma MissingRaises(k: Case, x: Issue)
    requires MissingRaised(k, x)
    ensures RaisedAs(k, x.severity)
  {
    assert Raised(k, x);
  }

  lemma ParseRaises(k: Case, x: Issue)
    requires ParseRaised(k, x)
    ensures RaisedAs(k, x.severity)
  {
    assert SourceRaised(k, x);
    assert Raised(k, x);
  }

  lemma AnchorRaises(k: Case, raw: string, path: string, line: int, x: Issue)
    requires AnchorRaised(k, raw, path, line, x)
    ensures RaisedAs(k, x.severity)
  {
    assert SourceRaised(k, x);
    assert Raised(k, x);
  }

  lemma OtherRaises(k: Case, x: Issue)
    requires SymbolRaised(k, x) || EdgeRaised(k, x) || FactRaised(k, x) || SecurityRaised(k, x)
    ensures RaisedAs(k, x.severity)
  {
    assert Raised(k, x);
  }

  lemma PacketBlocks(k: Case)
    requires CitesOutside(k)
    ensures RaisedAs(k, "blocking")
  {
    var p :| k.Cites(p) && (k.Foreign(p) || !k.Passes(p.path));
    var id :| k.CitedUnder(id, p);
    var code := if k.Foreign(p) then "packet_shard_scope_mismatch" else "packet_source_scope_mismatch";
    IdRaises(k, id, Issue(code, "blocking", p.id));
  }

  lemma AnchorBlocks(k: Case)
    requires Misplaced(k)
    ensures RaisedAs(k, "blocking")
  {
    var raw, path, line :| k.AnchorAt(raw, path, line) && (!k.Passes(path) || k.MissesLine(path, line));
    var code := if k.MissesLine(path, line) then "line_range_mismatch" else "source_scope_mismatch";
    AnchorRaises(k, raw, path, line, Issue(code, "blocking", raw));
  }

  lemma FactBlocks(k: Case)
    requires k.v.h.coverageConflict(k.claim) || k.v.h.architectureConflict(k.claim) || k.v.h.driverConflict(k.claim)
    ensures RaisedAs(k, "blocking")
  {
    var code := if k.v.h.coverageConflict(k.claim) then "coverage_fact_conflict"
                else if k.v.h.architectureConflict(k.claim) then "architecture_fact_conflict"
                else "windows_driver_fact_conflict";
    OtherRaises(k, Issue(code, "blocking", ""));
  }

  lemma ClaimBlocks(k: Case)
    requires Misnamed(k) || Contradicted(k)
    ensures RaisedAs(k, "blocking")
  {
    if symbol :| symbol in k.v.h.citedSymbols(k.claim) && !k.Knows(symbol) {
      OtherRaises(k, Issue("symbol_mismatch", "blocking", symbol));
    } else if BoundaryConflict(k) {
      OtherRaises(k, Issue("security_boundary_invariant_violation", "blocking", ""));
    } else {
      FactBlocks(k);
    }
  }

  lemma FatalBlocks(k: Case)
    requires Fatal(k)
    ensures RaisedAs(k, "blocking")
  {
    if k.Ambiguous() {
      assert Raised(k, Issue("duplicate_shard_id", "blocking", k.w.shardID));
    } else if CitesOutside(k) {
      PacketBlocks(k);
    } else if Misplaced(k) {
      AnchorBlocks(k);
    } else {
      ClaimBlocks(k);
    }
  }

  /** What is missing is raised with its own severity. */
  lemma IncompleteRaises(k: Case)
    ensures CitesUnknown(k) ==> RaisedAs(k, Scaled(k, "error"))
    ensures Incomplete(k) && !CitesUnknown(k) ==> RaisedAs(k, Scaled(k, "warning"))
  {
    if id :| k.Unknown(id) {
      IdRaises(k, id, Issue("packet_id_not_found", Scaled(k, "error"), Trim(id)));
    } else if k.CitesNothing() {
      MissingRaises(k, Issue("missing_packet_id", Scaled(k, "warning"), k.claim.claim));
    } else if k.AnchorsNothing() {
      ParseRaises(k, Issue("missing_source_anchor", Scaled(k, "warning"), ""));
    } else if raw :| k.Unparsed(raw) {
      ParseRaises(k, Issue("unparseable_source_anchor", Scaled(k, "warning"), raw));
    }
  }

  lemma LooseRaises(k: Case)
    requires Loose(k)
    ensures RaisedAs(k, "warning")
  {
    if raw, path, line :| k.AnchorAt(raw, path, line) && k.MissesFile(path) {
      AnchorRaises(k, raw, path, line, Issue("source_packet_mismatch", "warning", raw));
    } else if Unlinked(k) {
      OtherRaises(k, Issue("security_overlay_unlinked", "warning", k.claim.claim));
    } else {
      OtherRaises(k, Issue("graph_edge_unverified", "warning", k.claim.claim));
    }
  }

  /** What an issue of each severity needs. */
  ghost predicate HasGround(k: Case, severity: string) {
    && (severity == "blocking" ==> Fatal(k) || (k.High() && Incomplete(k)))
    && (severity == "error" ==> !k.High() && CitesUnknown(k))
    && (severity == "warning" ==> Loose(k) || (!k.High() && Incomplete(k)))
  }

  lemma PacketGround(k: Case, id: string, x: Issue)
    requires IdRaised(k, id, x)
    ensures HasGround(k, x.severity)
  {
    assert forall p :: k.CitedUnder(id, p) ==> k.Cites(p);
  }

  lemma SourceGround(k: Case, x: Issue)
    requires SourceRaised(k, x)
    ensures HasGround(k, x.severity)
  {}

  lemma OtherGround(k: Case, x: Issue)
    requires MissingRaised(k, x) || SymbolRaised(k, x) || EdgeRaised(k, x) || FactRaised(k, x) || SecurityRaised(k, x)
    ensures HasGround(k, x.severity)
  {
    NoneFound(k);
  }

  lemma RaisedHasGround(k: Case, x: Issue)
    requires Raised(k, x)
    ensures HasGround(k, x.severity)
  {
    if id :| IdRaised(k, id, x) {
      PacketGround(k, id, x);
    } else if SourceRaised(k, x) {
      SourceGround(k, x);
    } else if
      || MissingRaised(k, x) || SymbolRaised(k, x) || EdgeRaised(k, x) || FactRaised(k, x) || SecurityRaised(k, x)
    {
      OtherGround(k, x);
    }
  }

  /** The status of a claim, decided by what is wrong with it and by its confidence. */
  lemma StatusIff(k: Case, r: Result)
    requires k.Check().IsOutcome(r)
    ensures r.status == Blocking <==> Fatal(k) || (k.High() && Incomplete(k))
    ensures r.status == Unsupported <==> !Fatal(k) && !k.High() && CitesUnknown(k)
    ensures r.status == Downgraded <==> !Fatal(k) && k.High() && !Incomplete(k) && Loose(k)
    ensures r.status == Inference <==> !Fatal(k) && !k.High() && !CitesUnknown(k) && (Incomplete(k) || Loose(k))
    ensures r.status == Verified <==> !Fatal(k) && !Incomplete(k) && !Loose(k)
  {
    var c := k.Check();
    SeverityIs(k, "blocking");
    SeverityIs(k, "error");
    SeverityIs(k, "warning");
    HighMeans(k);
    OriginalIsWord(c);
    IncompleteRaises(k);
    if Fatal(k) {
      FatalBlocks(k);
    }
    if Loose(k) {
      LooseRaises(k);
    }
    forall x | Raised(k, x)
      ensures HasGround(k, x.severity)
    {
      RaisedHasGround(k, x);
    }
  }

  /** The confidence a claim ends with: low when blocked or unsupported, medium when downgraded, else what
      its own word stands for. */
  lemma FinalConfidenceIff(k: Case, r: Result)
    requires k.Check().IsOutcome(r)
    ensures r.finalConfidence == "high" <==> r.status == Verified && k.High()
    ensures r.finalConfidence == "low" <==> r.status in {Blocking, Unsupported} || k.LowConfidence()
    ensures r.finalConfidence in {"high", "medium", "low"}
  {
    HighMeans(k);
    OutcomeMeans(k.Check(), r);
    VerdictMeans(k.Check(), r.issues, r.status, r.finalConfidence);
    OriginalIsWord(k.Check());
    assert |"high"| == 4 && |"medium"| == 6 && |"low"| == 3;
  }

  // ---------------------------------------------------------------------------
  // The lists of the result.

  /** What the result repeats of the report and the claim. */
  lemma FieldsMean(k: Case, r: Result)
    requires k.Check().IsOutcome(r)
    ensures r.shardID == if AllSpace(k.w.shardID) then "" else k.w.shardID
    ensures r.claimID == if AllSpace(k.claim.id) then "claim-" + k.v.h.hash(k.w.shardID, k.claim.claim) else k.claim.id
    ensures r.kind == k.v.h.normalizeKind(k.claim.kind) && r.claim == Trim(k.claim.claim)
    ensures r.originalConfidence == if k.High() then "high" else if k.LowConfidence() then "low" else "medium"
    ensures forall s :: s in r.evidencePacketIDs <==> s != "" && TrimsTo(k.claim.evidencePacketIDs, s)
    ensures forall s :: s in r.sourceAnchors <==> s != "" && TrimsTo(k.claim.sourceAnchors, s)
  {
    BlankIffAllSpace(k.w.shardID);
    BlankIffAllSpace(k.claim.id);
    NormalizeWords(k.v.h, k.claim.confidence);
    NormalizeMeans(k.v.h, k.claim.confidence);
    UniquesHolds(k.claim.evidencePacketIDs);
    UniquesHolds(k.claim.sourceAnchors);
    if AllSpace(k.w.shardID) {
      NoShardIsBlank(k);
    }
  }

  /** A report that shows no shard id has the zero shard. */
  lemma NoShardIsBlank(k: Case)
    requires IsBlank(k.w.shardID)
    ensures k.Check().shard == AnalysisShard("", [], [])
  {
    FirstByKeyMeans(k.v.run.shards, ShardKey, k.w.shardID);
    if s :| s in k.v.run.shards && ShardKey(s) == k.w.shardID && s.id != "" {
      TrimIdempotent(s.id);
    }
  }

  lemma PacketIDsListed(k: Case, id: string)
    ensures id in FlatMap(k.Check().PacketIDOf, k.claim.evidencePacketIDs) <==> exists p :: k.Cites(p) && p.id == id
  {
    var c, ids := k.Check(), k.claim.evidencePacketIDs;
    FlatMapMembers(c.PacketIDOf, ids);
    if cited :| cited in ids && id in c.PacketIDOf(cited) {
      LookupIs(k, cited, c.Lookup(cited).value);
      assert k.Cites(c.Lookup(cited).value);
    }
    if p :| k.Cites(p) && p.id == id {
      var cited :| k.CitedUnder(cited, p);
      LookupIs(k, cited, p);
      assert id in c.PacketIDOf(cited);
    }
  }

  /** The result lists the trimmed ids of the packets found, and the edge ids the claim can lean on. */
  lemma ListsMean(k: Case, r: Result, s: string)
    requires k.Check().IsOutcome(r)
    ensures s in r.supportingPacketIDs <==> s != "" && exists p :: k.Cites(p) && Trim(p.id) == s
    ensures s in r.graphEdgeIDs <==> k.HasEdge(s)
  {
    var ids := FlatMap(k.Check().PacketIDOf, k.claim.evidencePacketIDs);
    UniquesHolds(ids);
    if TrimsTo(ids, s) {
      var i :| 0 <= i < |ids| && Trim(ids[i]) == s;
      PacketIDsListed(k, ids[i]);
    }
    if p :| k.Cites(p) && Trim(p.id) == s {
      PacketIDsListed(k, p.id);
      var i :| 0 <= i < |ids| && ids[i] == p.id;
    }
    LeansOnListed(k.Check(), s);
    EdgeMeans(k, s);
  }
}
