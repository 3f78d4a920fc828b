/** What a verdict means: a claim is verified exactly when it is grounded, and no verdict ever raises
    the confidence of a claim. */
module ClaimGrounding {
  import opened ClaimModel
  import opened ClaimVerifier
  import opened Sequences
  import opened Text

  /** At least one packet is cited, and every cited packet exists, belongs to the shard of the report
      (or to none) and lies in the scope of the shard. */
  ghost predicate PacketsGrounded(c: ClaimCheck) {
    && (exists id :: id in c.claim.evidencePacketIDs && !IsBlank(id))
    && forall id :: id in c.claim.evidencePacketIDs && !IsBlank(id) ==>
         c.Lookup(id).Some? && !c.ForeignShard(c.Lookup(id).value) && c.InScope(c.Lookup(id).value.path)
  }

  /** The anchor parses, lies in scope, and some cited packet carries its path and, if the anchor
      names a positive line and the packet has lines, that line. */
  ghost predicate AnchorGrounded(c: ClaimCheck, raw: string) {
    && c.Parse(raw).Some?
    && c.InScope(c.Parse(raw).value.path)
    && exists p :: p in c.Packets() && c.SamePath(c.Parse(raw).value, p) && c.LineFits(c.Parse(raw).value, p)
  }

  ghost predicate AnchorsGrounded(c: ClaimCheck) {
    && (exists raw :: raw in c.claim.sourceAnchors && !IsBlank(raw))
    && forall raw :: raw in c.claim.sourceAnchors && !IsBlank(raw) ==> AnchorGrounded(c, raw)
  }

  ghost predicate SymbolsGrounded(c: ClaimCheck) {
    forall cited :: cited in c.h.citedSymbols(c.claim) ==> c.KnownSymbol(c.h.Low(cited))
  }

  ghost predicate FactsAgree(c: ClaimCheck) {
    && !c.h.coverageConflict(c.claim) && !c.h.architectureConflict(c.claim) && !c.h.driverConflict(c.claim)
    && (c.h.securityRelevant(c.claim) ==>
          && !c.h.contradictsBoundary(c.claim, c.Packets())
          && (c.h.overlayHasEdges ==> c.h.overlayTouches(c.claim, c.Packets())))
  }

  ghost predicate Grounded(c: ClaimCheck) {
    && !c.ambiguous && PacketsGrounded(c) && AnchorsGrounded(c) && SymbolsGrounded(c)
    && (c.h.needsGraphEdge(c.claim) ==> exists edgeID :: c.LeansOn(edgeID))
    && FactsAgree(c)
  }

  // ---------------------------------------------------------------------------
  // Which checks stay silent, and when.

  /** Citing packets that are all found is citing at least one packet. */
  lemma PacketsListed(c: ClaimCheck)
    ensures c.Packets() == [] <==> forall id :: id in c.claim.evidencePacketIDs ==> c.Lookup(id).None?
  {
    FlatMapEmpty(c.PacketOf, c.claim.evidencePacketIDs);
  }

  lemma SilentPackets(c: ClaimCheck)
    requires !c.ambiguous
    ensures FlatMap(c.PacketIssues, c.claim.evidencePacketIDs) == [] && c.MissingPacketIssues() == [] <==>
              PacketsGrounded(c)
    ensures PacketsGrounded(c) ==> c.Packets() != []
  {
    var ids := c.claim.evidencePacketIDs;
    FlatMapEmpty(c.PacketIssues, ids);
    UniquesEmpty(ids);
    PacketsListed(c);
  }

  /** No issue over one anchor, in either loop. */
  ghost predicate Silent(c: ClaimCheck, raw: string) {
    c.ParseIssues(raw) == [] && forall a :: a in c.ParsedAnchor(raw) ==> c.AnchorIssues(a) == []
  }

  lemma SilentAnchor(c: ClaimCheck, raw: string)
    requires !c.ambiguous && c.Packets() != [] && !IsBlank(raw)
    ensures Silent(c, raw) <==> AnchorGrounded(c, raw)
  {
    if c.Parse(raw).Some? {
      assert c.ParsedAnchor(raw) == [c.Parse(raw).value];
      assert c.Parse(raw).value in c.ParsedAnchor(raw);
    }
  }

  /** The anchor check is silent when some anchor parses and every anchor is silent in both loops. */
  lemma SilentLoops(c: ClaimCheck)
    ensures c.SourceIssues() == [] <==>
              ((exists raw :: raw in c.claim.sourceAnchors && c.ParsedAnchor(raw) != []) &&
               (forall raw :: raw in c.claim.sourceAnchors ==> Silent(c, raw)))
  {
    FlatMapEmpty(c.ParseIssues, c.claim.sourceAnchors);
    FlatMapEmpty(c.ParsedAnchor, c.claim.sourceAnchors);
    FlatMapEmpty(c.AnchorIssues, c.Anchors());
    FlatMapMembers(c.ParsedAnchor, c.claim.sourceAnchors);
  }

  lemma SilentAnchors(c: ClaimCheck)
    requires !c.ambiguous && c.Packets() != []
    ensures c.SourceIssues() == [] <==> AnchorsGrounded(c)
  {
    SilentLoops(c);
    forall raw | !IsBlank(raw)
      ensures Silent(c, raw) <==> AnchorGrounded(c, raw)
      ensures AnchorGrounded(c, raw) ==> c.ParsedAnchor(raw) != []
    {
      SilentAnchor(c, raw);
    }
    assert forall raw :: IsBlank(raw) ==> Silent(c, raw) && c.ParsedAnchor(raw) == [];
  }

  lemma SilentRest(c: ClaimCheck)
    requires c.Packets() != []
    ensures FlatMap(c.SymbolIssues, c.h.citedSymbols(c.claim)) == [] <==> SymbolsGrounded(c)
    ensures c.FactIssues() == [] && c.SecurityIssues() == [] <==> FactsAgree(c)
  {
    FlatMapEmpty(c.SymbolIssues, c.h.citedSymbols(c.claim));
  }

  lemma NoIssuesIffGrounded(c: ClaimCheck)
    ensures c.Issues() == [] <==> Grounded(c)
  {
    if !c.ambiguous {
      SilentPackets(c);
      if c.Packets() != [] {
        SilentAnchors(c);
        SilentRest(c);
      }
    }
  }

  // ---------------------------------------------------------------------------
  // Severities.

  ghost predicate Known(issue: Issue) {
    issue.severity in ["blocking", "error", "warning"]
  }

  lemma KnownSeverity(h: Helpers, issue: Issue)
    requires Known(issue)
    ensures Severity(h, issue) == issue.severity
  {
    PlainWordUnchanged(h, issue.severity);
  }

  /** A severity the status rule knows, and not an error on a high-confidence claim. */
  ghost predicate Fits(c: ClaimCheck, issue: Issue) {
    Known(issue) && (c.Original() == "high" ==> issue.severity != "error")
  }

  lemma PacketSeverities(c: ClaimCheck)
    ensures forall issue :: issue in FlatMap(c.PacketIssues, c.claim.evidencePacketIDs) ==> Fits(c, issue)
    ensures forall issue :: issue in c.MissingPacketIssues() ==> Fits(c, issue)
  {
    ScaledFits(c, "error");
    ScaledFits(c, "warning");
    FlatMapMembers(c.PacketIssues, c.claim.evidencePacketIDs);
    forall id
      ensures forall issue :: issue in c.PacketIssues(id) ==> Fits(c, issue)
    {
      PacketIssueFits(c, id);
    }
  }

  /** A severity scaled by the confidence fits. */
  lemma ScaledFits(c: ClaimCheck, default: string)
    requires default in ["error", "warning"]
    ensures forall code, subject :: Fits(c, Issue(code, c.h.SeverityFor(c.Original(), default), subject))
  {
    SeverityMeans(c.h, c.Original(), default);
    NormalizeMeans(c.h, c.claim.confidence);
  }

  lemma PacketIssueFits(c: ClaimCheck, id: string)
    ensures forall issue :: issue in c.PacketIssues(id) ==> Fits(c, issue)
  {
    ScaledFits(c, "error");
  }

  lemma SourceSeverities(c: ClaimCheck)
    ensures forall issue :: issue in c.SourceIssues() ==> Fits(c, issue)
  {
    SeverityMeans(c.h, c.claim.confidence, "warning");
    FlatMapMembers(c.ParseIssues, c.claim.sourceAnchors);
    FlatMapMembers(c.AnchorIssues, c.Anchors());
  }

  lemma SymbolSeverities(c: ClaimCheck)
    ensures forall issue :: issue in FlatMap(c.SymbolIssues, c.h.citedSymbols(c.claim)) ==> Fits(c, issue)
  {
    FlatMapMembers(c.SymbolIssues, c.h.citedSymbols(c.claim));
  }

  lemma OtherSeverities(c: ClaimCheck)
    ensures forall issue :: issue in c.GraphIssues() + c.FactIssues() + c.SecurityIssues() ==> Fits(c, issue)
  {}

  /** No check produces any other severity, and none gives a high-confidence claim an error. */
  lemma SeveritiesFit(c: ClaimCheck)
    ensures forall issue :: issue in c.Issues() ==> Fits(c, issue)
  {
    PacketSeverities(c);
    SourceSeverities(c);
    SymbolSeverities(c);
    OtherSeverities(c);
  }

  // ---------------------------------------------------------------------------
  // The verdict.

  function Rank(confidence: string): nat {
    if confidence == "high" then 3 else if confidence == "medium" then 2 else if confidence == "low" then 1 else 0
  }

  lemma OriginalIsWord(c: ClaimCheck)
    ensures c.Original() in ["high", "medium", "low"]
    ensures FirstNonBlank(c.Original(), "medium") == c.Original()
    ensures c.h.SameText(c.Original(), "high") <==> c.Original() == "high"
  {
    NormalizeMeans(c.h, c.claim.confidence);
    PlainWordUnchanged(c.h, c.Original());
    assert |"high"| == 4 && |"medium"| == 6 && |"low"| == 3;
  }

  /** Fitting issues have one of the three severities, and an error only below high confidence. */
  lemma SeveritiesOccur(c: ClaimCheck, issues: seq<Issue>)
    requires forall issue :: issue in issues ==> Fits(c, issue)
    ensures issues != [] <==>
              HasSeverity(c.h, issues, "blocking") || HasSeverity(c.h, issues, "error") ||
                HasSeverity(c.h, issues, "warning")
    ensures HasSeverity(c.h, issues, "error") ==> c.Original() != "high"
  {
    forall issue | issue in issues
      ensures Severity(c.h, issue) == issue.severity
    {
      KnownSeverity(c.h, issue);
    }
    if issues != [] {
      assert issues[0] in issues && HasSeverity(c.h, issues, issues[0].severity);
    }
  }

  function FinalOf(status: Status, original: string): string {
    match status
    case Verified => original
    case Inference => original
    case Downgraded => "medium"
    case _ => "low"
  }

  lemma VerdictMeans(c: ClaimCheck, issues: seq<Issue>, status: Status, final: string)
    requires IsVerdict(c.h, c.Original(), issues, status, final)
    requires forall issue :: issue in issues ==> Fits(c, issue)
    ensures status == Verified <==> issues == []
    ensures status == Downgraded ==> c.Original() == "high"
    ensures status in {Inference, Unsupported} ==> c.Original() != "high"
    ensures final == FinalOf(status, c.Original())
  {
    OriginalIsWord(c);
    SeveritiesOccur(c, issues);
  }

  lemma FinalRank(status: Status, original: string)
    requires original in ["high", "medium", "low"] && (status == Downgraded ==> original == "high")
    requires status == Inference ==> original != "high"
    ensures var final := FinalOf(status, original);
            && final in ["high", "medium", "low"] && Rank(final) <= Rank(original)
            && (final == "high" ==> status == Verified)
  {
    assert |"high"| == 4 && |"medium"| == 6 && |"low"| == 3;
  }

  lemma OutcomeMeans(c: ClaimCheck, r: Result)
    requires c.IsOutcome(r)
    ensures IsVerdict(c.h, c.Original(), r.issues, r.status, r.finalConfidence)
    ensures forall issue :: issue in r.issues ==> Fits(c, issue)
    ensures r.originalConfidence == c.Original() && r.issues == c.Issues()
  {
    SeveritiesFit(c);
  }

  /** A claim is verified if and only if it is grounded, and then it carries no issue at all. */
  lemma VerifiedIffGrounded(c: ClaimCheck, r: Result)
    requires c.IsOutcome(r)
    ensures r.status == Verified <==> Grounded(c)
    ensures r.status == Verified <==> r.issues == []
  {
    NoIssuesIffGrounded(c);
    OutcomeMeans(c, r);
    VerdictMeans(c, r.issues, r.status, r.finalConfidence);
  }

  /** Only high-confidence claims are downgraded; only others become inferences or unsupported. */
  lemma StatusByConfidence(c: ClaimCheck, r: Result)
    requires c.IsOutcome(r)
    ensures r.status == Downgraded ==> r.originalConfidence == "high"
    ensures r.status in {Inference, Unsupported} ==> r.originalConfidence != "high"
  {
    OutcomeMeans(c, r);
    VerdictMeans(c, r.issues, r.status, r.finalConfidence);
  }

  /** The final confidence is one of the three words and never above the original; it stays high only
      for a verified claim. */
  lemma ConfidenceNeverRises(c: ClaimCheck, r: Result)
    requires c.IsOutcome(r)
    ensures r.finalConfidence in ["high", "medium", "low"]
    ensures Rank(r.finalConfidence) <= Rank(r.originalConfidence)
    ensures r.status == Verified ==> r.finalConfidence == r.originalConfidence
    ensures r.finalConfidence == "high" ==> r.status == Verified
  {
    OutcomeMeans(c, r);
    VerdictMeans(c, r.issues, r.status, r.finalConfidence);
    OriginalIsWord(c);
    FinalRank(r.status, r.originalConfidence);
  }
}
