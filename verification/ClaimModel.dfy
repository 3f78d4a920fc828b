/** The records of the deterministic claim verifier, and the helpers it is generic in. */
module ClaimModel {
  import opened Options
  import opened Text

  datatype EvidencePacket = EvidencePacket(
    id: string, shardID: string, path: string, symbolID: string, symbolName: string,
    startLine: int, endLine: int, graphEdgeIDs: seq<string>)

  datatype AnalysisShard = AnalysisShard(id: string, primaryFiles: seq<string>, referenceFiles: seq<string>)

  datatype AnalysisClaim = AnalysisClaim(
    id: string, kind: string, claim: string, sourceAnchors: seq<string>, evidencePacketIDs: seq<string>,
    confidence: string, verificationHint: string)

  datatype WorkerReport = WorkerReport(
    shardID: string, status: string, facts: seq<string>, unknowns: seq<string>, claims: seq<AnalysisClaim>)

  datatype GraphEdge = GraphEdge(
    id: string, sourceID: string, targetID: string, evidence: seq<string>, packetIDs: seq<string>)

  /** `ClaimVerificationIssue`; of the evidence list only the first entry is kept, of the message nothing. */
  datatype Issue = Issue(code: string, severity: string, subject: string)

  datatype Status = Verified | Inference | Downgraded | Unsupported | Blocking

  datatype Result = Result(
    shardID: string, claimID: string, kind: string, claim: string, originalConfidence: string, finalConfidence: string,
    status: Status, evidencePacketIDs: seq<string>, sourceAnchors: seq<string>, supportingPacketIDs: seq<string>,
    graphEdgeIDs: seq<string>, issues: seq<Issue>)

  datatype Anchor = Anchor(raw: string, path: string, line: int)

  /** What the verifier calls but does not define: case tables, path conversion, hashing, anchor and
      symbol parsing, and the keyword tests on claim text. Every result holds whatever these are. */
  datatype Helpers = Helpers(
    lower: char -> char,
    fold: char -> char,
    toSlash: string -> string,
    hash: (string, string) -> string,
    normalizeKind: string -> string,
    parseAnchor: string -> Option<(string, int)>,
    citedSymbols: AnalysisClaim -> seq<string>,
    edgeTouches: (seq<string>, set<string>) -> bool,
    needsGraphEdge: AnalysisClaim -> bool,
    coverageConflict: AnalysisClaim -> bool,
    architectureConflict: AnalysisClaim -> bool,
    driverConflict: AnalysisClaim -> bool,
    securityRelevant: AnalysisClaim -> bool,
    contradictsBoundary: (AnalysisClaim, seq<EvidencePacket>) -> bool,
    overlayHasEdges: bool,
    overlayTouches: (AnalysisClaim, seq<EvidencePacket>) -> bool)
  {
    /** `strings.ToLower`. */
    function Low(s: string): string { Lower(lower, s) }

    predicate SameText(a: string, b: string) { EqualFold(fold, a, b) }

    /** `analysisClaimPathKey`. */
    function PathKey(path: string): string { Low(toSlash(Trim(path))) }

    /** `analysisGraphStableID("claim", ...)`: a fixed prefix and a short hash. */
    function StableID(shardID: string, text: string): string { "claim-" + hash(shardID, text) }

    /** `claimVerificationResultKey`. */
    function ResultKey(shardID: string, claimID: string, claimText: string): string {
      Low(Trim(shardID) + "|" + Trim(claimID) + "|" + Trim(claimText))
    }

    function KeyOf(r: Result): string { ResultKey(r.shardID, r.claimID, r.claim) }

    /** `normalizeAnalysisClaimConfidence`. */
    function Normalize(confidence: string): string {
      var c := Low(Trim(confidence));
      if c == "high" || c == "medium" || c == "low" then c
      else if c == "confirmed" || c == "strong" then "high"
      else if c == "weak" || c == "uncertain" || c == "unknown" then "low"
      else "medium"
    }

    /** `severityForConfidence`. */
    function SeverityFor(confidence: string, default: string): string {
      if SameText(Normalize(confidence), "high") then "blocking" else default
    }

    /** `workerReportExcludesClaims`. */
    predicate ExcludesClaims(report: WorkerReport) {
      Low(Trim(report.status)) in ["parse_failed", "provider_failed", "failed"]
    }
  }

  lemma SeverityMeans(h: Helpers, confidence: string, default: string)
    ensures h.SeverityFor(confidence, default) == if h.Normalize(confidence) == "high" then "blocking" else default
  {
    assert |h.Normalize(confidence)| == |"high"| ==> h.Normalize(confidence) == "high";
  }

  lemma StableIDShows(h: Helpers, shardID: string, text: string)
    ensures !IsBlank(h.StableID(shardID, text))
  {
    BlankIffAllSpace(h.StableID(shardID, text));
    assert h.StableID(shardID, text)[0] == 'c';
  }

  ghost predicate PlainWord(s: string) {
    forall i :: 0 <= i < |s| ==> 'a' <= s[i] <= 'z'
  }

  lemma PlainWordUnchanged(h: Helpers, s: string)
    requires PlainWord(s)
    ensures Trim(s) == s && h.Low(s) == s
  {
    TrimOfTight(s);
  }

  lemma HighIsNormal(h: Helpers)
    ensures h.Normalize("high") == "high"
  {
    PlainWordUnchanged(h, "high");
  }

  /** Normalizing yields one of three words and is idempotent. */
  lemma NormalizeMeans(h: Helpers, confidence: string)
    ensures h.Normalize(confidence) in ["high", "medium", "low"]
    ensures h.Normalize(h.Normalize(confidence)) == h.Normalize(confidence)
  {
    PlainWordUnchanged(h, h.Normalize(confidence));
  }

  /** Which words count as high and which as low confidence; every other one counts as medium. */
  lemma NormalizeWords(h: Helpers, confidence: string)
    ensures h.Normalize(confidence) == "high" <==> h.Low(Trim(confidence)) in {"high", "confirmed", "strong"}
    ensures h.Normalize(confidence) == "low" <==> h.Low(Trim(confidence)) in {"low", "weak", "uncertain", "unknown"}
  {
    assert |"high"| == 4 && |"low"| == 3 && |"medium"| == 6;
  }
}
