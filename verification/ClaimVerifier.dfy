/** `verifySingleAnalysisClaim` and the checks it runs. Every check is a loop proved equal to a
    per-item function; together they decide whether a claim is grounded. */
module ClaimVerifier {
  import opened ClaimModel
  import opened Options
  import opened SemanticIndex
  import opened Sequences
  import opened Text

  const BLOCKING := "blocking"

  /** What the graph check collects from the cited packets. */
  datatype CitedKeys = CitedKeys(h: Helpers, ids: set<string>, paths: set<string>, nodes: set<string>) {

    /** The edge touches a cited path or a cited symbol. */
    predicate Direct(e: GraphEdge) {
      h.edgeTouches(e.evidence, paths) || e.sourceID in nodes || e.targetID in nodes
    }

    function Mentions(packetIDs: seq<string>): nat {
      if packetIDs == [] then 0
      else Mentions(packetIDs[..|packetIDs| - 1]) + if packetIDs[|packetIDs| - 1] in ids then 1 else 0
    }

    /** What the loop over the graph edges appends for one edge: its id, once for a direct edge, else as
        often as it names a cited packet. */
    function Appended(e: GraphEdge): seq<string> {
      seq(if Direct(e) then 1 else Mentions(e.packetIDs), _ => e.id)
    }
  }

  /** One call of `verifySingleAnalysisClaim`. */
  datatype ClaimCheck = ClaimCheck(
    h: Helpers, symbols: seq<SymbolRecord>, edges: seq<GraphEdge>, shard: AnalysisShard, worker: WorkerReport,
    claim: AnalysisClaim, packetByID: map<string, EvidencePacket>, ambiguous: bool)
  {
    function Original(): string { h.Normalize(claim.confidence) }

    function ShardID(): string { FirstNonBlank(worker.shardID, shard.id) }

    /** `packetPathInShardScope`: the path names a primary or reference file of the shard. */
    ghost predicate InScope(path: string) {
      h.PathKey(path) != "" &&
      exists file :: file in shard.primaryFiles + shard.referenceFiles && h.PathKey(file) == h.PathKey(path)
    }

    // --- packets

    function Lookup(id: string): Option<EvidencePacket> {
      if IsBlank(id) then None
      else if h.Low(Trim(id)) in packetByID then Some(packetByID[h.Low(Trim(id))])
      else None
    }

    function PacketOf(id: string): seq<EvidencePacket> {
      match Lookup(id)
      case Some(p) => [p]
      case None => []
    }

    function PacketIDOf(id: string): seq<string> {
      match Lookup(id)
      case Some(p) => [p.id]
      case None => []
    }

    function PacketEdgesOf(id: string): seq<string> {
      match Lookup(id)
      case Some(p) => p.graphEdgeIDs
      case None => []
    }

    predicate ForeignShard(p: EvidencePacket) {
      !IsBlank(p.shardID) && !IsBlank(ShardID()) && p.shardID != ShardID()
    }

    ghost function PacketIssues(id: string): seq<Issue> {
      if IsBlank(id) then []
      else
        match Lookup(id)
        case None => [Issue("packet_id_not_found", h.SeverityFor(Original(), "error"), Trim(id))]
        case Some(p) => ScopeIssues(p)
    }

    ghost function ScopeIssues(p: EvidencePacket): seq<Issue> {
      (if ForeignShard(p) then [Issue("packet_shard_scope_mismatch", BLOCKING, p.id)] else []) +
      (if !ambiguous && !InScope(p.path) then [Issue("packet_source_scope_mismatch", BLOCKING, p.id)] else [])
    }

    function Packets(): seq<EvidencePacket> { FlatMap(PacketOf, claim.evidencePacketIDs) }

    function MissingPacketIssues(): seq<Issue> {
      var cited := Uniques(claim.evidencePacketIDs);
      (if cited == [] then [Issue("missing_packet_id", h.SeverityFor(Original(), "warning"), claim.claim)] else []) +
      (if Packets() == [] && cited != [] then [Issue("no_valid_packet", h.SeverityFor(Original(), "error"), "")]
       else [])
    }

    // --- source anchors

    function Parse(anchor: string): Option<Anchor> {
      match h.parseAnchor(anchor)
      case None => None
      case Some(hit) => if hit.0 == "" then None else Some(Anchor(anchor, hit.0, hit.1))
    }

    function ParsedAnchor(anchor: string): seq<Anchor> {
      if IsBlank(anchor) || Parse(anchor).None? then [] else [Parse(anchor).value]
    }

    function ParseIssues(anchor: string): seq<Issue> {
      if IsBlank(anchor) || Parse(anchor).Some? then []
      else [Issue("unparseable_source_anchor", h.SeverityFor(claim.confidence, "warning"), anchor)]
    }

    predicate SamePath(a: Anchor, p: EvidencePacket) {
      h.PathKey(p.path) == h.PathKey(a.path)
    }

    predicate LineFits(a: Anchor, p: EvidencePacket) {
      a.line <= 0 || (p.startLine <= 0 && p.endLine <= 0) || (p.startLine <= a.line <= p.endLine)
    }

    ghost function AnchorIssues(a: Anchor): seq<Issue> {
      if !ambiguous && !InScope(a.path) then [Issue("source_scope_mismatch", BLOCKING, a.raw)]
      else if Packets() == [] then []
      else if !exists p :: p in Packets() && SamePath(a, p) then [Issue("source_packet_mismatch", "warning", a.raw)]
      else if !exists p :: p in Packets() && SamePath(a, p) && LineFits(a, p) then
        [Issue("line_range_mismatch", BLOCKING, a.raw)]
      else []
    }

    function Anchors(): seq<Anchor> { FlatMap(ParsedAnchor, claim.sourceAnchors) }

    ghost function SourceIssues(): seq<Issue> {
      var unparsed := FlatMap(ParseIssues, claim.sourceAnchors);
      if Anchors() == [] && unparsed == [] then
        [Issue("missing_source_anchor", h.SeverityFor(claim.confidence, "warning"), "")]
      else unparsed + FlatMap(AnchorIssues, Anchors())
    }

    // --- symbols

    /** The packet's own symbol name and id, lower-cased. */
    function NamesOf(p: EvidencePacket): set<string> {
      (if !IsBlank(p.symbolName) then {h.Low(p.symbolName)} else {}) +
      (if !IsBlank(p.symbolID) then {h.Low(p.symbolID)} else {})
    }

    function FileKeyOf(p: EvidencePacket): set<string> { {h.PathKey(p.path)} }

    ghost predicate CitedFile(key: string) {
      exists p :: p in Packets() && h.PathKey(p.path) == key
    }

    /** What an index symbol adds: its spellings, when its file is the file of a cited packet. */
    ghost function SpellingsOf(s: SymbolRecord): set<string> {
      if CitedFile(h.PathKey(s.file)) then {h.Low(s.name), h.Low(s.canonicalName), h.Low(s.id)} else {}
    }

    /** A lower-cased symbol the cited packets name, or the index lists in a file of theirs. */
    ghost predicate KnownSymbol(low: string) {
      (exists p :: p in Packets() && low in NamesOf(p)) || (exists s :: s in symbols && low in SpellingsOf(s))
    }

    ghost function SymbolIssues(cited: string): seq<Issue> {
      if KnownSymbol(h.Low(cited)) then [] else [Issue("symbol_mismatch", BLOCKING, cited)]
    }

    // --- graph edges

    /** `analysisGraphSymbolNodeID`. */
    function NodesOf(p: EvidencePacket): set<string> {
      if IsBlank(p.symbolID) then {} else {"symbol:" + Trim(p.symbolID)}
    }

    function PathOf(p: EvidencePacket): set<string> { {p.path} }

    function IDOf(p: EvidencePacket): set<string> { {p.id} }

    function EdgeIDsOf(p: EvidencePacket): seq<string> { p.graphEdgeIDs }

    /** The packet ids, paths and symbol nodes that graph edges are compared with. */
    ghost function Cited(): CitedKeys {
      CitedKeys(h, UnionMap(IDOf, Packets()), UnionMap(PathOf, Packets()), UnionMap(NodesOf, Packets()))
    }

    /** Whether a graph edge supports the cited packets: by a file, a symbol node or a packet id. */
    ghost predicate Supports(e: GraphEdge) {
      Cited().Direct(e) || exists id :: id in e.packetIDs && id in Cited().ids
    }

    /** The edge ids of the result, cleaned, in order: those the packets carry, then the supporting edges. */
    ghost function GraphEdgeIDs(): seq<string> {
      Uniques(FlatMap(EdgeIDsOf, Packets()) + FlatMap(Cited().Appended, edges))
    }

    /** The non-blank edge ids a claim can lean on: those its packets carry, and the supporting edges. */
    ghost predicate LeansOn(edgeID: string) {
      && edgeID != ""
      && ((exists p, raw :: p in Packets() && raw in p.graphEdgeIDs && Trim(raw) == edgeID)
          || (exists e :: e in edges && Supports(e) && Trim(e.id) == edgeID))
    }

    ghost function GraphIssues(): seq<Issue> {
      if h.needsGraphEdge(claim) && !exists edgeID :: LeansOn(edgeID) then
        [Issue("graph_edge_unverified", "warning", claim.claim)]
      else []
    }

    // --- deterministic facts and the security overlay

    function FactIssues(): seq<Issue> {
      (if h.coverageConflict(claim) then [Issue("coverage_fact_conflict", BLOCKING, "")] else []) +
      (if h.architectureConflict(claim) then [Issue("architecture_fact_conflict", BLOCKING, "")] else []) +
      (if h.driverConflict(claim) then [Issue("windows_driver_fact_conflict", BLOCKING, "")] else [])
    }

    function SecurityIssues(): seq<Issue> {
      if !h.securityRelevant(claim) then []
      else
        (if h.contradictsBoundary(claim, Packets()) then
           [Issue("security_boundary_invariant_violation", BLOCKING, "")] else []) +
        (if h.overlayHasEdges && Packets() != [] && !h.overlayTouches(claim, Packets()) then
           [Issue("security_overlay_unlinked", "warning", claim.claim)]
         else [])
    }

    // --- the verdict

    ghost function Issues(): seq<Issue> {
      (if ambiguous then [Issue("duplicate_shard_id", BLOCKING, ShardID())] else []) +
      FlatMap(PacketIssues, claim.evidencePacketIDs) + MissingPacketIssues() + SourceIssues() +
      FlatMap(SymbolIssues, h.citedSymbols(claim)) + GraphIssues() + FactIssues() + SecurityIssues()
    }

    /** The fields of the result under which it is filed. */
    predicate Identifies(r: Result) {
      && r.shardID == ShardID()
      && r.claimID == FirstNonBlank(claim.id, h.StableID(worker.shardID, claim.claim))
      && r.claim == Trim(claim.claim)
    }

    /** Every field of the result. */
    ghost predicate IsOutcome(r: Result) {
      && Identifies(r)
      && r.kind == h.normalizeKind(claim.kind)
      && r.originalConfidence == Original()
      && r.evidencePacketIDs == Uniques(claim.evidencePacketIDs)
      && r.sourceAnchors == Uniques(claim.sourceAnchors)
      && r.supportingPacketIDs == Uniques(FlatMap(PacketIDOf, claim.evidencePacketIDs))
      && r.graphEdgeIDs == GraphEdgeIDs()
      && r.issues == Issues()
      && IsVerdict(h, r.originalConfidence, r.issues, r.status, r.finalConfidence)
    }
  }

  // ---------------------------------------------------------------------------
  // The status rule.

  function Severity(h: Helpers, issue: Issue): string {
    h.Low(Trim(issue.severity))
  }

  ghost predicate HasSeverity(h: Helpers, issues: seq<Issue>, word: string) {
    exists issue :: issue in issues && Severity(h, issue) == word
  }

  lemma HasSeverityNext(h: Helpers, issues: seq<Issue>, i: nat)
    requires i < |issues|
    ensures forall word :: HasSeverity(h, issues[..i + 1], word) <==>
              HasSeverity(h, issues[..i], word) || Severity(h, issues[i]) == word
  {
    assert issues[..i + 1] == issues[..i] + [issues[i]];
    forall word
      ensures HasSeverity(h, issues[..i + 1], word) <==>
                HasSeverity(h, issues[..i], word) || Severity(h, issues[i]) == word
    {
      assert issues[i] in issues[..i + 1];
    }
  }

  /** `claimVerificationStatus`, as a decision over which severities occur. */
  ghost predicate IsVerdict(h: Helpers, original: string, issues: seq<Issue>, status: Status, final: string) {
    if HasSeverity(h, issues, "blocking") then status == Blocking && final == "low"
    else if HasSeverity(h, issues, "error") then status == Unsupported && final == "low"
    else if HasSeverity(h, issues, "warning") then
      if h.SameText(original, "high") then status == Downgraded && final == "medium"
      else status == Inference && final == FirstNonBlank(original, "medium")
    else status == Verified && final == FirstNonBlank(original, "medium")
  }

  method ClaimVerificationStatus(h: Helpers, original: string, issues: seq<Issue>)
    returns (status: Status, final: string)
    ensures IsVerdict(h, original, issues, status, final)
  {
    var hasBlocking, hasError, hasWarning := false, false, false;
    for i := 0 to |issues|
      invariant hasBlocking == HasSeverity(h, issues[..i], "blocking")
      invariant hasError == HasSeverity(h, issues[..i], "error")
      invariant hasWarning == HasSeverity(h, issues[..i], "warning")
    {
      HasSeverityNext(h, issues, i);
      var severity := Severity(h, issues[i]);
      if severity == "blocking" {
        hasBlocking := true;
      } else if severity == "error" {
        hasError := true;
      } else if severity == "warning" {
        hasWarning := true;
      }
    }
    assert issues[..|issues|] == issues;
    if hasBlocking {
      return Blocking, "low";
    }
    if hasError {
      return Unsupported, "low";
    }
    if hasWarning {
      if h.SameText(original, "high") {
        return Downgraded, "medium";
      }
      return Inference, FirstNonBlank(original, "medium");
    }
    return Verified, FirstNonBlank(original, "medium");
  }

  // ---------------------------------------------------------------------------
  // The checks, as loops.

  method PacketPathInShardScope(c: ClaimCheck, path: string) returns (inScope: bool)
    ensures inScope == c.InScope(path)
  {
    var key := c.h.PathKey(path);
    if key == "" {
      return false;
    }
    if |c.shard.primaryFiles| == 0 && |c.shard.referenceFiles| == 0 {
      return false;
    }
    for i := 0 to |c.shard.primaryFiles|
      invariant forall j :: 0 <= j < i ==> c.h.PathKey(c.shard.primaryFiles[j]) != key
    {
      if c.h.PathKey(c.shard.primaryFiles[i]) == key {
        assert c.shard.primaryFiles[i] in c.shard.primaryFiles + c.shard.referenceFiles;
        return true;
      }
    }
    for i := 0 to |c.shard.referenceFiles|
      invariant forall j :: 0 <= j < i ==> c.h.PathKey(c.shard.referenceFiles[j]) != key
    {
      if c.h.PathKey(c.shard.referenceFiles[i]) == key {
        assert c.shard.referenceFiles[i] in c.shard.primaryFiles + c.shard.referenceFiles;
        return true;
      }
    }
    return false;
  }

  /** The two scope checks on a packet that was found. */
  method CheckPacketScope(c: ClaimCheck, packet: EvidencePacket) returns (issues: seq<Issue>)
    ensures issues == c.ScopeIssues(packet)
  {
    issues := [];
    if c.ForeignShard(packet) {
      issues := issues + [Issue("packet_shard_scope_mismatch", BLOCKING, packet.id)];
    }
    var inScope := PacketPathInShardScope(c, packet.path);
    if !c.ambiguous && !inScope {
      issues := issues + [Issue("packet_source_scope_mismatch", BLOCKING, packet.id)];
    }
  }

  /** The loop over the cited packet ids. */
  method ResolvePackets(c: ClaimCheck)
    returns (issues: seq<Issue>, valid: seq<EvidencePacket>, supporting: seq<string>, edgeIDs: seq<string>)
    ensures issues == FlatMap(c.PacketIssues, c.claim.evidencePacketIDs)
    ensures valid == c.Packets()
    ensures supporting == FlatMap(c.PacketIDOf, c.claim.evidencePacketIDs)
    ensures edgeIDs == FlatMap(c.PacketEdgesOf, c.claim.evidencePacketIDs)
  {
    var ids := c.claim.evidencePacketIDs;
    issues, valid, supporting, edgeIDs := [], [], [], [];
    for i := 0 to |ids|
      invariant issues == FlatMap(c.PacketIssues, ids[..i])
      invariant valid == FlatMap(c.PacketOf, ids[..i])
      invariant supporting == FlatMap(c.PacketIDOf, ids[..i])
      invariant edgeIDs == FlatMap(c.PacketEdgesOf, ids[..i])
    {
      FlatMapNext(c.PacketIssues, ids, i);
      FlatMapNext(c.PacketOf, ids, i);
      FlatMapNext(c.PacketIDOf, ids, i);
      FlatMapNext(c.PacketEdgesOf, ids, i);
      var packetID := Trim(ids[i]);
      if packetID == "" {
        continue;
      }
      if c.h.Low(packetID) !in c.packetByID {
        issues := issues + [Issue("packet_id_not_found", c.h.SeverityFor(c.Original(), "error"), packetID)];
        continue;
      }
      var packet := c.packetByID[c.h.Low(packetID)];
      var scopeIssues := CheckPacketScope(c, packet);
      issues := issues + scopeIssues;
      valid := valid + [packet];
      supporting := supporting + [packet.id];
      edgeIDs := edgeIDs + packet.graphEdgeIDs;
    }
    assert ids[..|ids|] == ids;
  }

  /** The inner loop of the anchor check: does a cited packet carry the anchor's path and line? */
  method MatchAnchor(c: ClaimCheck, a: Anchor, packets: seq<EvidencePacket>)
    returns (pathMatched: bool, lineMatched: bool)
    ensures pathMatched <==> exists p :: p in packets && c.SamePath(a, p)
    ensures pathMatched ==> (lineMatched <==> exists p :: p in packets && c.SamePath(a, p) && c.LineFits(a, p))
  {
    pathMatched, lineMatched := false, a.line <= 0;
    for i := 0 to |packets|
      invariant pathMatched <==> exists j :: 0 <= j < i && c.SamePath(a, packets[j])
      invariant lineMatched <==> a.line <= 0
      invariant forall j :: 0 <= j < i && c.SamePath(a, packets[j]) ==> !c.LineFits(a, packets[j])
    {
      if !c.SamePath(a, packets[i]) {
        continue;
      }
      pathMatched := true;
      if c.LineFits(a, packets[i]) {
        lineMatched := true;
        break;
      }
    }
  }

  /** The first loop of the anchor check. */
  method ParseAnchors(c: ClaimCheck) returns (parsed: seq<Anchor>, issues: seq<Issue>)
    ensures parsed == c.Anchors()
    ensures issues == FlatMap(c.ParseIssues, c.claim.sourceAnchors)
  {
    var anchors := c.claim.sourceAnchors;
    parsed, issues := [], [];
    for i := 0 to |anchors|
      invariant issues == FlatMap(c.ParseIssues, anchors[..i])
      invariant parsed == FlatMap(c.ParsedAnchor, anchors[..i])
    {
      FlatMapNext(c.ParseIssues, anchors, i);
      FlatMapNext(c.ParsedAnchor, anchors, i);
      if IsBlank(anchors[i]) {
        continue;
      }
      var hit := c.Parse(anchors[i]);
      if hit.None? {
        issues := issues +
          [Issue("unparseable_source_anchor", c.h.SeverityFor(c.claim.confidence, "warning"), anchors[i])];
        continue;
      }
      parsed := parsed + [hit.value];
    }
    assert anchors[..|anchors|] == anchors;
  }

  /** The second loop of the anchor check. */
  method CheckAnchors(c: ClaimCheck, parsed: seq<Anchor>, packets: seq<EvidencePacket>) returns (issues: seq<Issue>)
    requires packets == c.Packets()
    ensures issues == FlatMap(c.AnchorIssues, parsed)
  {
    issues := [];
    for i := 0 to |parsed|
      invariant issues == FlatMap(c.AnchorIssues, parsed[..i])
    {
      FlatMapNext(c.AnchorIssues, parsed, i);
      var a := parsed[i];
      var inScope := PacketPathInShardScope(c, a.path);
      if !c.ambiguous && !inScope {
        issues := issues + [Issue("source_scope_mismatch", BLOCKING, a.raw)];
        continue;
      }
      if |packets| == 0 {
        continue;
      }
      var pathMatched, lineMatched := MatchAnchor(c, a, packets);
      if !pathMatched {
        issues := issues + [Issue("source_packet_mismatch", "warning", a.raw)];
      } else if !lineMatched {
        issues := issues + [Issue("line_range_mismatch", BLOCKING, a.raw)];
      }
    }
    assert parsed[..|parsed|] == parsed;
  }

  method VerifyClaimSourceAnchors(c: ClaimCheck, packets: seq<EvidencePacket>) returns (issues: seq<Issue>)
    requires packets == c.Packets()
    ensures issues == c.SourceIssues()
  {
    var parsed;
    parsed, issues := ParseAnchors(c);
    if |parsed| == 0 && |issues| == 0 {
      return [Issue("missing_source_anchor", c.h.SeverityFor(c.claim.confidence, "warning"), "")];
    }
    var more := CheckAnchors(c, parsed, packets);
    issues := issues + more;
  }

  /** The loop over the packets: the symbols they name, and the keys of their files. */
  method PacketSymbols(c: ClaimCheck, packets: seq<EvidencePacket>) returns (names: set<string>, paths: set<string>)
    ensures names == UnionMap(c.NamesOf, packets) && paths == UnionMap(c.FileKeyOf, packets)
  {
    names, paths := {}, {};
    for i := 0 to |packets|
      invariant names == UnionMap(c.NamesOf, packets[..i])
      invariant paths == UnionMap(c.FileKeyOf, packets[..i])
    {
      UnionMapNext(c.NamesOf, packets, i);
      UnionMapNext(c.FileKeyOf, packets, i);
      if !IsBlank(packets[i].symbolName) {
        names := names + {c.h.Low(packets[i].symbolName)};
      }
      if !IsBlank(packets[i].symbolID) {
        names := names + {c.h.Low(packets[i].symbolID)};
      }
      paths := paths + {c.h.PathKey(packets[i].path)};
    }
    assert packets[..|packets|] == packets;
  }

  /** Both loops that fill the map of known symbols. */
  method KnownSymbols(c: ClaimCheck, packets: seq<EvidencePacket>) returns (known: set<string>)
    requires packets == c.Packets()
    ensures forall low :: low in known <==> c.KnownSymbol(low)
  {
    var names, packetPaths := PacketSymbols(c, packets);
    UnionMapMembers(c.FileKeyOf, packets);
    UnionMapMembers(c.NamesOf, packets);
    var listed := IndexSymbols(c, packetPaths);
    known := names + listed;
  }

  method IndexSymbols(c: ClaimCheck, packetPaths: set<string>) returns (listed: set<string>)
    requires forall key :: key in packetPaths <==> c.CitedFile(key)
    ensures forall low :: low in listed <==> exists s :: s in c.symbols && low in c.SpellingsOf(s)
  {
    listed := {};
    for i := 0 to |c.symbols|
      invariant listed == UnionMap(c.SpellingsOf, c.symbols[..i])
    {
      UnionMapNext(c.SpellingsOf, c.symbols, i);
      var symbol := c.symbols[i];
      if c.h.PathKey(symbol.file) !in packetPaths {
        continue;
      }
      listed := listed + {c.h.Low(symbol.name), c.h.Low(symbol.canonicalName), c.h.Low(symbol.id)};
    }
    assert c.symbols[..|c.symbols|] == c.symbols;
    UnionMapMembers(c.SpellingsOf, c.symbols);
  }

  method VerifyClaimSymbolAnchors(c: ClaimCheck, packets: seq<EvidencePacket>) returns (issues: seq<Issue>)
    requires packets == c.Packets()
    ensures issues == FlatMap(c.SymbolIssues, c.h.citedSymbols(c.claim))
  {
    var cited := c.h.citedSymbols(c.claim);
    if |cited| == 0 {
      return [];
    }
    var known := KnownSymbols(c, packets);
    issues := [];
    for i := 0 to |cited|
      invariant issues == FlatMap(c.SymbolIssues, cited[..i])
    {
      FlatMapNext(c.SymbolIssues, cited, i);
      if c.h.Low(cited[i]) !in known {
        issues := issues + [Issue("symbol_mismatch", BLOCKING, cited[i])];
      }
    }
    assert cited[..|cited|] == cited;
  }

  /** The loop over the packets in the graph check. */
  method PacketKeys(c: ClaimCheck, packets: seq<EvidencePacket>)
    returns (ids: set<string>, paths: set<string>, nodes: set<string>, edgeIDs: seq<string>)
    ensures ids == UnionMap(c.IDOf, packets) && paths == UnionMap(c.PathOf, packets)
    ensures nodes == UnionMap(c.NodesOf, packets) && edgeIDs == FlatMap(c.EdgeIDsOf, packets)
  {
    ids, paths, nodes, edgeIDs := {}, {}, {}, [];
    for i := 0 to |packets|
      invariant ids == UnionMap(c.IDOf, packets[..i]) && paths == UnionMap(c.PathOf, packets[..i])
      invariant nodes == UnionMap(c.NodesOf, packets[..i]) && edgeIDs == FlatMap(c.EdgeIDsOf, packets[..i])
    {
      UnionMapNext(c.IDOf, packets, i);
      UnionMapNext(c.PathOf, packets, i);
      UnionMapNext(c.NodesOf, packets, i);
      FlatMapNext(c.EdgeIDsOf, packets, i);
      ids := ids + {packets[i].id};
      paths := paths + {packets[i].path};
      if !IsBlank(packets[i].symbolID) {
        nodes := nodes + {"symbol:" + Trim(packets[i].symbolID)};
      }
      edgeIDs := edgeIDs + packets[i].graphEdgeIDs;
    }
    assert packets[..|packets|] == packets;
  }

  /** The body of the loop over the graph edges. */
  method SupportOf(cited: CitedKeys, e: GraphEdge) returns (appended: seq<string>)
    ensures appended == cited.Appended(e)
  {
    if cited.h.edgeTouches(e.evidence, cited.paths) || e.sourceID in cited.nodes || e.targetID in cited.nodes {
      return [e.id];
    }
    appended := [];
    for k := 0 to |e.packetIDs|
      invariant appended == seq(cited.Mentions(e.packetIDs[..k]), _ => e.id)
    {
      assert e.packetIDs[..k + 1][..k] == e.packetIDs[..k];
      if e.packetIDs[k] in cited.ids {
        appended := appended + [e.id];
      }
    }
    assert e.packetIDs[..|e.packetIDs|] == e.packetIDs;
  }

  /** The loop over the graph edges. */
  method SupportingEdges(c: ClaimCheck, cited: CitedKeys) returns (edgeIDs: seq<string>)
    ensures edgeIDs == FlatMap(cited.Appended, c.edges)
  {
    edgeIDs := [];
    for i := 0 to |c.edges|
      invariant edgeIDs == FlatMap(cited.Appended, c.edges[..i])
    {
      FlatMapNext(cited.Appended, c.edges, i);
      var appended := SupportOf(cited, c.edges[i]);
      edgeIDs := edgeIDs + appended;
    }
    assert c.edges[..|c.edges|] == c.edges;
  }

  lemma {:induction false} MentionsSome(cited: CitedKeys, packetIDs: seq<string>)
    ensures cited.Mentions(packetIDs) > 0 <==> exists id :: id in packetIDs && id in cited.ids
  {
    if packetIDs != [] {
      var front, last := packetIDs[..|packetIDs| - 1], packetIDs[|packetIDs| - 1];
      assert packetIDs == front + [last];
      MentionsSome(cited, front);
    }
  }

  lemma AppendedHolds(c: ClaimCheck, e: GraphEdge)
    ensures forall x :: x in c.Cited().Appended(e) <==> c.Supports(e) && x == e.id
  {
    MentionsSome(c.Cited(), e.packetIDs);
    var appended := c.Cited().Appended(e);
    assert c.Supports(e) ==> |appended| > 0 && appended[0] == e.id;
  }

  /** The cleaned list of packet edges and supporting edges holds exactly what the claim can lean on. */
  lemma LeansOnListed(c: ClaimCheck, edgeID: string)
    ensures edgeID in c.GraphEdgeIDs() <==> c.LeansOn(edgeID)
  {
    var carried, supporting := FlatMap(c.EdgeIDsOf, c.Packets()), FlatMap(c.Cited().Appended, c.edges);
    FlatMapMembers(c.EdgeIDsOf, c.Packets());
    FlatMapMembers(c.Cited().Appended, c.edges);
    UniquesHolds(carried + supporting);
    forall e
      ensures forall x :: x in c.Cited().Appended(e) <==> c.Supports(e) && x == e.id
    {
      AppendedHolds(c, e);
    }
    if edgeID in Uniques(carried + supporting) {
      var i :| 0 <= i < |carried + supporting| && Trim((carried + supporting)[i]) == edgeID;
      assert (carried + supporting)[i] in carried || (carried + supporting)[i] in supporting;
    }
    if c.LeansOn(edgeID) {
      if p, raw :| p in c.Packets() && raw in p.graphEdgeIDs && Trim(raw) == edgeID {
        assert raw in c.EdgeIDsOf(p);
        assert raw in carried + supporting;
      } else {
        var e :| e in c.edges && c.Supports(e) && Trim(e.id) == edgeID;
        assert e.id in c.Cited().Appended(e);
        assert e.id in carried + supporting;
      }
    }
  }

  lemma LeansOnSome(c: ClaimCheck)
    ensures c.GraphEdgeIDs() == [] <==> !exists edgeID :: c.LeansOn(edgeID)
  {
    if edgeID :| c.LeansOn(edgeID) {
      LeansOnListed(c, edgeID);
    }
    if c.GraphEdgeIDs() != [] {
      LeansOnListed(c, c.GraphEdgeIDs()[0]);
    }
  }

  method VerifyClaimGraphEdges(c: ClaimCheck, packets: seq<EvidencePacket>)
    returns (edgeIDs: seq<string>, issues: seq<Issue>)
    requires packets == c.Packets()
    ensures issues == c.GraphIssues()
    ensures edgeIDs == c.GraphEdgeIDs()
  {
    var ids, paths, nodes, carried := PacketKeys(c, packets);
    var supporting := SupportingEdges(c, CitedKeys(c.h, ids, paths, nodes));
    edgeIDs := UniqueStrings(carried + supporting);
    LeansOnSome(c);
    if c.h.needsGraphEdge(c.claim) && |edgeIDs| == 0 {
      return [], [Issue("graph_edge_unverified", "warning", c.claim.claim)];
    }
    return edgeIDs, [];
  }

  /** The edges collected while the packets are resolved are those the packets carry. */
  lemma {:induction false} PacketEdgesCarried(c: ClaimCheck, ids: seq<string>)
    ensures FlatMap(c.PacketEdgesOf, ids) == FlatMap(c.EdgeIDsOf, FlatMap(c.PacketOf, ids))
  {
    if ids != [] {
      var front, id := ids[..|ids| - 1], ids[|ids| - 1];
      var packets := FlatMap(c.PacketOf, front);
      PacketEdgesCarried(c, front);
      if c.Lookup(id).Some? {
        assert (packets + [c.Lookup(id).value])[..|packets|] == packets;
      } else {
        assert packets + [] == packets;
      }
    }
  }

  /** Adding the packets' own edge ids again, and cleaning again, changes nothing. */
  lemma GraphEdgesOfResult(c: ClaimCheck, carried: seq<string>)
    requires carried == FlatMap(c.PacketEdgesOf, c.claim.evidencePacketIDs)
    ensures Uniques(carried + c.GraphEdgeIDs()) == c.GraphEdgeIDs()
  {
    PacketEdgesCarried(c, c.claim.evidencePacketIDs);
    UniquesTwice(carried, FlatMap(c.Cited().Appended, c.edges));
  }

  /** `verifySingleAnalysisClaim`. */
  method VerifySingleAnalysisClaim(c: ClaimCheck) returns (r: Result)
    ensures c.IsOutcome(r)
  {
    var issues := if c.ambiguous then [Issue("duplicate_shard_id", BLOCKING, c.ShardID())] else [];
    var cited := UniqueStrings(c.claim.evidencePacketIDs);
    var anchors := UniqueStrings(c.claim.sourceAnchors);
    var packetIssues, packets, supporting, carried := ResolvePackets(c);
    var missing := [];
    if |cited| == 0 {
      missing := missing + [Issue("missing_packet_id", c.h.SeverityFor(c.Original(), "warning"), c.claim.claim)];
    }
    if |packets| == 0 && |cited| > 0 {
      missing := missing + [Issue("no_valid_packet", c.h.SeverityFor(c.Original(), "error"), "")];
    }
    assert missing == c.MissingPacketIssues();
    var sourceIssues := VerifyClaimSourceAnchors(c, packets);
    var symbolIssues := VerifyClaimSymbolAnchors(c, packets);
    var graphEdgeIDs, graphIssues := VerifyClaimGraphEdges(c, packets);
    issues := issues + packetIssues + missing + sourceIssues + symbolIssues + graphIssues + c.FactIssues() +
      c.SecurityIssues();
    GraphEdgesOfResult(c, carried);
    graphEdgeIDs := UniqueStrings(carried + graphEdgeIDs);
    supporting := UniqueStrings(supporting);
    var status, final := ClaimVerificationStatus(c.h, c.Original(), issues);
    r := Result(c.ShardID(), FirstNonBlank(c.claim.id, c.h.StableID(c.worker.shardID, c.claim.claim)),
                c.h.normalizeKind(c.claim.kind), Trim(c.claim.claim), c.Original(), final, status,
                cited, anchors, supporting, graphEdgeIDs, issues);
  }
}
