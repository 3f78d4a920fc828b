/** What can be wrong with a claim, in terms of the records of the run alone, and the proof that the checks
    look at exactly these things. */
module ClaimCauses {
  import opened ClaimModel
  import opened ClaimRun
  import opened ClaimVerifier
  import opened Options
  import opened SemanticIndex
  import opened Sequences
  import opened Text

  /** A claim of a report of a run. */
  datatype Case = Case(v: Verifier, w: WorkerReport, claim: AnalysisClaim) {

    function Check(): ClaimCheck { v.CheckOf(w, claim) }

    // --- confidence

    predicate High() {
      v.h.Low(Trim(claim.confidence)) in {"high", "confirmed", "strong"}
    }

    predicate LowConfidence() {
      v.h.Low(Trim(claim.confidence)) in {"low", "weak", "uncertain", "unknown"}
    }

    // --- the shard

    /** Two shards of the run have the id the report names. */
    ghost predicate Ambiguous() {
      && w.shardID != ""
      && exists i, j :: 0 <= i < j < |v.run.shards| && Trim(v.run.shards[i].id) == w.shardID &&
           Trim(v.run.shards[j].id) == w.shardID
    }

    /** The first shard with that id. */
    ghost predicate OwnShard(s: AnalysisShard) {
      && w.shardID != ""
      && exists i :: 0 <= i < |v.run.shards| && v.run.shards[i] == s && Trim(s.id) == w.shardID &&
           forall j :: 0 <= j < i ==> Trim(v.run.shards[j].id) != w.shardID
    }

    /** The same file: case and separators aside. */
    predicate SameFile(a: string, b: string) {
      v.h.Low(v.h.toSlash(Trim(a))) == v.h.Low(v.h.toSlash(Trim(b)))
    }

    /** The path is that of a primary or reference file of the shard. */
    ghost predicate InShard(path: string) {
      && v.h.Low(v.h.toSlash(Trim(path))) != ""
      && exists s, file :: OwnShard(s) && (file in s.primaryFiles || file in s.referenceFiles) && SameFile(file, path)
    }

    // --- packets

    /** The first packet of the run with the cited id, case and white space aside. */
    ghost predicate FoundAt(id: string, p: EvidencePacket, k: nat) {
      && k < |v.run.packets| && v.run.packets[k] == p && v.h.Low(Trim(p.id)) == v.h.Low(Trim(id))
      && forall j :: 0 <= j < k ==> v.h.Low(Trim(v.run.packets[j].id)) != v.h.Low(Trim(id))
    }

    ghost predicate CitedUnder(id: string, p: EvidencePacket) {
      id in claim.evidencePacketIDs && Trim(id) != "" && exists k: nat :: FoundAt(id, p, k)
    }

    ghost predicate Cites(p: EvidencePacket) {
      exists id :: CitedUnder(id, p)
    }

    /** A cited id no packet of the run has. */
    ghost predicate Unknown(id: string) {
      && id in claim.evidencePacketIDs && Trim(id) != ""
      && forall p :: p in v.run.packets ==> v.h.Low(Trim(p.id)) != v.h.Low(Trim(id))
    }

    ghost predicate CitesNothing() {
      forall id :: id in claim.evidencePacketIDs ==> Trim(id) == ""
    }

    /** The packet belongs to another shard. */
    predicate Foreign(p: EvidencePacket) {
      Trim(p.shardID) != "" && Trim(w.shardID) != "" && p.shardID != w.shardID
    }

    // --- anchors

    ghost predicate AnchorAt(raw: string, path: string, line: int) {
      raw in claim.sourceAnchors && Trim(raw) != "" && v.h.parseAnchor(raw) == Some((path, line)) && path != ""
    }

    ghost predicate Unparsed(raw: string) {
      raw in claim.sourceAnchors && Trim(raw) != "" && !exists path, line :: AnchorAt(raw, path, line)
    }

    ghost predicate AnchorsNothing() {
      forall raw :: raw in claim.sourceAnchors ==> Trim(raw) == ""
    }

    /** The path passes the scope test, which is not made under a duplicated shard id. */
    ghost predicate Passes(path: string) {
      Ambiguous() || InShard(path)
    }

    ghost predicate CitesFile(path: string) {
      exists p :: Cites(p) && SameFile(p.path, path)
    }

    /** Packets are cited, but none with the path of the anchor. */
    ghost predicate MissesFile(path: string) {
      Passes(path) && (exists p :: Cites(p)) && !CitesFile(path)
    }

    /** Packets with the path of the anchor are cited, and the positive line lies in the lines of none. */
    ghost predicate MissesLine(path: string, line: int) {
      && Passes(path) && line > 0 && CitesFile(path)
      && forall p :: Cites(p) && SameFile(p.path, path) ==>
           (p.startLine > 0 || p.endLine > 0) && (line < p.startLine || p.endLine < line)
    }

    // --- symbols

    /** The packet names the lower-cased symbol. */
    predicate NamedBy(low: string, p: EvidencePacket) {
      || (Trim(p.symbolName) != "" && v.h.Low(p.symbolName) == low)
      || (Trim(p.symbolID) != "" && v.h.Low(p.symbolID) == low)
    }

    /** The index lists it in the file of the cited packet. */
    ghost predicate Lists(low: string, p: EvidencePacket, s: SymbolRecord) {
      && Cites(p) && s in v.run.symbols && SameFile(s.file, p.path)
      && (v.h.Low(s.name) == low || v.h.Low(s.canonicalName) == low || v.h.Low(s.id) == low)
    }

    ghost predicate Knows(symbol: string) {
      || (exists p :: Cites(p) && NamedBy(v.h.Low(symbol), p))
      || exists p, s :: Lists(v.h.Low(symbol), p, s)
    }

    // --- graph edges

    /** The graph node of the packet's symbol. */
    predicate IsNode(node: string, p: EvidencePacket) {
      Trim(p.symbolID) != "" && node == "symbol:" + Trim(p.symbolID)
    }

    ghost predicate TouchesSymbol(e: GraphEdge) {
      exists p :: Cites(p) && (IsNode(e.sourceID, p) || IsNode(e.targetID, p))
    }

    ghost function CitedPaths(): set<string> {
      set p | p in v.run.packets && Cites(p) :: p.path
    }

    /** The edge touches the path or the symbol of a cited packet, or names its id. */
    ghost predicate Backs(e: GraphEdge) {
      || v.h.edgeTouches(e.evidence, CitedPaths()) || TouchesSymbol(e)
      || exists p :: Cites(p) && p.id in e.packetIDs
    }

    /** A cited packet carries the edge id, or an edge of the graph with it backs the claim. */
    ghost predicate HasEdge(edgeID: string) {
      && edgeID != ""
      && ((exists p, raw :: Cites(p) && raw in p.graphEdgeIDs && Trim(raw) == edgeID)
          || (exists e :: e in v.run.edges && Backs(e) && Trim(e.id) == edgeID))
    }

    // --- helpers that read the packets as a list

    /** The packet found under the id, if there is one. */
    ghost function Here(id: string): seq<EvidencePacket> {
      if exists p :: CitedUnder(id, p) then var p :| CitedUnder(id, p); [p] else []
    }

    /** The packets found under the ids, in the order of citation. */
    ghost function Found(ids: seq<string>): seq<EvidencePacket> {
      if ids == [] then [] else Here(ids[0]) + Found(ids[1..])
    }
  }

  // ---------------------------------------------------------------------------
  // The checks look these things up.

  lemma FoundIsUnique(k: Case, id: string, p: EvidencePacket, q: EvidencePacket)
    requires k.CitedUnder(id, p) && k.CitedUnder(id, q)
    ensures p == q
  {
    var i: nat :| k.FoundAt(id, p, i);
    var j: nat :| k.FoundAt(id, q, j);
    assert i <= j && j <= i;
  }

  lemma LookupFinds(k: Case, id: string)
    requires id in k.claim.evidencePacketIDs && Trim(id) != ""
    ensures k.Check().Lookup(id).Some? ==> k.CitedUnder(id, k.Check().Lookup(id).value)
    ensures k.Check().Lookup(id).None? <==> k.Unknown(id)
  {
    var packets, key := k.v.run.packets, k.v.h.Low(Trim(id));
    FirstByKeyMeans(packets, k.v.PacketKey, key);
    if key in FirstByKey(packets, k.v.PacketKey) {
      var i: nat :| IsFirstWith(packets, k.v.PacketKey, key, i) &&
        FirstByKey(packets, k.v.PacketKey)[key] == packets[i];
      assert k.FoundAt(id, packets[i], i);
    }
  }

  lemma LookupIs(k: Case, id: string, p: EvidencePacket)
    requires id in k.claim.evidencePacketIDs
    ensures k.Check().Lookup(id) == Some(p) <==> k.CitedUnder(id, p)
  {
    if Trim(id) != "" {
      LookupFinds(k, id);
      if k.CitedUnder(id, p) {
        var i: nat :| k.FoundAt(id, p, i);
        assert p in k.v.run.packets;
        FoundIsUnique(k, id, p, k.Check().Lookup(id).value);
      }
    }
  }

  lemma PacketsAreCited(k: Case, p: EvidencePacket)
    ensures p in k.Check().Packets() <==> k.Cites(p)
  {
    var c := k.Check();
    FlatMapMembers(c.PacketOf, k.claim.evidencePacketIDs);
    if id :| id in k.claim.evidencePacketIDs && p in c.PacketOf(id) {
      LookupIs(k, id, p);
    }
    if id :| k.CitedUnder(id, p) {
      LookupIs(k, id, p);
      assert p in c.PacketOf(id);
    }
  }

  lemma CitedIsListed(k: Case, p: EvidencePacket)
    requires k.Cites(p)
    ensures p in k.v.run.packets
  {
    var id :| k.CitedUnder(id, p);
    var i: nat :| k.FoundAt(id, p, i);
  }

  lemma FoundHere(k: Case, id: string)
    requires id in k.claim.evidencePacketIDs
    ensures k.Here(id) == k.Check().PacketOf(id)
  {
    forall p
      ensures k.Check().Lookup(id) == Some(p) <==> k.CitedUnder(id, p)
    {
      LookupIs(k, id, p);
    }
  }

  lemma {:induction false} FoundIsPackets(k: Case, ids: seq<string>)
    requires forall id :: id in ids ==> id in k.claim.evidencePacketIDs
    ensures k.Found(ids) == FlatMap(k.Check().PacketOf, ids)
  {
    if ids != [] {
      FoundHere(k, ids[0]);
      FoundIsPackets(k, ids[1..]);
      FlatMapFront(k.Check().PacketOf, ids);
    }
  }

  lemma AmbiguousMeans(k: Case)
    ensures k.Check().ambiguous <==> k.Ambiguous()
  {
    DuplicatesMean(k.v.run.shards, ShardKey, k.w.shardID);
    if k.Ambiguous() {
      var i, j :| 0 <= i < j < |k.v.run.shards| && Trim(k.v.run.shards[i].id) == k.w.shardID &&
        Trim(k.v.run.shards[j].id) == k.w.shardID;
      assert ShardKey(k.v.run.shards[i]) == k.w.shardID && ShardKey(k.v.run.shards[j]) == k.w.shardID;
    }
  }

  lemma ShardIsOwn(k: Case)
    ensures k.OwnShard(k.Check().shard) || k.Check().shard == AnalysisShard("", [], [])
    ensures forall s :: k.OwnShard(s) ==> s == k.Check().shard
  {
    var shards, id := k.v.run.shards, k.w.shardID;
    FirstByKeyMeans(shards, ShardKey, id);
    if id in FirstByKey(shards, ShardKey) {
      var i: nat :| IsFirstWith(shards, ShardKey, id, i) && FirstByKey(shards, ShardKey)[id] == shards[i];
      assert ShardKey(shards[i]) == id;
    }
    forall s | k.OwnShard(s)
      ensures s == k.Check().shard
    {
      var j :| 0 <= j < |shards| && shards[j] == s && Trim(s.id) == id
      && forall m :: 0 <= m < j ==> Trim(shards[m].id) != id;
      assert ShardKey(shards[j]) == id;
    }
  }

  lemma ScopeMeans(k: Case, path: string)
    ensures k.Check().InScope(path) <==> k.InShard(path)
  {
    var c := k.Check();
    ShardIsOwn(k);
    if file :| file in c.shard.primaryFiles + c.shard.referenceFiles && c.h.PathKey(file) == c.h.PathKey(path) {
      assert k.OwnShard(c.shard) && k.SameFile(file, path);
    }
    if s, file :| k.OwnShard(s) && (file in s.primaryFiles || file in s.referenceFiles) && k.SameFile(file, path) {
      assert file in c.shard.primaryFiles + c.shard.referenceFiles && c.h.PathKey(file) == c.h.PathKey(path);
    }
  }

  lemma ForeignMeans(k: Case, p: EvidencePacket)
    ensures k.Check().ForeignShard(p) <==> k.Foreign(p)
  {
    ShardIsOwn(k);
    if Trim(k.w.shardID) == "" {
      if k.OwnShard(k.Check().shard) {
        TrimIdempotent(k.Check().shard.id);
        assert false;
      }
    }
  }
}
