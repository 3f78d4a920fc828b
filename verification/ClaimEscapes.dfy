/** Two runs in which a rejected claim keeps its high confidence and its place among the facts. */
module ClaimEscapes {
  import opened ClaimApply
  import opened ClaimApplyLaws
  import opened ClaimGrounding
  import opened ClaimModel
  import opened ClaimRun
  import opened ClaimVerifier
  import opened Options
  import opened Sequences
  import opened Text

  /** The write-back leaves the claim high and its text a fact. */
  ghost predicate Untouched(h: Helpers, results: seq<Result>, w: WorkerReport, claim: AnalysisClaim) {
    && Writer(h, ByKey(h, results), w.shardID).Written(claim).confidence == "high"
    && claim.claim in AppliedReport(h, ByKey(h, results), w).facts
  }

  /** The claim was rejected, and yet the write-back leaves it high and its text a fact. */
  ghost predicate Escapes(v: Verifier, results: seq<Result>, i: nat, w: WorkerReport, claim: AnalysisClaim) {
    && i < |results| && v.CheckOf(w, claim).IsOutcome(results[i]) && IsRejected(results[i])
    && Untouched(v.h, results, w, claim)
  }

  /** A high-confidence claim that cites no packet is rejected. */
  lemma BareIsRejected(c: ClaimCheck, r: Result)
    requires c.IsOutcome(r) && c.claim.evidencePacketIDs == [] && c.claim.confidence == "high"
    ensures IsRejected(r)
  {
    HighIsNormal(c.h);
    assert !PacketsGrounded(c);
    VerifiedIffGrounded(c, r);
    StatusByConfidence(c, r);
  }

  lemma ChecksOfOne(v: Verifier, w: WorkerReport)
    requires v.run.reports == [w]
    ensures v.AllChecks() == v.ChecksOf(w)
  {
    assert [w][..0] == [];
    assert FlatMap(v.ChecksOf, [w]) == FlatMap(v.ChecksOf, []) + v.ChecksOf(w);
    assert [] + v.ChecksOf(w) == v.ChecksOf(w);
  }

  /** A fact that no claim of the report is withheld for stays. */
  lemma FactStays(h: Helpers, results: seq<Result>, w: WorkerReport, fact: string)
    requires fact in w.facts && Trim(fact) == fact != ""
    requires forall claim :: claim in w.claims ==> !Writer(h, ByKey(h, results), w.shardID).Withheld(claim)
    ensures fact in AppliedReport(h, ByKey(h, results), w).facts
  {
    FactsAfterMeans(h, ByKey(h, results), w, fact);
  }

  // ---------------------------------------------------------------------------
  // No id.

  /** High confidence, no id, no evidence. */
  function Unfiled(text: string): AnalysisClaim { AnalysisClaim("", "fact", text, [], [], "high", "") }

  function UnfiledReport(text: string): WorkerReport { WorkerReport("s", "", [text], [], [Unfiled(text)]) }

  function UnfiledVerifier(h: Helpers, shard: AnalysisShard, text: string): Verifier {
    Verifier(h, Run([], [shard], [UnfiledReport(text)], [], []))
  }

  lemma PlainStatus(h: Helpers)
    ensures h.Low(Trim("")) == ""
  {
    PlainWordUnchanged(h, "");
  }

  lemma UnfiledChecks(h: Helpers, shard: AnalysisShard, text: string)
    ensures var v := UnfiledVerifier(h, shard, text); v.AllChecks() == [v.CheckOf(UnfiledReport(text), Unfiled(text))]
  {
    ChecksOfOne(UnfiledVerifier(h, shard, text), UnfiledReport(text));
    PlainStatus(h);
  }

  /** A claim that finds no result keeps its confidence, and its text stays a fact. */
  lemma NoVerdictEscapes(h: Helpers, r: Result, w: WorkerReport, claim: AnalysisClaim)
    requires h.KeyOf(r) != LookupKey(h, w.shardID, claim)
    requires w.claims == [claim] && claim.confidence == "high"
    requires claim.claim in w.facts && Trim(claim.claim) == claim.claim != ""
    ensures Untouched(h, [r], w, claim)
  {
    var found := Writer(h, ByKey(h, [r]), w.shardID).ResultFor(claim);
    if found.Some? {
      ReceivesLast(h, [r], w.shardID, claim, found.value);
    }
    FactStays(h, [r], w, claim.claim);
  }

  /** Whatever the helpers and the shard: a lone claim without an id is rejected for want of evidence,
      filed under a generated id, and therefore never corrected. */
  lemma BlankIdEscapes(h: Helpers, shard: AnalysisShard, text: string, results: seq<Result>)
    requires Trim(text) == text != "" && Answers(UnfiledVerifier(h, shard, text).AllChecks(), results)
    ensures Escapes(UnfiledVerifier(h, shard, text), results, 0, UnfiledReport(text), Unfiled(text))
  {
    var v, w, claim := UnfiledVerifier(h, shard, text), UnfiledReport(text), Unfiled(text);
    UnfiledChecks(h, shard, text);
    var r := results[0];
    assert results == [r];
    BareIsRejected(v.CheckOf(w, claim), r);
    KeysMeet(v, w, claim, r);
    NoVerdictEscapes(h, r, w, claim);
  }

  // ---------------------------------------------------------------------------
  // A repeated id.

  /** Helpers that read an anchor as a path and find nothing else to object to. */
  const PLAIN: Helpers := Helpers(c => c, c => c, s => s, (shardID, text) => "", kind => kind,
                                  anchor => Some((anchor, 0)), claim => [], (evidence, paths) => false,
                                  claim => false, claim => false, claim => false, claim => false, claim => false,
                                  (claim, packets) => false, false, (claim, packets) => true)

  /** Two claims with one id and one text: the first cites nothing, the second its packet and its file. */
  const BARE := AnalysisClaim("c", "fact", "x", [], [], "high", "")
  const BACKED := AnalysisClaim("c", "fact", "x", ["f"], ["p"], "high", "")
  const TWICE_REPORT := WorkerReport("s", "", ["x"], [], [BARE, BACKED])
  const PACKET := EvidencePacket("p", "s", "f", "", "", 0, 0, [])
  const SHARD := AnalysisShard("s", ["f"], [])
  const TWICE := Verifier(PLAIN, Run([PACKET], [SHARD], [TWICE_REPORT], [], []))

  lemma TwiceChecks()
    ensures TWICE.AllChecks() == [TWICE.CheckOf(TWICE_REPORT, BARE), TWICE.CheckOf(TWICE_REPORT, BACKED)]
  {
    ChecksOfOne(TWICE, TWICE_REPORT);
    PlainStatus(PLAIN);
  }

  lemma FirstByKeyOfOne<T>(x: T, key: T -> string)
    requires key(x) != ""
    ensures FirstByKey([x], key) == map[key(x) := x] && Duplicates([x], key) == {}
  {
    assert [x][..0] == [];
  }

  lemma TwiceCheckIs(claim: AnalysisClaim)
    ensures TWICE.CheckOf(TWICE_REPORT, claim) ==
              ClaimCheck(PLAIN, [], [], SHARD, TWICE_REPORT, claim, map["p" := PACKET], false)
  {
    PlainWordUnchanged(PLAIN, "s");
    PlainWordUnchanged(PLAIN, "p");
    FirstByKeyOfOne(SHARD, ShardKey);
    FirstByKeyOfOne(PACKET, TWICE.PacketKey);
  }

  lemma BackedPackets(c: ClaimCheck)
    requires c == TWICE.CheckOf(TWICE_REPORT, BACKED)
    ensures c.Lookup("p") == Some(PACKET) && c.Packets() == [PACKET] && c.InScope("f") && !IsBlank("f")
  {
    TwiceCheckIs(BACKED);
    PlainWordUnchanged(PLAIN, "p");
    PlainWordUnchanged(PLAIN, "f");
    assert ["p"][..0] == [];
    assert FlatMap(c.PacketOf, ["p"]) == FlatMap(c.PacketOf, []) + c.PacketOf("p");
    assert SHARD.primaryFiles + SHARD.referenceFiles == ["f"];
    assert "f" in ["f"];
  }

  lemma BackedIsGrounded(c: ClaimCheck)
    requires c == TWICE.CheckOf(TWICE_REPORT, BACKED)
    ensures Grounded(c)
  {
    TwiceCheckIs(BACKED);
    BackedPackets(c);
    PlainWordUnchanged(PLAIN, "p");
    assert "p" in ["p"] && "f" in ["f"] && PACKET in c.Packets();
    assert PacketsGrounded(c);
    assert AnchorGrounded(c, "f");
    assert AnchorsGrounded(c);
  }

  /** When two claims share id and text, a later verified result is the verdict of both. */
  lemma LaterVerdictWins(h: Helpers, results: seq<Result>, w: WorkerReport, claim: AnalysisClaim)
    requires |results| == 2 && results[1].status == Verified && results[1].finalConfidence == "high"
    requires h.KeyOf(results[1]) == LookupKey(h, w.shardID, claim)
    ensures Writer(h, ByKey(h, results), w.shardID).Written(claim).confidence == "high"
    ensures !Writer(h, ByKey(h, results), w.shardID).Withheld(claim)
  {
    assert IsLastWith(results, h.KeyOf, h.KeyOf(results[1]), 1);
    ReceivesLast(h, results, w.shardID, claim, results[1]);
  }

  lemma BareVerdict(r: Result)
    requires TWICE.CheckOf(TWICE_REPORT, BARE).IsOutcome(r)
    ensures IsRejected(r)
  {
    BareIsRejected(TWICE.CheckOf(TWICE_REPORT, BARE), r);
  }

  lemma BackedKey(r: Result)
    requires TWICE.CheckOf(TWICE_REPORT, BACKED).IsOutcome(r)
    ensures PLAIN.KeyOf(r) == LookupKey(PLAIN, "s", BACKED)
  {
    PlainWordUnchanged(PLAIN, "c");
    KeysMeet(TWICE, TWICE_REPORT, BACKED, r);
  }

  lemma BackedIsHigh()
    ensures PLAIN.Normalize(BACKED.confidence) == "high"
  {
    HighIsNormal(PLAIN);
  }

  lemma BackedVerdict(r: Result)
    requires TWICE.CheckOf(TWICE_REPORT, BACKED).IsOutcome(r)
    ensures r.status == Verified && r.finalConfidence == "high"
    ensures PLAIN.KeyOf(r) == LookupKey(PLAIN, "s", BACKED)
  {
    var c := TWICE.CheckOf(TWICE_REPORT, BACKED);
    BackedIsGrounded(c);
    VerifiedIffGrounded(c, r);
    ConfidenceNeverRises(c, r);
    BackedIsHigh();
    BackedKey(r);
  }

  /** A rejected claim escapes when every claim of its report is looked up under the key of a later
      verified high-confidence result. */
  lemma RejectedEscapes(h: Helpers, results: seq<Result>, w: WorkerReport, claim: AnalysisClaim)
    requires |results| == 2 && results[1].status == Verified && results[1].finalConfidence == "high"
    requires claim in w.claims && forall other :: other in w.claims ==>
               h.KeyOf(results[1]) == LookupKey(h, w.shardID, other)
    requires claim.claim in w.facts && Trim(claim.claim) == claim.claim != ""
    ensures Untouched(h, results, w, claim)
  {
    forall other | other in w.claims
      ensures Writer(h, ByKey(h, results), w.shardID).Written(other).confidence == "high"
      ensures !Writer(h, ByKey(h, results), w.shardID).Withheld(other)
    {
      LaterVerdictWins(h, results, w, other);
    }
    FactStays(h, results, w, claim.claim);
  }

  lemma TwiceVerdicts(results: seq<Result>)
    requires Answers(TWICE.AllChecks(), results)
    ensures |results| == 2 && TWICE.CheckOf(TWICE_REPORT, BARE).IsOutcome(results[0]) && IsRejected(results[0])
    ensures results[1].status == Verified && results[1].finalConfidence == "high"
    ensures PLAIN.KeyOf(results[1]) == LookupKey(PLAIN, "s", BACKED)
  {
    TwiceChecks();
    BareVerdict(results[0]);
    BackedVerdict(results[1]);
  }

  lemma TwiceShare()
    ensures forall other :: other in TWICE_REPORT.claims ==>
              LookupKey(PLAIN, "s", other) == LookupKey(PLAIN, "s", BACKED)
    ensures BARE in TWICE_REPORT.claims && "x" in TWICE_REPORT.facts && Trim("x") == "x"
  {
    PlainWordUnchanged(PLAIN, "x");
  }

  /** The verifier rejects the first claim and verifies the second, which shares its key and comes later,
      so the first is written back as high. */
  lemma RepeatedKeyEscapes(results: seq<Result>)
    requires Answers(TWICE.AllChecks(), results)
    ensures Escapes(TWICE, results, 0, TWICE_REPORT, BARE)
  {
    TwiceVerdicts(results);
    TwiceShare();
    RejectedEscapes(PLAIN, results, TWICE_REPORT, BARE);
  }
}
