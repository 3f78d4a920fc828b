/** Laws of a whole verification run: the counters add up, a clean bill of health means what it says,
    and a verified claim is tied to one known shard and to packets of the run. */
module ClaimRunLaws {
  import opened ClaimGrounding
  import opened ClaimModel
  import opened ClaimRun
  import opened ClaimVerifier
  import opened Options
  import opened Sequences
  import opened Text

  lemma {:induction false} StatusesPartition(results: seq<Result>)
    ensures |results| ==
              |Filter(results, IsVerified)| + |Filter(results, IsInference)| + |Filter(results, IsDowngraded)| +
                         |Filter(results, IsUnsupported)| + |Filter(results, IsBlocking)|
    ensures |Filter(results, IsRejected)| ==
              |Filter(results, IsDowngraded)| + |Filter(results, IsUnsupported)| + |Filter(results, IsBlocking)|
  {
    if results != [] {
      StatusesPartition(results[..|results| - 1]);
    }
  }

  lemma {:induction false} FilterAgrees<T>(items: seq<T>, p: T -> bool, q: T -> bool)
    requires forall x :: x in items ==> p(x) == q(x)
    ensures Filter(items, p) == Filter(items, q)
  {
    if items != [] {
      FilterAgrees(items[..|items| - 1], p, q);
    }
  }

  lemma {:induction false} FilterEmpty<T>(items: seq<T>, p: T -> bool)
    ensures Filter(items, p) == [] <==> forall x :: x in items ==> !p(x)
  {
    if items != [] {
      var n := |items| - 1;
      FilterEmpty(items[..n], p);
      assert items == items[..n] + [items[n]];
    }
  }

  lemma AnswerOf(checks: seq<ClaimCheck>, results: seq<Result>, r: Result) returns (c: ClaimCheck)
    requires Answers(checks, results) && r in results
    ensures c in checks && c.IsOutcome(r)
  {
    var i :| 0 <= i < |results| && results[i] == r;
    c := checks[i];
  }

  predicate HighNotVerified(r: Result) {
    r.originalConfidence == "high" && r.status != Verified
  }

  lemma RejectedHighIsHighNotVerified(v: Verifier, c: ClaimCheck, r: Result)
    requires c.IsOutcome(r)
    ensures v.RejectedHigh(r) == HighNotVerified(r)
  {
    NormalizeMeans(c.h, c.claim.confidence);
    StatusByConfidence(c, r);
    assert |"high"| == 4 && |"medium"| == 6 && |"low"| == 3;
  }

  /** Every result is counted once: the five counters add up to the number of claims checked, and the
      blocking count is the blocking results plus the run-level issues. */
  lemma Conservation(v: Verifier, r: VerificationReport)
    requires IsReport(v, r)
    ensures r.totalClaims == |r.results| == |v.AllChecks()|
    ensures r.totalClaims + |r.runIssues|
         == r.verifiedCount + r.inferenceCount + r.downgradedCount + r.unsupportedCount + r.blockingCount
    ensures |r.unsupportedClaims| == r.downgradedCount + r.unsupportedCount + r.blockingCount - |r.runIssues|
  {
    StatusesPartition(r.results);
  }

  /** A run passes exactly when every result is verified and no id is duplicated. */
  lemma PassedMeans(v: Verifier, r: VerificationReport)
    requires IsReport(v, r)
    ensures r.status == Passed <==>
              r.runIssues == [] && forall result :: result in r.results ==> result.status == Verified
  {
    FilterEmpty(r.results, IsBlocking);
    FilterEmpty(r.results, IsUnsupported);
    FilterEmpty(r.results, IsDowngraded);
    FilterEmpty(r.results, IsInference);
  }

  /** The unsupported-high-confidence counter is exactly the number of high-confidence claims that
      were not verified. */
  lemma HighCountMeans(v: Verifier, r: VerificationReport)
    requires IsReport(v, r)
    ensures r.unsupportedHighConfidenceCount == |Filter(r.results, HighNotVerified)|
  {
    forall result | result in r.results
      ensures v.RejectedHigh(result) == HighNotVerified(result)
    {
      var c := AnswerOf(v.AllChecks(), r.results, result);
      RejectedHighIsHighNotVerified(v, c, result);
    }
    FilterAgrees(r.results, v.RejectedHigh, HighNotVerified);
  }

  /** A run blocks exactly when an id is duplicated or a result blocks. */
  lemma BlockedMeans(v: Verifier, r: VerificationReport)
    requires IsReport(v, r)
    ensures r.status == BlockingRun <==>
              r.runIssues != [] || exists result :: result in r.results && result.status == Blocking
  {
    FilterEmpty(r.results, IsBlocking);
  }

  /** Two packets of the run have the id, case and white space aside. */
  ghost predicate TwoPackets(v: Verifier, id: string) {
    && id != ""
    && exists i, j :: 0 <= i < j < |v.run.packets| &&
                      v.h.Low(Trim(v.run.packets[i].id)) == id == v.h.Low(Trim(v.run.packets[j].id))
  }

  ghost predicate TwoShards(v: Verifier, id: string) {
    && id != ""
    && exists i, j :: 0 <= i < j < |v.run.shards| && Trim(v.run.shards[i].id) == id == Trim(v.run.shards[j].id)
  }

  /** Some report names the shard id; two of them do. */
  ghost predicate Named(reports: seq<WorkerReport>, id: string) {
    exists i :: 0 <= i < |reports| && Trim(reports[i].shardID) == id
  }

  ghost predicate NamedTwice(reports: seq<WorkerReport>, id: string) {
    exists i, j :: 0 <= i < j < |reports| && Trim(reports[i].shardID) == id == Trim(reports[j].shardID)
  }

  ghost predicate TwoReports(v: Verifier, id: string) {
    id != "" && NamedTwice(v.run.reports, id)
  }

  lemma TwiceMeans(v: Verifier, id: string)
    ensures id in Duplicates(v.run.packets, v.PacketKey) <==> TwoPackets(v, id)
    ensures id in Duplicates(v.run.shards, ShardKey) <==> TwoShards(v, id)
  {
    DuplicatesMean(v.run.packets, v.PacketKey, id);
    DuplicatesMean(v.run.shards, ShardKey, id);
    if i, j :| 0 <= i < j < |v.run.packets| &&
               v.h.Low(Trim(v.run.packets[i].id)) == id == v.h.Low(Trim(v.run.packets[j].id)) {
      assert v.PacketKey(v.run.packets[i]) == id && v.PacketKey(v.run.packets[j]) == id;
    }
    if i, j :| 0 <= i < j < |v.run.shards| && Trim(v.run.shards[i].id) == id == Trim(v.run.shards[j].id) {
      assert ShardKey(v.run.shards[i]) == id && ShardKey(v.run.shards[j]) == id;
    }
  }

  lemma NamedOnceMore(front: seq<WorkerReport>, last: WorkerReport, id: string)
    ensures Named(front + [last], id) <==> Named(front, id) || Trim(last.shardID) == id
    ensures NamedTwice(front + [last], id) <==> NamedTwice(front, id) || (Named(front, id) && Trim(last.shardID) == id)
  {
    var all := front + [last];
    assert all[|front|] == last && forall i :: 0 <= i < |front| ==> all[i] == front[i];
    if Named(front, id) {
      var i :| 0 <= i < |front| && Trim(front[i].shardID) == id;
      assert Trim(all[i].shardID) == id;
    }
    if NamedTwice(front, id) {
      var i, j :| 0 <= i < j < |front| && Trim(front[i].shardID) == id == Trim(front[j].shardID);
      assert Trim(all[i].shardID) == id == Trim(all[j].shardID);
    }
  }

  lemma {:induction false} OccurrencesMean(reports: seq<WorkerReport>, id: string)
    ensures Occurrences(reports, id) > 0 <==> Named(reports, id)
    ensures Occurrences(reports, id) > 1 <==> NamedTwice(reports, id)
  {
    if reports != [] {
      var n := |reports| - 1;
      OccurrencesMean(reports[..n], id);
      NamedOnceMore(reports[..n], reports[n], id);
      assert reports == reports[..n] + [reports[n]];
    }
  }

  lemma OneIssueMeans(issues: seq<Issue>, code: string, ids: set<string>, x: Issue)
    requires OneIssueEach(issues, code, ids)
    ensures x in issues <==> x.code == code && x.severity == "blocking" && x.subject in ids
  {}

  /** The run-level issues: one blocking issue for every packet id, shard id and report shard id that occurs
      twice, case aside for packets. */
  lemma RunIssuesMean(v: Verifier, r: VerificationReport, x: Issue)
    requires IsReport(v, r)
    ensures x in r.runIssues <==>
              && x.severity == "blocking"
              && ((x.code == "duplicate_packet_id" && TwoPackets(v, x.subject))
                  || (x.code == "duplicate_shard_id" && TwoShards(v, x.subject))
                  || (x.code == "duplicate_report_shard_id" && TwoReports(v, x.subject)))
  {
    TwiceMeans(v, x.subject);
    OccurrencesMean(v.run.reports, x.subject);
    var a, b, c, repeated :| RunIssueParts(v, r.runIssues, a, b, c, repeated);
    OneIssueMeans(a, "duplicate_packet_id", Duplicates(v.run.packets, v.PacketKey), x);
    OneIssueMeans(b, "duplicate_shard_id", Duplicates(v.run.shards, ShardKey), x);
    OneIssueMeans(c, "duplicate_report_shard_id", repeated, x);
  }

  // ---------------------------------------------------------------------------
  // Which result belongs to which claim.

  /** A report whose claims are checked. */
  predicate Usable(v: Verifier, w: WorkerReport) {
    v.h.Low(Trim(w.status)) !in {"parse_failed", "provider_failed", "failed"}
  }

  /** How many claims are checked before a report. */
  function ClaimsOf(v: Verifier, reports: seq<WorkerReport>): nat {
    if reports == [] then 0
    else ClaimsOf(v, reports[..|reports| - 1]) +
         if Usable(v, reports[|reports| - 1]) then |reports[|reports| - 1].claims| else 0
  }

  lemma {:induction false} ChecksCounted(v: Verifier, reports: seq<WorkerReport>)
    ensures |FlatMap(v.ChecksOf, reports)| == ClaimsOf(v, reports)
  {
    if reports != [] {
      ChecksCounted(v, reports[..|reports| - 1]);
    }
  }

  /** The results follow the usable reports, and within a report its claims: the `n`-th result answers the
      check of the claim that has `n` claims before it, and there are no others. */
  lemma ResultsInOrder(v: Verifier, r: VerificationReport, i: nat, j: nat)
    requires IsReport(v, r)
    requires i < |v.run.reports| && Usable(v, v.run.reports[i]) && j < |v.run.reports[i].claims|
    ensures |r.results| == ClaimsOf(v, v.run.reports)
    ensures var n := ClaimsOf(v, v.run.reports[..i]) + j;
            && n < |r.results| && v.AllChecks()[n].IsOutcome(r.results[n])
            && v.AllChecks()[n] == v.CheckOf(v.run.reports[i], v.run.reports[i].claims[j])
  {
    CheckAt(v, v.run.reports, i, j);
    ChecksCounted(v, v.run.reports);
  }

  lemma CheckAt(v: Verifier, reports: seq<WorkerReport>, i: nat, j: nat)
    requires i < |reports| && Usable(v, reports[i]) && j < |reports[i].claims|
    ensures ClaimsOf(v, reports[..i]) + j < |FlatMap(v.ChecksOf, reports)|
    ensures FlatMap(v.ChecksOf, reports)[ClaimsOf(v, reports[..i]) + j] == v.CheckOf(reports[i], reports[i].claims[j])
  {
    UsableIsChecked(v, reports[i], j);
    FlatMapAt(v.ChecksOf, reports, i, j);
    ChecksCounted(v, reports[..i]);
  }

  lemma UsableIsChecked(v: Verifier, w: WorkerReport, j: nat)
    requires Usable(v, w) && j < |w.claims|
    ensures |v.ChecksOf(w)| == |w.claims| && v.ChecksOf(w)[j] == v.CheckOf(w, w.claims[j])
  {}

  // ---------------------------------------------------------------------------
  // What stands behind a verified claim.

  /** The report names exactly one shard of the run, by its trimmed id, and that shard has files. */
  ghost predicate NamesOneShard(run: Run, w: WorkerReport, shard: AnalysisShard) {
    && w.shardID != ""
    && shard.primaryFiles + shard.referenceFiles != []
    && exists i :: 0 <= i < |run.shards| && run.shards[i] == shard && ShardKey(shard) == w.shardID &&
         forall j :: 0 <= j < |run.shards| && ShardKey(run.shards[j]) == w.shardID ==> j == i
  }

  /** The cited id resolves to the first packet of the run with that id, and that packet is in scope. */
  ghost predicate ResolvesInScope(v: Verifier, c: ClaimCheck, id: string) {
    exists k: nat :: IsFirstWith(v.run.packets, v.PacketKey, v.h.Low(Trim(id)), k) &&
      c.InScope(v.run.packets[k].path) &&
      (IsBlank(v.run.packets[k].shardID) || v.run.packets[k].shardID == c.worker.shardID)
  }

  lemma ScopeNeedsFiles(c: ClaimCheck, path: string)
    requires c.InScope(path)
    ensures c.shard.primaryFiles + c.shard.referenceFiles != []
  {}

  lemma ShardIsUnique(v: Verifier, w: WorkerReport)
    requires w.shardID !in Duplicates(v.run.shards, ShardKey)
    requires v.ShardOf(w).primaryFiles + v.ShardOf(w).referenceFiles != []
    ensures NamesOneShard(v.run, w, v.ShardOf(w))
  {
    FirstByKeyMeans(v.run.shards, ShardKey, w.shardID);
    DuplicatesMean(v.run.shards, ShardKey, w.shardID);
    var i: nat :| IsFirstWith(v.run.shards, ShardKey, w.shardID, i) && v.ShardOf(w) == v.run.shards[i];
    assert ShardKey(v.run.shards[i]) == w.shardID;
  }

  lemma CitedPacketResolves(v: Verifier, c: ClaimCheck, id: string)
    requires c.h == v.h && c.packetByID == FirstByKey(v.run.packets, v.PacketKey)
    requires PacketsGrounded(c) && id in c.claim.evidencePacketIDs && !IsBlank(id)
    requires c.worker.shardID != "" && Trim(c.worker.shardID) == c.worker.shardID
    ensures ResolvesInScope(v, c, id)
  {
    var key := v.h.Low(Trim(id));
    FirstByKeyMeans(v.run.packets, v.PacketKey, key);
    var k: nat :| IsFirstWith(v.run.packets, v.PacketKey, key, k) && c.packetByID[key] == v.run.packets[k];
    assert c.Lookup(id) == Some(v.run.packets[k]);
  }

  lemma GroundedNamesShard(v: Verifier, w: WorkerReport, claim: AnalysisClaim)
    requires PacketsGrounded(v.CheckOf(w, claim)) && w.shardID !in Duplicates(v.run.shards, ShardKey)
    ensures NamesOneShard(v.run, w, v.ShardOf(w)) && Trim(w.shardID) == w.shardID
  {
    var c := v.CheckOf(w, claim);
    var cited :| cited in claim.evidencePacketIDs && !IsBlank(cited);
    ScopeNeedsFiles(c, c.Lookup(cited).value.path);
    ShardIsUnique(v, w);
    TrimIdempotent(v.ShardOf(w).id);
  }

  /** A verified claim belongs to a report that names exactly one known shard with files; every
      non-blank packet id it cites resolves to a packet of the run inside that scope. */
  lemma VerifiedIsAnchoredInRun(v: Verifier, w: WorkerReport, claim: AnalysisClaim, r: Result)
    requires v.CheckOf(w, claim).IsOutcome(r) && r.status == Verified
    ensures NamesOneShard(v.run, w, v.ShardOf(w))
    ensures forall id :: id in claim.evidencePacketIDs && !IsBlank(id) ==> ResolvesInScope(v, v.CheckOf(w, claim), id)
  {
    var c := v.CheckOf(w, claim);
    VerifiedIffGrounded(c, r);
    GroundedNamesShard(v, w, claim);
    forall id | id in claim.evidencePacketIDs && !IsBlank(id)
      ensures ResolvesInScope(v, c, id)
    {
      CitedPacketResolves(v, c, id);
    }
  }

  /** Claims under a blank, unknown or duplicated shard id are never verified. */
  lemma NeverVerifiedWithoutShard(v: Verifier, w: WorkerReport, claim: AnalysisClaim, r: Result)
    requires v.CheckOf(w, claim).IsOutcome(r)
    requires IsBlank(w.shardID) || (forall s :: s in v.run.shards ==> ShardKey(s) != w.shardID)
             || OccursTwice(v.run.shards, ShardKey, w.shardID)
    ensures r.status != Verified
  {
    if r.status == Verified {
      VerifiedIsAnchoredInRun(v, w, claim, r);
      TrimIdempotent(v.ShardOf(w).id);
    }
  }
}
