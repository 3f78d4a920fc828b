/** `verifyAnalysisClaims`: index the packets and shards, check every claim of every usable report,
    and keep the counters. */
module ClaimRun {
  import opened ClaimModel
  import opened ClaimVerifier
  import opened SemanticIndex
  import opened Sequences
  import opened Text

  /** The parts of a `ProjectAnalysisRun` the verifier reads. */
  datatype Run = Run(packets: seq<EvidencePacket>, shards: seq<AnalysisShard>, reports: seq<WorkerReport>,
                     symbols: seq<SymbolRecord>, edges: seq<GraphEdge>)

  datatype RunStatus = Passed | Warnings | BlockingRun

  datatype VerificationReport = VerificationReport(
    status: RunStatus, totalClaims: nat, runIssues: seq<Issue>, verifiedCount: nat, inferenceCount: nat,
    downgradedCount: nat, unsupportedCount: nat, blockingCount: nat, unsupportedHighConfidenceCount: nat,
    results: seq<Result>, verifiedClaims: seq<Result>, unsupportedClaims: seq<Result>)

  // ---------------------------------------------------------------------------
  // Indexing by a cleaned id: the first item keeps the key, later ones mark it as a duplicate.

  function FirstByKey<T>(items: seq<T>, key: T -> string): map<string, T> {
    if items == [] then map[]
    else
      var before := FirstByKey(items[..|items| - 1], key);
      var k := key(items[|items| - 1]);
      if k == "" || k in before then before else before[k := items[|items| - 1]]
  }

  function Duplicates<T>(items: seq<T>, key: T -> string): set<string> {
    if items == [] then {}
    else
      var before := Duplicates(items[..|items| - 1], key);
      var k := key(items[|items| - 1]);
      if k != "" && k in FirstByKey(items[..|items| - 1], key) then before + {k} else before
  }

  method IndexByKey<T>(items: seq<T>, key: T -> string) returns (byKey: map<string, T>, duplicates: set<string>)
    ensures byKey == FirstByKey(items, key) && duplicates == Duplicates(items, key)
  {
    byKey, duplicates := map[], {};
    for i := 0 to |items|
      invariant byKey == FirstByKey(items[..i], key) && duplicates == Duplicates(items[..i], key)
    {
      assert items[..i + 1][..i] == items[..i];
      var k := key(items[i]);
      if k == "" {
        continue;
      }
      if k in byKey {
        duplicates := duplicates + {k};
        continue;
      }
      byKey := byKey[k := items[i]];
    }
    assert items[..|items|] == items;
  }

  ghost predicate IsFirstWith<T>(items: seq<T>, key: T -> string, k: string, i: nat) {
    i < |items| && key(items[i]) == k && forall j :: 0 <= j < i ==> key(items[j]) != k
  }

  ghost predicate OccursTwice<T>(items: seq<T>, key: T -> string, k: string) {
    exists i, j :: 0 <= i < j < |items| && key(items[i]) == k && key(items[j]) == k
  }

  lemma {:induction false} FirstByKeyMeans<T>(items: seq<T>, key: T -> string, k: string)
    ensures k in FirstByKey(items, key) <==> k != "" && exists i: nat :: IsFirstWith(items, key, k, i)
    ensures k in FirstByKey(items, key) ==>
              exists i: nat :: IsFirstWith(items, key, k, i) && FirstByKey(items, key)[k] == items[i]
    ensures k in FirstByKey(items, key) <==> k != "" && exists i :: 0 <= i < |items| && key(items[i]) == k
  {
    if items != [] {
      var n := |items| - 1;
      FirstByKeyMeans(items[..n], key, k);
      forall i: nat | i < n
        ensures IsFirstWith(items, key, k, i) <==> IsFirstWith(items[..n], key, k, i)
      {}
      if k in FirstByKey(items[..n], key) {
        var i: nat :| IsFirstWith(items[..n], key, k, i) && FirstByKey(items[..n], key)[k] == items[..n][i];
        assert IsFirstWith(items, key, k, i);
      } else if k != "" && key(items[n]) == k {
        assert forall j :: 0 <= j < n ==> items[..n][j] == items[j];
        assert IsFirstWith(items, key, k, n);
      }
    }
  }

  lemma {:induction false} DuplicatesMean<T>(items: seq<T>, key: T -> string, k: string)
    ensures k in Duplicates(items, key) <==> k != "" && OccursTwice(items, key, k)
  {
    if items != [] {
      var n := |items| - 1;
      DuplicatesMean(items[..n], key, k);
      FirstByKeyMeans(items[..n], key, k);
      assert forall j :: 0 <= j < n ==> items[..n][j] == items[j];
      if OccursTwice(items, key, k) && !OccursTwice(items[..n], key, k) {
        var i, j :| 0 <= i < j < |items| && key(items[i]) == k && key(items[j]) == k;
        assert j == n && key(items[..n][i]) == k;
      }
    }
  }

  // ---------------------------------------------------------------------------
  // The claims of a run and their checks.

  function ShardKey(s: AnalysisShard): string { Trim(s.id) }

  function ReportKey(w: WorkerReport): string { Trim(w.shardID) }

  datatype Verifier = Verifier(h: Helpers, run: Run) {

    function PacketKey(p: EvidencePacket): string { h.Low(Trim(p.id)) }

    /** The shard a report names, or the zero shard when no shard has that exact id. */
    function ShardOf(w: WorkerReport): AnalysisShard {
      var byID := FirstByKey(run.shards, ShardKey);
      if w.shardID in byID then byID[w.shardID] else AnalysisShard("", [], [])
    }

    function CheckOf(w: WorkerReport, claim: AnalysisClaim): ClaimCheck {
      ClaimCheck(h, run.symbols, run.edges, ShardOf(w), w, claim, FirstByKey(run.packets, PacketKey),
                 w.shardID in Duplicates(run.shards, ShardKey))
    }

    /** The checks of one report, none if its status excludes its claims. */
    function ChecksOf(w: WorkerReport): seq<ClaimCheck> {
      if h.ExcludesClaims(w) then []
      else seq(|w.claims|, i requires 0 <= i < |w.claims| => CheckOf(w, w.claims[i]))
    }

    function AllChecks(): seq<ClaimCheck> { FlatMap(ChecksOf, run.reports) }

    predicate RejectedHigh(r: Result) {
      IsRejected(r) && h.SameText(r.originalConfidence, "high")
    }
  }

  /** The results answer the checks one by one. */
  ghost predicate Answers(checks: seq<ClaimCheck>, results: seq<Result>) {
    |checks| == |results| && forall i :: 0 <= i < |checks| ==> checks[i].IsOutcome(results[i])
  }

  // ---------------------------------------------------------------------------
  // Counting.

  predicate IsVerified(r: Result) { r.status == Verified }

  predicate IsInference(r: Result) { r.status == Inference }

  predicate IsDowngraded(r: Result) { r.status == Downgraded }

  predicate IsUnsupported(r: Result) { r.status == Unsupported }

  predicate IsBlocking(r: Result) { r.status == Blocking }

  predicate IsRejected(r: Result) { r.status in {Downgraded, Unsupported, Blocking} }

  function Filter<T>(items: seq<T>, p: T -> bool): seq<T> {
    if items == [] then []
    else
      var before := Filter(items[..|items| - 1], p);
      if p(items[|items| - 1]) then before + [items[|items| - 1]] else before
  }

  lemma FilterNext<T>(items: seq<T>, x: T, p: T -> bool)
    ensures Filter(items + [x], p) == Filter(items, p) + if p(x) then [x] else []
  {
    assert (items + [x])[..|items|] == items;
  }

  /** The counters and lists of the report agree with the results seen so far. */
  ghost predicate Tallied(v: Verifier, r: VerificationReport) {
    && r.totalClaims == |r.results|
    && r.verifiedCount == |Filter(r.results, IsVerified)| && r.verifiedClaims == Filter(r.results, IsVerified)
    && r.inferenceCount == |Filter(r.results, IsInference)|
    && r.downgradedCount == |Filter(r.results, IsDowngraded)|
    && r.unsupportedCount == |Filter(r.results, IsUnsupported)|
    && r.blockingCount == |Filter(r.results, IsBlocking)|
    && r.unsupportedClaims == Filter(r.results, IsRejected)
    && r.unsupportedHighConfidenceCount == |Filter(r.results, v.RejectedHigh)|
  }

  /** The switch over the status of a new result. */
  method Record(v: Verifier, r: VerificationReport, result: Result) returns (r': VerificationReport)
    requires Tallied(v, r)
    ensures Tallied(v, r') && r'.results == r.results + [result] && r'.runIssues == r.runIssues && r'.status == r.status
  {
    FilterNext(r.results, result, IsVerified);
    FilterNext(r.results, result, IsInference);
    FilterNext(r.results, result, IsDowngraded);
    FilterNext(r.results, result, IsUnsupported);
    FilterNext(r.results, result, IsBlocking);
    FilterNext(r.results, result, IsRejected);
    FilterNext(r.results, result, v.RejectedHigh);
    var high := if v.h.SameText(result.originalConfidence, "high") then 1 else 0;
    r' := r.(totalClaims := r.totalClaims + 1, results := r.results + [result]);
    match result.status {
      case Verified =>
        r' := r'.(verifiedCount := r.verifiedCount + 1, verifiedClaims := r.verifiedClaims + [result]);
      case Inference =>
        r' := r'.(inferenceCount := r.inferenceCount + 1);
      case Downgraded =>
        r' := r'.(downgradedCount := r.downgradedCount + 1, unsupportedClaims := r.unsupportedClaims + [result],
                  unsupportedHighConfidenceCount := r.unsupportedHighConfidenceCount + high);
      case Unsupported =>
        r' := r'.(unsupportedCount := r.unsupportedCount + 1, unsupportedClaims := r.unsupportedClaims + [result],
                  unsupportedHighConfidenceCount := r.unsupportedHighConfidenceCount + high);
      case Blocking =>
        r' := r'.(blockingCount := r.blockingCount + 1, unsupportedClaims := r.unsupportedClaims + [result],
                  unsupportedHighConfidenceCount := r.unsupportedHighConfidenceCount + high);
    }
  }

  // ---------------------------------------------------------------------------
  // Run-level issues: one blocking issue per duplicated id, in whatever order the map yields.

  ghost predicate OneIssueEach(issues: seq<Issue>, code: string, ids: set<string>) {
    |issues| == |ids| &&
    forall issue :: issue in issues <==> issue.subject in ids && issue == Issue(code, BLOCKING, issue.subject)
  }

  method ReportDuplicates(code: string, ids: set<string>) returns (issues: seq<Issue>)
    ensures OneIssueEach(issues, code, ids)
  {
    issues := [];
    var pending := ids;
    while pending != {}
      invariant pending <= ids && OneIssueEach(issues, code, ids - pending)
      decreases |pending|
    {
      var id :| id in pending;
      assert ids - (pending - {id}) == (ids - pending) + {id};
      pending := pending - {id};
      issues := issues + [Issue(code, BLOCKING, id)];
    }
    assert ids - {} == ids;
  }

  function Occurrences(reports: seq<WorkerReport>, k: string): nat {
    if reports == [] then 0
    else Occurrences(reports[..|reports| - 1], k) + if ReportKey(reports[|reports| - 1]) == k then 1 else 0
  }

  /** The map of report counts per shard id, kept where it exceeds one. */
  method RepeatedReportShards(reports: seq<WorkerReport>) returns (repeated: set<string>)
    ensures forall k :: k in repeated <==> k != "" && Occurrences(reports, k) > 1
  {
    var counts: map<string, nat> := map[];
    for i := 0 to |reports|
      invariant forall k :: k in counts <==> k != "" && Occurrences(reports[..i], k) > 0
      invariant forall k :: k in counts ==> counts[k] == Occurrences(reports[..i], k)
    {
      assert reports[..i + 1][..i] == reports[..i];
      var key := ReportKey(reports[i]);
      if key == "" {
        continue;
      }
      counts := counts[key := (if key in counts then counts[key] else 0) + 1];
    }
    assert reports[..|reports|] == reports;
    repeated := set k | k in counts && counts[k] > 1;
  }

  /** The run-level issues are blocking and name exactly the duplicated packet, shard and report ids. */
  ghost predicate RunIssuesOf(v: Verifier, issues: seq<Issue>) {
    exists a, b, c, repeated :: RunIssueParts(v, issues, a, b, c, repeated)
  }

  ghost predicate RunIssueParts(v: Verifier, issues: seq<Issue>, a: seq<Issue>, b: seq<Issue>, c: seq<Issue>,
                                repeated: set<string>)
  {
    && issues == a + b + c
    && OneIssueEach(a, "duplicate_packet_id", Duplicates(v.run.packets, v.PacketKey))
    && OneIssueEach(b, "duplicate_shard_id", Duplicates(v.run.shards, ShardKey))
    && OneIssueEach(c, "duplicate_report_shard_id", repeated)
    && forall k :: k in repeated <==> k != "" && Occurrences(v.run.reports, k) > 1
  }

  // ---------------------------------------------------------------------------
  // The verifier.

  /** What the finished report says. */
  ghost predicate IsReport(v: Verifier, r: VerificationReport) {
    && Answers(v.AllChecks(), r.results)
    && RunIssuesOf(v, r.runIssues)
    && Tallied(v, r.(blockingCount := |Filter(r.results, IsBlocking)|))
    && r.blockingCount == |Filter(r.results, IsBlocking)| + |r.runIssues|
    && r.status == if r.blockingCount > 0 then BlockingRun
                   else if r.unsupportedCount + r.downgradedCount + r.inferenceCount > 0 then Warnings
                   else Passed
  }

  /** The body of the loop over the claims. */
  method VerifyClaim(v: Verifier, check: ClaimCheck, r: VerificationReport, ghost done: seq<ClaimCheck>)
    returns (r': VerificationReport)
    requires Tallied(v, r) && Answers(done, r.results)
    ensures Tallied(v, r') && Answers(done + [check], r'.results) && r'.runIssues == r.runIssues
  {
    var result := VerifySingleAnalysisClaim(check);
    AnswersGrow(done, r.results, check, result);
    r' := Record(v, r, result);
  }

  /** The loop over the claims of one report. */
  method VerifyClaims(v: Verifier, w: WorkerReport, shard: AnalysisShard, packetByID: map<string, EvidencePacket>,
                      ambiguous: bool, r: VerificationReport, ghost done: seq<ClaimCheck>,
                      ghost checks: seq<ClaimCheck>)
    returns (r': VerificationReport)
    requires Tallied(v, r) && Answers(done, r.results)
    requires |checks| == |w.claims|
    requires forall j :: 0 <= j < |checks| ==>
               checks[j] == ClaimCheck(v.h, v.run.symbols, v.run.edges, shard, w, w.claims[j], packetByID, ambiguous)
    ensures Tallied(v, r') && Answers(done + checks, r'.results) && r'.runIssues == r.runIssues
  {
    r' := r;
    assert done + checks[..0] == done;
    for j := 0 to |w.claims|
      invariant Tallied(v, r') && Answers(done + checks[..j], r'.results) && r'.runIssues == r.runIssues
    {
      PrefixNext(done, checks, j);
      var check := ClaimCheck(v.h, v.run.symbols, v.run.edges, shard, w, w.claims[j], packetByID, ambiguous);
      r' := VerifyClaim(v, check, r', done + checks[..j]);
    }
    assert checks[..|w.claims|] == checks;
  }

  /** One report: its claims are checked against the shard it names, unless its status excludes them. */
  method VerifyReport(v: Verifier, w: WorkerReport, shardByID: map<string, AnalysisShard>,
                      ambiguousShardIDs: set<string>,
                      packetByID: map<string, EvidencePacket>, r: VerificationReport, ghost done: seq<ClaimCheck>)
    returns (r': VerificationReport)
    requires shardByID == FirstByKey(v.run.shards, ShardKey) && ambiguousShardIDs == Duplicates(v.run.shards, ShardKey)
    requires packetByID == FirstByKey(v.run.packets, v.PacketKey)
    requires Tallied(v, r) && Answers(done, r.results)
    ensures Tallied(v, r') && Answers(done + v.ChecksOf(w), r'.results) && r'.runIssues == r.runIssues
  {
    if v.h.ExcludesClaims(w) {
      assert done + [] == done;
      return r;
    }
    var shard := if w.shardID in shardByID then shardByID[w.shardID] else AnalysisShard("", [], []);
    r' := VerifyClaims(v, w, shard, packetByID, w.shardID in ambiguousShardIDs, r, done, v.ChecksOf(w));
  }

  lemma PrefixNext<T>(a: seq<T>, s: seq<T>, j: nat)
    requires j < |s|
    ensures a + s[..j + 1] == a + s[..j] + [s[j]]
  {}

  lemma AnswersGrow(checks: seq<ClaimCheck>, results: seq<Result>, check: ClaimCheck, result: Result)
    requires Answers(checks, results) && check.IsOutcome(result)
    ensures Answers(checks + [check], results + [result])
  {}

  method VerifyAnalysisClaims(v: Verifier) returns (r: VerificationReport)
    ensures IsReport(v, r)
  {
    var packetByID, duplicatePacketIDs := IndexByKey(v.run.packets, v.PacketKey);
    var shardByID, ambiguousShardIDs := IndexByKey(v.run.shards, ShardKey);
    var packetIssues := ReportDuplicates("duplicate_packet_id", duplicatePacketIDs);
    var shardIssues := ReportDuplicates("duplicate_shard_id", ambiguousShardIDs);
    var repeated := RepeatedReportShards(v.run.reports);
    var reportIssues := ReportDuplicates("duplicate_report_shard_id", repeated);
    r := VerificationReport(Passed, 0, packetIssues + shardIssues + reportIssues, 0, 0, 0, 0, 0, 0, [], [], []);
    assert RunIssueParts(v, r.runIssues, packetIssues, shardIssues, reportIssues, repeated);
    for i := 0 to |v.run.reports|
      invariant Tallied(v, r) && Answers(FlatMap(v.ChecksOf, v.run.reports[..i]), r.results)
      invariant RunIssuesOf(v, r.runIssues)
    {
      FlatMapNext(v.ChecksOf, v.run.reports, i);
      r := VerifyReport(v, v.run.reports[i], shardByID, ambiguousShardIDs, packetByID, r,
                        FlatMap(v.ChecksOf, v.run.reports[..i]));
    }
    assert v.run.reports[..|v.run.reports|] == v.run.reports;
    RunIssuesBlock(v, r.runIssues);
    var blocking := r.blockingCount;
    for i := 0 to |r.runIssues|
      invariant blocking == r.blockingCount + i
    {
      if v.h.SameText(r.runIssues[i].severity, "blocking") {
        blocking := blocking + 1;
      }
    }
    var status := Passed;
    if blocking > 0 {
      status := BlockingRun;
    } else if r.unsupportedCount + r.downgradedCount + r.inferenceCount > 0 {
      status := Warnings;
    }
    r := r.(blockingCount := blocking, status := status);
  }

  lemma RunIssuesBlock(v: Verifier, issues: seq<Issue>)
    requires RunIssuesOf(v, issues)
    ensures forall issue :: issue in issues ==> issue.severity == BLOCKING
  {}
}
