/** `applyClaimVerificationToReports`: the verdicts are written back into the reports in place, and
    withheld claims are taken out of the facts. */
module ClaimApply {
  import opened ClaimModel
  import opened ClaimRun
  import opened Options
  import opened Sequences
  import opened Text

  /** A map filled by a loop: a later item replaces an earlier one with the same key. */
  function LastByKey<T>(items: seq<T>, key: T -> string): map<string, T> {
    if items == [] then map[]
    else LastByKey(items[..|items| - 1], key)[key(items[|items| - 1]) := items[|items| - 1]]
  }

  /** The results the write-back finds, by their keys. */
  function ByKey(h: Helpers, results: seq<Result>): map<string, Result> {
    LastByKey(results, h.KeyOf)
  }

  function StatusWord(s: Status): string {
    match s
    case Verified => "verified"
    case Inference => "inference"
    case Downgraded => "downgraded"
    case Unsupported => "unsupported"
    case Blocking => "blocking"
  }

  // ---------------------------------------------------------------------------
  // What happens to one claim, and to the facts of one report.

  datatype Writer = Writer(h: Helpers, byKey: map<string, Result>, shardID: string) {

    function ResultFor(claim: AnalysisClaim): Option<Result> {
      var key := h.ResultKey(shardID, claim.id, claim.claim);
      if key in byKey then Some(byKey[key]) else None
    }

    predicate Withheld(claim: AnalysisClaim) {
      ResultFor(claim).Some? && IsRejected(ResultFor(claim).value)
    }

    function NewHint(claim: AnalysisClaim, status: Status): string {
      if !IsBlank(claim.verificationHint) then
        Trim(claim.verificationHint + " Deterministic verifier status: " + StatusWord(status) + ".")
      else "Deterministic verifier status: " + StatusWord(status) + "."
    }

    function Written(claim: AnalysisClaim): AnalysisClaim {
      match ResultFor(claim)
      case None => claim
      case Some(r) =>
        var c := claim.(confidence := r.finalConfidence, evidencePacketIDs := Uniques(r.supportingPacketIDs));
        if r.status == Verified then c
        else if r.status == Inference then (if h.SameText(c.confidence, "high") then c.(confidence := "medium") else c)
        else c.(verificationHint := NewHint(claim, r.status))
    }

    function WithheldText(claim: AnalysisClaim): seq<string> {
      if Withheld(claim) then [claim.claim] else []
    }

    function WithheldNote(claim: AnalysisClaim): seq<string> {
      if Withheld(claim) then
        ["Claim " + FirstNonBlank(claim.id, claim.claim) + " withheld from verified facts by deterministic verifier: " +
         StatusWord(ResultFor(claim).value.status) + "."]
      else []
    }
  }

  /** The test a fact must pass: it differs from every given text, trimmed and case-folded. */
  datatype Sweep = Sweep(h: Helpers, texts: seq<string>) {
    predicate Keeps(fact: string) {
      forall text | text in texts :: !h.SameText(Trim(fact), Trim(text))
    }
  }

  function AppliedReport(h: Helpers, byKey: map<string, Result>, w: WorkerReport): WorkerReport {
    var writer := Writer(h, byKey, w.shardID);
    w.(claims := Each(writer.Written, w.claims),
       facts := Uniques(FactsAfter(writer, w.facts, w.claims)),
       unknowns := Uniques(NotesAfter(writer, w.unknowns, w.claims)))
  }

  // ---------------------------------------------------------------------------
  // The loops.

  /** `removeExactAnalysisFact`. */
  method RemoveExactFact(h: Helpers, facts: seq<string>, value: string) returns (out: seq<string>)
    ensures out == Filter(facts, Sweep(h, [value]).Keeps)
  {
    out := [];
    for i := 0 to |facts|
      invariant out == Filter(facts[..i], Sweep(h, [value]).Keeps)
    {
      assert facts[..i + 1][..i] == facts[..i];
      if h.SameText(Trim(facts[i]), Trim(value)) {
        continue;
      }
      out := out + [facts[i]];
    }
    assert facts[..|facts|] == facts;
  }

  /** Removing one more text is sweeping with one more text. */
  lemma {:induction false} SweepOnce(h: Helpers, facts: seq<string>, texts: seq<string>, text: string)
    ensures Filter(Filter(facts, Sweep(h, texts).Keeps), Sweep(h, [text]).Keeps) ==
              Filter(facts, Sweep(h, texts + [text]).Keeps)
  {
    if facts != [] {
      var n := |facts| - 1;
      SweepOnce(h, facts[..n], texts, text);
      var before := Filter(facts[..n], Sweep(h, texts).Keeps);
      assert Sweep(h, texts + [text]).Keeps(facts[n]) <==>
               Sweep(h, texts).Keeps(facts[n]) && Sweep(h, [text]).Keeps(facts[n]) by {
        assert forall t :: t in texts + [text] <==> t in texts || t in [text];
      }
      FilterNext(before, facts[n], Sweep(h, [text]).Keeps);
    }
  }

  lemma {:induction false} SweepNothing(h: Helpers, facts: seq<string>)
    ensures Filter(facts, Sweep(h, []).Keeps) == facts
  {
    if facts != [] {
      SweepNothing(h, facts[..|facts| - 1]);
    }
  }

  /** The facts left after the first claims of a report. */
  function FactsAfter(writer: Writer, facts: seq<string>, claims: seq<AnalysisClaim>): seq<string> {
    Filter(facts, Sweep(writer.h, FlatMap(writer.WithheldText, claims)).Keeps)
  }

  lemma SweepNext(writer: Writer, facts: seq<string>, claims: seq<AnalysisClaim>, j: nat)
    requires j < |claims|
    ensures FactsAfter(writer, facts, claims[..j + 1]) ==
              if writer.Withheld(claims[j]) then
                Filter(FactsAfter(writer, facts, claims[..j]), Sweep(writer.h, [claims[j].claim]).Keeps)
              else FactsAfter(writer, facts, claims[..j])
  {
    FlatMapNext(writer.WithheldText, claims, j);
    var texts := FlatMap(writer.WithheldText, claims[..j]);
    SweepOnce(writer.h, facts, texts, claims[j].claim);
    assert texts + [] == texts;
  }

  /** The body of the loop over the claims of a report. */
  method WriteClaim(writer: Writer, claim: AnalysisClaim, facts: seq<string>, unknowns: seq<string>)
    returns (claim': AnalysisClaim, facts': seq<string>, unknowns': seq<string>)
    ensures claim' == writer.Written(claim)
    ensures facts' == if writer.Withheld(claim) then Filter(facts, Sweep(writer.h, [claim.claim]).Keeps) else facts
    ensures unknowns' == unknowns + writer.WithheldNote(claim)
  {
    claim', facts', unknowns' := claim, facts, unknowns;
    var key := writer.h.ResultKey(writer.shardID, claim.id, claim.claim);
    if key !in writer.byKey {
      return;
    }
    var result := writer.byKey[key];
    var packetIDs := UniqueStrings(result.supportingPacketIDs);
    claim' := claim'.(confidence := result.finalConfidence, evidencePacketIDs := packetIDs);
    if result.status == Verified {
      return;
    }
    if result.status == Inference {
      if writer.h.SameText(claim'.confidence, "high") {
        claim' := claim'.(confidence := "medium");
      }
      return;
    }
    unknowns' := unknowns + ["Claim " + FirstNonBlank(claim.id, claim.claim) +
                             " withheld from verified facts by deterministic verifier: " + StatusWord(result.status) +
                               "."];
    facts' := RemoveExactFact(writer.h, facts, claim.claim);
    if !IsBlank(claim.verificationHint) {
      claim' := claim'.(verificationHint :=
        Trim(claim.verificationHint + " Deterministic verifier status: " + StatusWord(result.status) + "."));
    } else {
      claim' := claim'.(verificationHint := "Deterministic verifier status: " + StatusWord(result.status) + ".");
    }
  }

  /** The notes added to the unknowns by the first claims of a report. */
  function NotesAfter(writer: Writer, unknowns: seq<string>, claims: seq<AnalysisClaim>): seq<string> {
    unknowns + FlatMap(writer.WithheldNote, claims)
  }

  lemma NotesNext(writer: Writer, unknowns: seq<string>, claims: seq<AnalysisClaim>, j: nat)
    requires j < |claims|
    ensures NotesAfter(writer, unknowns, claims[..j + 1]) ==
              NotesAfter(writer, unknowns, claims[..j]) + writer.WithheldNote(claims[j])
  {
    FlatMapNext(writer.WithheldNote, claims, j);
  }

  /** The three lists while the first `j` claims of a report are written. */
  ghost predicate Writing(writer: Writer, w: WorkerReport, j: nat, claims: seq<AnalysisClaim>, facts: seq<string>,
                          unknowns: seq<string>)
  {
    && j <= |w.claims| && claims == HalfDone(writer.Written, w.claims, j)
    && facts == FactsAfter(writer, w.facts, w.claims[..j])
    && unknowns == NotesAfter(writer, w.unknowns, w.claims[..j])
  }

  lemma NothingWritten(writer: Writer, w: WorkerReport)
    ensures Writing(writer, w, 0, w.claims, w.facts, w.unknowns)
  {
    SweepNothing(writer.h, w.facts);
  }

  lemma AllWritten(writer: Writer, w: WorkerReport, claims: seq<AnalysisClaim>, facts: seq<string>,
                   unknowns: seq<string>)
    requires Writing(writer, w, |w.claims|, claims, facts, unknowns)
    ensures claims == Each(writer.Written, w.claims)
    ensures facts == FactsAfter(writer, w.facts, w.claims) && unknowns == NotesAfter(writer, w.unknowns, w.claims)
  {
    assert w.claims[..|w.claims|] == w.claims;
  }

  /** One claim is written where it stands. */
  method WriteNext(writer: Writer, w: WorkerReport, j: nat, claims: seq<AnalysisClaim>, facts: seq<string>,
                   unknowns: seq<string>)
    returns (claims': seq<AnalysisClaim>, facts': seq<string>, unknowns': seq<string>)
    requires j < |w.claims| && Writing(writer, w, j, claims, facts, unknowns)
    ensures Writing(writer, w, j + 1, claims', facts', unknowns')
  {
    HalfDoneNext(writer.Written, w.claims, j);
    SweepNext(writer, w.facts, w.claims, j);
    NotesNext(writer, w.unknowns, w.claims, j);
    var claim;
    claim, facts', unknowns' := WriteClaim(writer, claims[j], facts, unknowns);
    claims' := claims[j := claim];
  }

  /** The loop over the claims of a report, which it updates in place. */
  method WriteClaims(writer: Writer, w: WorkerReport)
    returns (claims: seq<AnalysisClaim>, facts: seq<string>, unknowns: seq<string>)
    ensures claims == Each(writer.Written, w.claims)
    ensures facts == FactsAfter(writer, w.facts, w.claims)
    ensures unknowns == NotesAfter(writer, w.unknowns, w.claims)
  {
    claims, facts, unknowns := w.claims, w.facts, w.unknowns;
    NothingWritten(writer, w);
    for j := 0 to |w.claims|
      invariant Writing(writer, w, j, claims, facts, unknowns)
    {
      claims, facts, unknowns := WriteNext(writer, w, j, claims, facts, unknowns);
    }
    AllWritten(writer, w, claims, facts, unknowns);
  }

  method ApplyToReport(h: Helpers, byKey: map<string, Result>, w: WorkerReport) returns (w': WorkerReport)
    ensures w' == AppliedReport(h, byKey, w)
  {
    var claims, facts, unknowns := WriteClaims(Writer(h, byKey, w.shardID), w);
    facts := UniqueStrings(facts);
    unknowns := UniqueStrings(unknowns);
    w' := w.(claims := claims, facts := facts, unknowns := unknowns);
  }

  class ProjectAnalysisRun {
    var reports: seq<WorkerReport>
    var claimVerification: Option<VerificationReport>
    var unsupportedClaims: seq<Result>

    constructor (reports: seq<WorkerReport>)
      ensures this.reports == reports && claimVerification == None && unsupportedClaims == []
    {
      this.reports, claimVerification, unsupportedClaims := reports, None, [];
    }

    method ApplyClaimVerification(h: Helpers, report: VerificationReport)
      modifies this
      ensures |reports| == |old(reports)|
      ensures forall i :: 0 <= i < |reports| ==>
                reports[i] == AppliedReport(h, ByKey(h, report.results), old(reports)[i])
      ensures claimVerification == Some(report) && unsupportedClaims == report.unsupportedClaims
    {
      var byKey := map[];
      for k := 0 to |report.results|
        invariant byKey == ByKey(h, report.results[..k])
        invariant reports == old(reports)
      {
        assert report.results[..k + 1][..k] == report.results[..k];
        byKey := byKey[h.KeyOf(report.results[k]) := report.results[k]];
      }
      assert report.results[..|report.results|] == report.results;
      for i := 0 to |reports|
        invariant |reports| == |old(reports)|
        invariant forall k :: 0 <= k < |reports| ==>
                    reports[k] == if k < i then AppliedReport(h, byKey, old(reports)[k]) else old(reports)[k]
      {
        var w := ApplyToReport(h, byKey, reports[i]);
        reports := reports[i := w];
      }
      claimVerification := Some(report);
      unsupportedClaims := report.unsupportedClaims;
    }
  }
}
