/** What verifying a run and writing the verdicts back does: which verdict a claim receives, when it is
    its own, and when a rejected text leaves the facts. */
module ClaimApplyLaws {
  import opened ClaimApply
  import opened ClaimGrounding
  import opened ClaimModel
  import opened ClaimRun
  import opened ClaimVerifier
  import opened JoinedKeys
  import opened Options
  import opened Sequences
  import opened Text

  lemma {:induction false} FilterMembers<T>(items: seq<T>, p: T -> bool)
    ensures forall x :: x in Filter(items, p) <==> x in items && p(x)
  {
    if items != [] {
      var n := |items| - 1;
      FilterMembers(items[..n], p);
      assert items == items[..n] + [items[n]];
    }
  }

  // ---------------------------------------------------------------------------
  // Facts.

  /** The facts that remain are exactly the trimmed old facts that differ from the text of every
      withheld claim of the report. */
  lemma FactsAfterMeans(h: Helpers, byKey: map<string, Result>, w: WorkerReport, fact: string)
    ensures var writer := Writer(h, byKey, w.shardID);
      fact in AppliedReport(h, byKey, w).facts <==>
        (fact != "" && (exists earlier :: earlier in w.facts && Trim(earlier) == fact) &&
         (forall claim :: claim in w.claims && writer.Withheld(claim) ==> !h.SameText(fact, Trim(claim.claim))))
  {
    var writer := Writer(h, byKey, w.shardID);
    var texts := FlatMap(writer.WithheldText, w.claims);
    var left := FactsAfter(writer, w.facts, w.claims);
    UniquesHolds(left);
    FilterMembers(w.facts, Sweep(h, texts).Keeps);
    FlatMapMembers(writer.WithheldText, w.claims);
    forall f
      ensures Sweep(h, texts).Keeps(f) <==>
                forall claim :: claim in w.claims && writer.Withheld(claim) ==> !h.SameText(Trim(f), Trim(claim.claim))
    {
      if Sweep(h, texts).Keeps(f) {
        forall claim | claim in w.claims && writer.Withheld(claim)
          ensures !h.SameText(Trim(f), Trim(claim.claim))
        {
          assert claim.claim in writer.WithheldText(claim);
        }
      }
    }
    if fact in Uniques(left) {
      var i :| 0 <= i < |left| && Trim(left[i]) == fact;
      assert left[i] in left;
    }
    if earlier :| earlier in left && Trim(earlier) == fact {
      var i :| 0 <= i < |left| && left[i] == earlier;
    }
  }

  // ---------------------------------------------------------------------------
  // Which result a key finds.

  ghost predicate IsLastWith<T>(items: seq<T>, key: T -> string, k: string, i: nat) {
    i < |items| && key(items[i]) == k && forall j :: i < j < |items| ==> key(items[j]) != k
  }

  /** `x` is the last item with the key. */
  ghost predicate IsLast<T>(items: seq<T>, key: T -> string, k: string, x: T) {
    exists i: nat :: IsLastWith(items, key, k, i) && items[i] == x
  }

  lemma LastOfMore<T>(front: seq<T>, last: T, key: T -> string, k: string, x: T)
    ensures IsLast(front + [last], key, k, x) <==> if key(last) == k then x == last else IsLast(front, key, k, x)
  {
    var items := front + [last];
    assert items[|front|] == last;
    assert forall j :: 0 <= j < |front| ==> items[j] == front[j];
    if key(last) == k {
      assert IsLastWith(items, key, k, |front|);
    } else {
      forall i: nat | i < |front|
        ensures IsLastWith(items, key, k, i) <==> IsLastWith(front, key, k, i)
      {}
    }
  }

  /** A lookup finds the last item filed under the key, and nothing when there is none. */
  lemma {:induction false} LastByKeyMeans<T>(items: seq<T>, key: T -> string, k: string, x: T)
    ensures k in LastByKey(items, key) && LastByKey(items, key)[k] == x <==> IsLast(items, key, k, x)
  {
    if items != [] {
      var front, last := items[..|items| - 1], items[|items| - 1];
      assert items == front + [last];
      LastByKeyMeans(front, key, k, x);
      LastOfMore(front, last, key, k, x);
    }
  }

  lemma LastExists<T>(items: seq<T>, key: T -> string, i: nat) returns (x: T)
    requires i < |items|
    ensures IsLast(items, key, key(items[i]), x)
    decreases |items| - i
  {
    if j :| i < j < |items| && key(items[j]) == key(items[i]) {
      x := LastExists(items, key, j);
    } else {
      x := items[i];
      assert IsLastWith(items, key, key(items[i]), i);
    }
  }

  lemma LastIsUnique<T>(items: seq<T>, key: T -> string, k: string, x: T, y: T)
    requires IsLast(items, key, k, x) && IsLast(items, key, k, y)
    ensures x == y
  {
    LastByKeyMeans(items, key, k, x);
    LastByKeyMeans(items, key, k, y);
  }

  /** The key under which the write-back looks a claim up. */
  function LookupKey(h: Helpers, shardID: string, claim: AnalysisClaim): string {
    h.ResultKey(shardID, claim.id, claim.claim)
  }

  /** A claim receives the last result filed under its key. */
  lemma ReceivesLast(h: Helpers, results: seq<Result>, shardID: string, claim: AnalysisClaim, r: Result)
    ensures Writer(h, ByKey(h, results), shardID).ResultFor(claim) == Some(r) <==>
              IsLast(results, h.KeyOf, LookupKey(h, shardID, claim), r)
  {
    LastByKeyMeans(results, h.KeyOf, LookupKey(h, shardID, claim), r);
  }

  // ---------------------------------------------------------------------------
  // The key of a result and the key of its claim.

  /** A report with a blank shard id is checked against the zero shard. */
  lemma BlankShard(v: Verifier, w: WorkerReport)
    requires IsBlank(w.shardID)
    ensures v.ShardOf(w) == AnalysisShard("", [], [])
  {
    FirstByKeyMeans(v.run.shards, ShardKey, w.shardID);
    if w.shardID in FirstByKey(v.run.shards, ShardKey) {
      var i :| 0 <= i < |v.run.shards| && ShardKey(v.run.shards[i]) == w.shardID;
      TrimIdempotent(v.run.shards[i].id);
    }
  }

  lemma KeyLength(h: Helpers, shardID: string, claimID: string, text: string)
    ensures |h.ResultKey(shardID, claimID, text)| == |Trim(shardID)| + |Trim(claimID)| + |Trim(text)| + 2
  {}

  lemma SameKey(h: Helpers, a: string, b: string, claimID: string, text: string, text': string)
    requires Trim(a) == Trim(b) && Trim(text) == Trim(text')
    ensures h.ResultKey(a, claimID, text) == h.ResultKey(b, claimID, text')
  {}

  /** The result of a claim is filed under the key the write-back looks up exactly when the claim has an
      id: without one it is filed under a generated id, which is never blank. */
  lemma KeysMeet(v: Verifier, w: WorkerReport, claim: AnalysisClaim, r: Result)
    requires v.CheckOf(w, claim).Identifies(r)
    ensures v.h.KeyOf(r) == LookupKey(v.h, w.shardID, claim) <==> !IsBlank(claim.id)
  {
    StableIDShows(v.h, w.shardID, claim.claim);
    TrimIdempotent(claim.claim);
    if IsBlank(w.shardID) {
      BlankShard(v, w);
    }
    assert Trim(r.shardID) == Trim(w.shardID) && Trim(r.claim) == Trim(claim.claim);
    if IsBlank(claim.id) {
      KeyLength(v.h, r.shardID, r.claimID, r.claim);
      KeyLength(v.h, w.shardID, claim.id, claim.claim);
    } else {
      SameKey(v.h, r.shardID, w.shardID, claim.id, r.claim, claim.claim);
    }
  }

  // ---------------------------------------------------------------------------
  // When a claim receives its own verdict.

  /** The claim receives its own result exactly when it has an id and the last result filed under its key
      equals that result. */
  lemma OwnVerdictIff(v: Verifier, results: seq<Result>, i: nat, w: WorkerReport, claim: AnalysisClaim)
    requires i < |results| && v.CheckOf(w, claim).Identifies(results[i])
    ensures Writer(v.h, ByKey(v.h, results), w.shardID).ResultFor(claim) == Some(results[i]) <==>
              !IsBlank(claim.id) && IsLast(results, v.h.KeyOf, LookupKey(v.h, w.shardID, claim), results[i])
  {
    KeysMeet(v, w, claim, results[i]);
    ReceivesLast(v.h, results, w.shardID, claim, results[i]);
  }

  /** Every check of a run was made for the report and the claim it carries. */
  lemma CheckIsOwn(v: Verifier, c: ClaimCheck)
    requires c in v.AllChecks()
    ensures c == v.CheckOf(c.worker, c.claim) && c.worker in v.run.reports && !v.h.ExcludesClaims(c.worker)
    ensures c.claim in c.worker.claims
  {
    FlatMapMembers(v.ChecksOf, v.run.reports);
  }

  ghost predicate Receives(v: Verifier, results: seq<Result>, c: ClaimCheck, r: Result) {
    Writer(v.h, ByKey(v.h, results), c.worker.shardID).ResultFor(c.claim) == Some(r)
  }

  /** Results with equal keys are equal. */
  ghost predicate KeysDecide(h: Helpers, results: seq<Result>) {
    forall i, j :: 0 <= i < j < |results| && h.KeyOf(results[i]) == h.KeyOf(results[j]) ==> results[i] == results[j]
  }

  /** In a whole run: all claims receive their own results exactly when all have an id and results with
      equal keys are equal. */
  lemma RunWriteBackIff(v: Verifier, report: VerificationReport)
    requires IsReport(v, report)
    ensures var checks := v.AllChecks();
            (forall i :: 0 <= i < |checks| ==> Receives(v, report.results, checks[i], report.results[i])) <==>
              (forall i :: 0 <= i < |checks| ==> !IsBlank(checks[i].claim.id)) && KeysDecide(v.h, report.results)
  {
    var checks, results := v.AllChecks(), report.results;
    forall i | 0 <= i < |checks|
      ensures Receives(v, results, checks[i], results[i]) <==>
                !IsBlank(checks[i].claim.id) && IsLast(results, v.h.KeyOf, v.h.KeyOf(results[i]), results[i])
    {
      var c := checks[i];
      CheckIsOwn(v, c);
      OwnVerdictIff(v, results, i, c.worker, c.claim);
      KeysMeet(v, c.worker, c.claim, results[i]);
    }
    LastsDecide(v.h, results);
  }

  lemma LastsDecide(h: Helpers, results: seq<Result>)
    ensures (forall i :: 0 <= i < |results| ==> IsLast(results, h.KeyOf, h.KeyOf(results[i]), results[i])) <==>
              KeysDecide(h, results)
  {
    if forall i :: 0 <= i < |results| ==> IsLast(results, h.KeyOf, h.KeyOf(results[i]), results[i]) {
      forall i, j | 0 <= i < j < |results| && h.KeyOf(results[i]) == h.KeyOf(results[j])
        ensures results[i] == results[j]
      {
        LastIsUnique(results, h.KeyOf, h.KeyOf(results[i]), results[i], results[j]);
      }
    }
    if KeysDecide(h, results) {
      forall i | 0 <= i < |results|
        ensures IsLast(results, h.KeyOf, h.KeyOf(results[i]), results[i])
      {
        var x := LastExists(results, h.KeyOf, i);
        var k: nat :| IsLastWith(results, h.KeyOf, h.KeyOf(results[i]), k) && results[k] == x;
        assert k == i || i < k;
      }
    }
  }

  // ---------------------------------------------------------------------------
  // What is written.

  /** The confidence a result hands to its claim; an inference is never handed on as high. */
  function HandedOn(h: Helpers, r: Result): string {
    if r.status == Inference && h.SameText(r.finalConfidence, "high") then "medium" else r.finalConfidence
  }

  /** The exact rule, for any results: a claim takes confidence and packets from the last result with its
      key, its hint names the status exactly when that result is a rejection, nothing else of it changes;
      and without such a result nothing changes at all. */
  lemma WriteBackRule(h: Helpers, results: seq<Result>, shardID: string, claim: AnalysisClaim)
    ensures var writer := Writer(h, ByKey(h, results), shardID);
      var key := LookupKey(h, shardID, claim);
      && (forall r :: IsLast(results, h.KeyOf, key, r) ==>
            writer.Written(claim) ==
              claim.(confidence := HandedOn(h, r), evidencePacketIDs := Uniques(r.supportingPacketIDs),
                                            verificationHint := if IsRejected(r) then writer.NewHint(claim, r.status)
                                                                else claim.verificationHint))
      && ((forall r :: !IsLast(results, h.KeyOf, key, r)) ==> writer.Written(claim) == claim)
  {
    forall r
      ensures Writer(h, ByKey(h, results), shardID).ResultFor(claim) == Some(r) <==>
                IsLast(results, h.KeyOf, LookupKey(h, shardID, claim), r)
    {
      ReceivesLast(h, results, shardID, claim, r);
    }
  }

  /** After the write-back a claim is high exactly when the last result under its key hands on high, or
      there is no such result and the claim was high before. */
  lemma HighAfterIff(h: Helpers, results: seq<Result>, shardID: string, claim: AnalysisClaim)
    ensures var key := LookupKey(h, shardID, claim);
            Writer(h, ByKey(h, results), shardID).Written(claim).confidence == "high" <==>
              (exists r :: IsLast(results, h.KeyOf, key, r) && HandedOn(h, r) == "high") ||
              (claim.confidence == "high" && forall r :: !IsLast(results, h.KeyOf, key, r))
  {
    WriteBackRule(h, results, shardID, claim);
    var found := Writer(h, ByKey(h, results), shardID).ResultFor(claim);
    if found.Some? {
      ReceivesLast(h, results, shardID, claim, found.value);
    }
    if r :| IsLast(results, h.KeyOf, LookupKey(h, shardID, claim), r) {
      ReceivesLast(h, results, shardID, claim, r);
    }
  }

  ghost predicate LastRejects(h: Helpers, results: seq<Result>, key: string) {
    exists r :: IsLast(results, h.KeyOf, key, r) && IsRejected(r)
  }

  lemma WithheldIff(h: Helpers, results: seq<Result>, shardID: string, claim: AnalysisClaim)
    ensures Writer(h, ByKey(h, results), shardID).Withheld(claim) <==>
              LastRejects(h, results, LookupKey(h, shardID, claim))
  {
    var found := Writer(h, ByKey(h, results), shardID).ResultFor(claim);
    if found.Some? {
      ReceivesLast(h, results, shardID, claim, found.value);
    }
    if r :| IsLast(results, h.KeyOf, LookupKey(h, shardID, claim), r) && IsRejected(r) {
      ReceivesLast(h, results, shardID, claim, r);
    }
  }

  /** After the write-back no fact equals the text. */
  ghost predicate TextGone(h: Helpers, results: seq<Result>, w: WorkerReport, text: string) {
    forall fact :: fact in AppliedReport(h, ByKey(h, results), w).facts ==> !h.SameText(fact, Trim(text))
  }

  /** Some claim of the report has the text, up to case and white space around it, and the last result
      filed under that claim's key rejects it. */
  ghost predicate TextRejected(h: Helpers, results: seq<Result>, w: WorkerReport, text: string) {
    exists claim :: claim in w.claims && h.SameText(Trim(claim.claim), Trim(text)) &&
      LastRejects(h, results, LookupKey(h, w.shardID, claim))
  }

  /** A text is gone from the facts exactly when no fact had it or a claim with it is rejected by the last
      result under its key. */
  lemma TextGoneIff(h: Helpers, results: seq<Result>, w: WorkerReport, text: string)
    ensures TextGone(h, results, w, text) <==>
              (TextRejected(h, results, w, text) ||
               forall f :: f in w.facts && !IsBlank(f) ==> !h.SameText(Trim(f), Trim(text)))
  {
    var writer := Writer(h, ByKey(h, results), w.shardID);
    forall claim
      ensures writer.Withheld(claim) <==> LastRejects(h, results, LookupKey(h, w.shardID, claim))
    {
      WithheldIff(h, results, w.shardID, claim);
    }
    forall fact | h.SameText(fact, Trim(text))
      ensures fact in AppliedReport(h, ByKey(h, results), w).facts <==>
                (!TextRejected(h, results, w, text) && fact != "" && exists f :: f in w.facts && Trim(f) == fact)
    {
      FactsAfterMeans(h, ByKey(h, results), w, fact);
      SameTextCarries(h, fact, Trim(text));
    }
  }

  lemma SameTextCarries(h: Helpers, a: string, b: string)
    requires h.SameText(a, b)
    ensures forall s :: h.SameText(a, s) <==> h.SameText(s, b)
  {}

  // ---------------------------------------------------------------------------
  // Notes and hints.

  /** The word of a status that rejects. */
  predicate RejectsAs(status: Status, word: string) {
    || (status == Downgraded && word == "downgraded")
    || (status == Unsupported && word == "unsupported")
    || (status == Blocking && word == "blocking")
  }

  /** The last result under the claim's key rejects it, with this word. */
  ghost predicate RejectedAs(h: Helpers, results: seq<Result>, shardID: string, claim: AnalysisClaim, word: string) {
    exists r :: IsLast(results, h.KeyOf, LookupKey(h, shardID, claim), r) && RejectsAs(r.status, word)
  }

  /** The note that says so. */
  predicate IsNote(note: string, claim: AnalysisClaim, word: string) {
    note == "Claim " + (if Trim(claim.id) != "" then claim.id else claim.claim) +
            " withheld from verified facts by deterministic verifier: " + word + "."
  }

  lemma NoteIsTight(note: string, claim: AnalysisClaim, word: string)
    requires IsNote(note, claim, word)
    ensures Trim(note) == note != ""
  {
    assert note[0] == 'C' && note[|note| - 1] == '.';
    TrimOfTight(note);
  }

  lemma WithheldNoteMeans(h: Helpers, results: seq<Result>, shardID: string, claim: AnalysisClaim, note: string)
    ensures note in Writer(h, ByKey(h, results), shardID).WithheldNote(claim) <==>
              exists word :: RejectedAs(h, results, shardID, claim, word) && IsNote(note, claim, word)
  {
    var found := Writer(h, ByKey(h, results), shardID).ResultFor(claim);
    forall r
      ensures found == Some(r) <==> IsLast(results, h.KeyOf, LookupKey(h, shardID, claim), r)
    {
      ReceivesLast(h, results, shardID, claim, r);
    }
    if found.Some? && IsRejected(found.value) {
      var word := StatusWord(found.value.status);
      assert RejectsAs(found.value.status, word) && RejectedAs(h, results, shardID, claim, word);
    }
  }

  /** The unknowns after the write-back: the trimmed old ones, and for every claim of the report that the
      last result under its key rejects, a note that names the claim and the status. */
  lemma UnknownsMean(h: Helpers, results: seq<Result>, w: WorkerReport, unknown: string)
    ensures unknown in AppliedReport(h, ByKey(h, results), w).unknowns <==>
              || (unknown != "" && exists earlier :: earlier in w.unknowns && Trim(earlier) == unknown)
              || (exists claim, word :: claim in w.claims && RejectedAs(h, results, w.shardID, claim, word) &&
                                        IsNote(unknown, claim, word))
  {
    var writer := Writer(h, ByKey(h, results), w.shardID);
    var notes := FlatMap(writer.WithheldNote, w.claims);
    UniquesHolds(w.unknowns + notes);
    TrimsToMember(w.unknowns + notes, unknown);
    FlatMapMembers(writer.WithheldNote, w.claims);
    if item :| item in notes && Trim(item) == unknown {
      var claim :| claim in w.claims && item in writer.WithheldNote(claim);
      WithheldNoteMeans(h, results, w.shardID, claim, item);
      var word :| RejectedAs(h, results, w.shardID, claim, word) && IsNote(item, claim, word);
      NoteIsTight(item, claim, word);
    }
    if claim, word :| claim in w.claims && RejectedAs(h, results, w.shardID, claim, word) &&
                      IsNote(unknown, claim, word) {
      WithheldNoteMeans(h, results, w.shardID, claim, unknown);
      NoteIsTight(unknown, claim, word);
      assert unknown in notes;
    }
  }

  /** The hint of a rejected claim names the status behind what it said before. */
  lemma HintMeans(h: Helpers, results: seq<Result>, shardID: string, claim: AnalysisClaim, word: string)
    requires RejectedAs(h, results, shardID, claim, word)
    ensures Writer(h, ByKey(h, results), shardID).Written(claim).verificationHint ==
              if Trim(claim.verificationHint) != "" then
                Trim(claim.verificationHint + " Deterministic verifier status: " + word + ".")
              else "Deterministic verifier status: " + word + "."
  {
    var r :| IsLast(results, h.KeyOf, LookupKey(h, shardID, claim), r) && RejectsAs(r.status, word);
    ReceivesLast(h, results, shardID, claim, r);
  }

  // ---------------------------------------------------------------------------
  // The key.

  lemma LowerOfConcat(h: Helpers, a: string, b: string)
    ensures h.Low(a + b) == h.Low(a) + h.Low(b)
  {}

  lemma KeyIsJoined(h: Helpers, shardID: string, claimID: string, text: string)
    ensures h.ResultKey(shardID, claimID, text) ==
              Join([h.Low(Trim(shardID)), h.Low(Trim(claimID)), h.Low(Trim(text))], "|")
  {
    var a, b, c := Trim(shardID), Trim(claimID), Trim(text);
    LowerOfConcat(h, a + "|" + b + "|", c);
    LowerOfConcat(h, a + "|" + b, "|");
    LowerOfConcat(h, a + "|", b);
    LowerOfConcat(h, a, "|");
    JoinOfThree(h.Low(a), h.Low(b), h.Low(c), "|");
    assert h.Low("|") == "|";
  }

  /** Results of claims whose shard id, id and text hold no bar share a key exactly when these three agree,
      case and white space around them aside. */
  lemma SameKeyIff(h: Helpers, a: seq<string>, b: seq<string>)
    requires |a| == |b| == 3
    requires forall i :: 0 <= i < 3 ==> !Contains(h.Low(Trim(a[i])), "|") && !Contains(h.Low(Trim(b[i])), "|")
    ensures h.ResultKey(a[0], a[1], a[2]) == h.ResultKey(b[0], b[1], b[2]) <==>
              forall i :: 0 <= i < 3 ==> h.Low(Trim(a[i])) == h.Low(Trim(b[i]))
  {
    var x := [h.Low(Trim(a[0])), h.Low(Trim(a[1])), h.Low(Trim(a[2]))];
    var y := [h.Low(Trim(b[0])), h.Low(Trim(b[1])), h.Low(Trim(b[2]))];
    KeyIsJoined(h, a[0], a[1], a[2]);
    KeyIsJoined(h, b[0], b[1], b[2]);
    if h.ResultKey(a[0], a[1], a[2]) == h.ResultKey(b[0], b[1], b[2]) {
      JoinIsFaithful(x, y, "|");
      assert x[0] == y[0] && x[1] == y[1] && x[2] == y[2];
    }
  }

  // ---------------------------------------------------------------------------
  // The main guarantee.

  /** The claim got its own verdict: its confidence is the final one, it is high only if the claim is
      verified, and a rejected claim's text is no fact of the report any more. */
  ghost predicate Settled(v: Verifier, results: seq<Result>, w: WorkerReport, claim: AnalysisClaim, r: Result) {
    && r in results && v.CheckOf(w, claim).IsOutcome(r)
    && Writer(v.h, ByKey(v.h, results), w.shardID).Written(claim).confidence == r.finalConfidence
    && (r.finalConfidence == "high" ==> r.status == Verified)
    && (IsRejected(r) ==> TextGone(v.h, results, w, claim.claim))
  }

  lemma SameTextItself(h: Helpers, s: string)
    ensures h.SameText(s, s)
  {}

  /** A claim that receives its own result is settled. */
  lemma OwnVerdictSettles(v: Verifier, results: seq<Result>, i: nat, w: WorkerReport, claim: AnalysisClaim)
    requires i < |results| && v.CheckOf(w, claim).IsOutcome(results[i]) && claim in w.claims
    requires Writer(v.h, ByKey(v.h, results), w.shardID).ResultFor(claim) == Some(results[i])
    ensures Settled(v, results, w, claim, results[i])
  {
    var r := results[i];
    ConfidenceNeverRises(v.CheckOf(w, claim), r);
    ReceivesLast(v.h, results, w.shardID, claim, r);
    NeverHigh(v.h, r.finalConfidence);
    if IsRejected(r) {
      SameTextItself(v.h, Trim(claim.claim));
      assert LastRejects(v.h, results, LookupKey(v.h, w.shardID, claim));
      TextGoneIff(v.h, results, w, claim.claim);
    }
  }

  lemma NeverHigh(h: Helpers, confidence: string)
    requires confidence in ["medium", "low"] || confidence == "high"
    ensures confidence != "high" ==> !h.SameText(confidence, "high")
  {
    assert |"high"| == 4 && |"medium"| == 6 && |"low"| == 3;
  }

  ghost predicate DistinctKeys(h: Helpers, results: seq<Result>) {
    forall i, j :: 0 <= i < j < |results| ==> h.KeyOf(results[i]) != h.KeyOf(results[j])
  }

  lemma ClaimHasCheck(v: Verifier, w: WorkerReport, claim: AnalysisClaim) returns (i: nat)
    requires w in v.run.reports && !v.h.ExcludesClaims(w) && claim in w.claims
    ensures i < |v.AllChecks()| && v.AllChecks()[i] == v.CheckOf(w, claim)
  {
    var checks := v.AllChecks();
    FlatMapMembers(v.ChecksOf, v.run.reports);
    var j :| 0 <= j < |w.claims| && w.claims[j] == claim;
    assert v.ChecksOf(w)[j] == v.CheckOf(w, claim);
    assert v.CheckOf(w, claim) in checks;
    i :| 0 <= i < |checks| && checks[i] == v.CheckOf(w, claim);
  }

  /** Verify, then apply: given distinct result keys, every claim with an id in a usable report is
      settled. */
  lemma VerifyThenApply(v: Verifier, report: VerificationReport, w: WorkerReport, claim: AnalysisClaim)
    returns (r: Result)
    requires IsReport(v, report) && DistinctKeys(v.h, report.results)
    requires w in v.run.reports && !v.h.ExcludesClaims(w) && claim in w.claims && !IsBlank(claim.id)
    ensures Settled(v, report.results, w, claim, r)
  {
    var i := ClaimHasCheck(v, w, claim);
    r := report.results[i];
    KeysMeet(v, w, claim, r);
    LastsDecide(v.h, report.results);
    OwnVerdictIff(v, report.results, i, w, claim);
    OwnVerdictSettles(v, report.results, i, w, claim);
  }
}
