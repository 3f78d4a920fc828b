/** What the joined keys of the merges cost: six of the nine join the parts of a record with `|`, and an
    item whose key another one has already is passed over. */
module MergeKeys {
  import opened JoinedKeys
  import opened RelevantMerge
  import opened SemanticIndex
  import opened Sorting
  import opened Text

  // ---------------------------------------------------------------------------
  // The parts of the six joined keys.

  function CallParts(e: CallEdge): seq<string> { [e.sourceID, e.kind, e.targetID] }

  function InheritanceParts(e: InheritanceEdge): seq<string> { [e.sourceID, e.targetID] }

  function BuildParts(e: BuildOwnershipEdge): seq<string> { [e.sourceID, e.kind, e.targetID] }

  function OverlayParts(e: OverlayEdge): seq<string> { [e.domain, e.sourceID, e.kind, e.targetID] }

  function ReferenceParts(r: ReferenceRecord): seq<string> {
    [r.sourceID, r.sourceFile, r.kind, r.targetID, r.targetPath]
  }

  function OccurrenceParts(o: SymbolOccurrence): seq<string> { [o.symbolID, o.role, o.file] }

  /** The key is the joined list of parts. */
  ghost predicate IsJoined<T(!new)>(key: T -> string, parts: T -> seq<string>) {
    forall x :: parts(x) != [] && key(x) == Join(parts(x), "|")
  }

  /** The keys, by the fields of the records. */
  lemma KeysAreFields()
    ensures forall c: BuildContextRecord :: ContextKey(c) == c.id
    ensures forall s: SymbolRecord :: SymbolKey(s) == s.id
    ensures forall f: FileRecord :: FileKey(f) == f.path
    ensures forall e: CallEdge :: CallKey(e) == Join([e.sourceID, e.kind, e.targetID], "|")
    ensures forall e: InheritanceEdge :: InheritanceKey(e) == Join([e.sourceID, e.targetID], "|")
    ensures forall e: BuildOwnershipEdge :: BuildKey(e) == Join([e.sourceID, e.kind, e.targetID], "|")
    ensures forall e: OverlayEdge :: OverlayKey(e) == Join([e.domain, e.sourceID, e.kind, e.targetID], "|")
    ensures forall r: ReferenceRecord ::
              ReferenceKey(r) == Join([r.sourceID, r.sourceFile, r.kind, r.targetID, r.targetPath], "|")
    ensures forall o: SymbolOccurrence :: OccurrenceKey(o) == Join([o.symbolID, o.role, o.file], "|")
  {
    KeysAreJoined();
  }

  lemma KeysAreJoined()
    ensures IsJoined(CallKey, CallParts) && IsJoined(InheritanceKey, InheritanceParts)
    ensures IsJoined(BuildKey, BuildParts) && IsJoined(OverlayKey, OverlayParts)
    ensures IsJoined(ReferenceKey, ReferenceParts) && IsJoined(OccurrenceKey, OccurrenceParts)
  {
    forall e: CallEdge
      ensures CallKey(e) == Join(CallParts(e), "|")
    {
      JoinOfThree(e.sourceID, e.kind, e.targetID, "|");
    }
    forall e: InheritanceEdge
      ensures InheritanceKey(e) == Join(InheritanceParts(e), "|")
    {
      JoinOfTwo(e.sourceID, e.targetID, "|");
    }
    forall e: BuildOwnershipEdge
      ensures BuildKey(e) == Join(BuildParts(e), "|")
    {
      JoinOfThree(e.sourceID, e.kind, e.targetID, "|");
    }
    forall e: OverlayEdge
      ensures OverlayKey(e) == Join(OverlayParts(e), "|")
    {
      JoinOfFour(e.domain, e.sourceID, e.kind, e.targetID, "|");
    }
    forall r: ReferenceRecord
      ensures ReferenceKey(r) == Join(ReferenceParts(r), "|")
    {
      JoinOfFive(r.sourceID, r.sourceFile, r.kind, r.targetID, r.targetPath, "|");
    }
    forall o: SymbolOccurrence
      ensures OccurrenceKey(o) == Join(OccurrenceParts(o), "|")
    {
      JoinOfThree(o.symbolID, o.role, o.file, "|");
    }
  }

  // ---------------------------------------------------------------------------
  // Which items the merge passes over.

  /** Some item with the same parts is a candidate. */
  ghost predicate Stands<T>(all: seq<T>, parts: T -> seq<string>, x: T) {
    exists y :: y in all && parts(y) == parts(x)
  }

  ghost predicate AllStand<T(!new)>(base: seq<T>, index: seq<T>, key: T -> string, touched: T -> bool,
                                    parts: T -> seq<string>)
  {
    forall x :: Offered(base, index, touched, x) ==> Stands(Candidates(base, index, key, touched), parts, x)
  }

  /** Two offered items with different parts and one key. */
  ghost predicate Clash<T>(base: seq<T>, index: seq<T>, key: T -> string, touched: T -> bool, parts: T -> seq<string>,
                           x: T, y: T)
  {
    Offered(base, index, touched, x) && Offered(base, index, touched, y) && parts(x) != parts(y) && key(x) == key(y)
  }

  /** Two candidates with one key are one. */
  lemma CandidateIsOnly<T>(base: seq<T>, index: seq<T>, key: T -> string, touched: T -> bool, x: T, y: T)
    requires KeysDiffer(base, key) && key(x) == key(y)
    requires x in Candidates(base, index, key, touched) && y in Candidates(base, index, key, touched)
    ensures x == y
  {
    CandidatesMean(base, index, key, touched);
    var all := Candidates(base, index, key, touched);
    var i :| 0 <= i < |all| && all[i] == x;
    var j :| 0 <= j < |all| && all[j] == y;
  }

  /** Before the cut to the limit, every offered item stands, by its parts, exactly when no two offered
      items with different parts share a key. */
  lemma AllStandIff<T(!new)>(base: seq<T>, index: seq<T>, key: T -> string, touched: T -> bool, parts: T -> seq<string>)
    requires KeysDiffer(base, key) && IsJoined(key, parts)
    ensures AllStand(base, index, key, touched, parts) <==>
              !exists x, y :: Clash(base, index, key, touched, parts, x, y)
  {
    if x, y :| Clash(base, index, key, touched, parts, x, y) {
      ClashLoses(base, index, key, touched, parts, x, y);
    } else {
      forall x | Offered(base, index, touched, x)
        ensures Stands(Candidates(base, index, key, touched), parts, x)
      {
        OfferedIsKeyed(base, index, key, touched, x);
        var y :| y in Candidates(base, index, key, touched) && key(y) == key(x);
        CandidateOffered(base, index, key, touched, y);
        assert !Clash(base, index, key, touched, parts, x, y);
      }
    }
  }

  /** Of two clashing items one does not stand. */
  lemma ClashLoses<T(!new)>(base: seq<T>, index: seq<T>, key: T -> string, touched: T -> bool, parts: T -> seq<string>,
                            x: T, y: T)
    requires KeysDiffer(base, key) && IsJoined(key, parts) && Clash(base, index, key, touched, parts, x, y)
    ensures var all := Candidates(base, index, key, touched); !(Stands(all, parts, x) && Stands(all, parts, y))
  {
    var all := Candidates(base, index, key, touched);
    if Stands(all, parts, x) && Stands(all, parts, y) {
      var x' :| x' in all && parts(x') == parts(x);
      var y' :| y' in all && parts(y') == parts(y);
      CandidateIsOnly(base, index, key, touched, x', y');
      assert false;
    }
  }

  /** With parts free of `|` nothing clashes, so every offered item stands. */
  lemma BarFreeKeepsAll<T(!new)>(base: seq<T>, index: seq<T>, key: T -> string, touched: T -> bool,
                                 parts: T -> seq<string>)
    requires KeysDiffer(base, key) && IsJoined(key, parts)
    requires forall x :: Offered(base, index, touched, x) ==> SepFree(parts(x), "|")
    ensures AllStand(base, index, key, touched, parts)
  {
    if x, y :| Clash(base, index, key, touched, parts, x, y) {
      JoinIsFaithful(parts(x), parts(y), "|");
      assert false;
    }
    AllStandIff(base, index, key, touched, parts);
  }

  /** One of two clashing items is missing from the result, by its parts. */
  lemma LosesOne<T(!new)>(base: seq<T>, index: seq<T>, key: T -> string, touched: T -> bool, parts: T -> seq<string>,
                          items: seq<T>, limit: nat, x: T, y: T)
    requires KeysDiffer(base, key) && IsJoined(key, parts) && Clash(base, index, key, touched, parts, x, y)
    requires SmallestOf(items, Candidates(base, index, key, touched), key, limit)
    ensures !(x in items && y in items)
  {
    ClashLoses(base, index, key, touched, parts, x, y);
  }

  // ---------------------------------------------------------------------------
  // Two calls that share a key.

  const FIRST_CALL := CallEdge("a", "b|k|c", "k", [])
  const SECOND_CALL := CallEdge("a|k|b", "c", "k", [])

  lemma CallsShareKey()
    ensures CallKey(FIRST_CALL) == CallKey(SECOND_CALL) && CallParts(FIRST_CALL) != CallParts(SECOND_CALL)
  {
    assert CallKey(FIRST_CALL) == "a|k|b|k|c" == CallKey(SECOND_CALL);
    assert |CallParts(FIRST_CALL)[0]| == 1 && |CallParts(SECOND_CALL)[0]| == 5;
  }

  /** When an index holds both and both are touched, the merge loses one of them, whatever the limit. */
  lemma BarCallLoses(base: seq<CallEdge>, index: seq<CallEdge>, scope: Scope, items: seq<CallEdge>, limit: nat)
    requires KeysDiffer(base, CallKey) && FIRST_CALL in index && SECOND_CALL in index
    requires scope.TouchesCall(FIRST_CALL) && scope.TouchesCall(SECOND_CALL)
    requires IsSortedPrefix(items, Candidates(base, index, CallKey, scope.TouchesCall), CallKey, limit)
    ensures !(FIRST_CALL in items && SECOND_CALL in items)
  {
    CallsShareKey();
    KeysAreJoined();
    PrefixIsSmallest(items, base, index, CallKey, scope.TouchesCall, limit);
    LosesOne(base, index, CallKey, scope.TouchesCall, CallParts, items, limit, FIRST_CALL, SECOND_CALL);
  }
}
