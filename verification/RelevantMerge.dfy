/** The `mergeRelevant*` family: append what the node or file set touches, sort by key, keep the
    smallest. The nine functions of the source are one loop over different keys and touch tests. */
module RelevantMerge {
  import opened SemanticIndex
  import opened Sequences
  import opened Sorting
  import opened Text

  ghost predicate HasKey<T>(items: seq<T>, key: T -> string, k: string) {
    exists x :: x in items && key(x) == k
  }

  /** What the loop holds before it sorts: the base, then the first touched item of every new key. */
  ghost function Candidates<T>(base: seq<T>, index: seq<T>, key: T -> string, touched: T -> bool): seq<T> {
    if index == [] then base
    else
      var before := Candidates(base, index[..|index| - 1], key, touched);
      var last := index[|index| - 1];
      if !HasKey(before, key, key(last)) && touched(last) then before + [last] else before
  }

  /** `items` are the `limit` smallest of `all`, in order. */
  ghost predicate SmallestOf<T>(items: seq<T>, all: seq<T>, key: T -> string, limit: nat) {
    && StrictlyAscending(items, key)
    && |items| == (if |all| <= limit then |all| else limit)
    && (forall x :: x in items ==> x in all)
    && forall x, y :: x in items && y in all && y !in items ==> StrLess(key(x), key(y))
  }

  /** `items` are the first `limit` of some arrangement of `all` by ascending key; items with equal keys
      may stand in either order. */
  ghost predicate IsSortedPrefix<T(!new)>(items: seq<T>, all: seq<T>, key: T -> string, limit: nat) {
    exists sorted :: Ascending(sorted, key) && multiset(sorted) == multiset(all) && items == Take(sorted, limit)
  }

  method MergeRelevant<T(==, !new)>(base: seq<T>, index: seq<T>, key: T -> string, touched: T -> bool, limit: nat)
    returns (items: seq<T>)
    ensures IsSortedPrefix(items, Candidates(base, index, key, touched), key, limit)
  {
    items := base;
    var seen := {};
    for i := 0 to |base|
      invariant forall k :: k in seen <==> exists j :: 0 <= j < i && key(base[j]) == k
    {
      seen := seen + {key(base[i])};
    }
    for i := 0 to |index|
      invariant items == Candidates(base, index[..i], key, touched)
      invariant forall k :: k in seen <==> HasKey(items, key, k)
    {
      assert index[..i + 1][..i] == index[..i];
      if key(index[i]) in seen {
        continue;
      }
      if touched(index[i]) {
        HasKeyAfterAppend(items, index[i], key);
        items := items + [index[i]];
        seen := seen + {key(index[i])};
      }
    }
    assert index[..|index|] == index;
    var sorted := SortByKey(items, key);
    items := if |sorted| > limit then sorted[..limit] else sorted;
  }

  /** When no key of the base is repeated there are no ties: the result is the smallest items. */
  lemma PrefixIsSmallest<T(!new)>(items: seq<T>, base: seq<T>, index: seq<T>, key: T -> string, touched: T -> bool,
                                  limit: nat)
    requires KeysDiffer(base, key)
    requires IsSortedPrefix(items, Candidates(base, index, key, touched), key, limit)
    ensures SmallestOf(items, Candidates(base, index, key, touched), key, limit)
  {
    var all := Candidates(base, index, key, touched);
    var sorted :| Ascending(sorted, key) && multiset(sorted) == multiset(all) && items == Take(sorted, limit);
    CandidatesMean(base, index, key, touched);
    SortedDistinctIsStrict(all, sorted, key);
    SmallestPrefix(all, sorted, key, limit);
  }

  lemma HasKeyAfterAppend<T>(items: seq<T>, x: T, key: T -> string)
    ensures forall k :: HasKey(items + [x], key, k) <==> HasKey(items, key, k) || k == key(x)
  {
    forall k
      ensures HasKey(items + [x], key, k) <==> HasKey(items, key, k) || k == key(x)
    {
      if HasKey(items, key, k) {
        var y :| y in items && key(y) == k;
        assert y in items + [x];
      }
      assert x in items + [x];
    }
  }

  lemma SmallestPrefix<T>(items: seq<T>, sorted: seq<T>, key: T -> string, limit: nat)
    requires StrictlyAscending(sorted, key) && multiset(sorted) == multiset(items)
    ensures SmallestOf(Take(sorted, limit), items, key, limit)
  {
    SameElements(sorted, items);
    if |sorted| > limit {
      forall x, y | x in sorted[..limit] && y in items && y !in sorted[..limit]
        ensures StrLess(key(x), key(y))
      {
        assert forall m :: 0 <= m < limit ==> sorted[m] in sorted[..limit];
        var i :| 0 <= i < limit && sorted[i] == x;
        assert y in sorted;
        var j :| 0 <= j < |sorted| && sorted[j] == y;
      }
    }
  }

  // ---------------------------------------------------------------------------
  // What is merged.

  ghost predicate InUnion<T>(base: seq<T>, index: seq<T>, key: T -> string, touched: T -> bool, k: string) {
    HasKey(base, key, k) || exists x :: x in index && touched(x) && key(x) == k
  }

  /** What a merge is asked to combine: the base and the touched items of the index. */
  ghost predicate Offered<T>(base: seq<T>, index: seq<T>, touched: T -> bool, x: T) {
    x in base || (x in index && touched(x))
  }

  /** Every candidate is offered, whether or not keys of the base repeat. */
  lemma {:induction false} CandidateOffered<T>(base: seq<T>, index: seq<T>, key: T -> string, touched: T -> bool, y: T)
    requires y in Candidates(base, index, key, touched)
    ensures Offered(base, index, touched, y)
  {
    if index != [] {
      var n := |index| - 1;
      if y in Candidates(base, index[..n], key, touched) {
        CandidateOffered(base, index[..n], key, touched, y);
      }
    }
  }

  /** The key of every offered item is the key of a candidate. */
  lemma {:induction false} OfferedIsKeyed<T>(base: seq<T>, index: seq<T>, key: T -> string, touched: T -> bool, x: T)
    requires Offered(base, index, touched, x)
    ensures HasKey(Candidates(base, index, key, touched), key, key(x))
  {
    if index != [] {
      var n := |index| - 1;
      assert index == index[..n] + [index[n]];
      HasKeyAfterAppend(Candidates(base, index[..n], key, touched), index[n], key);
      if Offered(base, index[..n], touched, x) {
        OfferedIsKeyed(base, index[..n], key, touched, x);
      }
    }
  }

  /** The item an index position contributes: touched, its key not in the base and not earlier. */
  ghost predicate Contributes<T>(base: seq<T>, index: seq<T>, key: T -> string, touched: T -> bool, i: nat) {
    && i < |index| && touched(index[i]) && !HasKey(base, key, key(index[i]))
    && forall j :: 0 <= j < i && key(index[j]) == key(index[i]) ==> !touched(index[j])
  }

  /** The candidates carry exactly the keys of the base and of the touched items, each once; a key of
      the base keeps the item of the base, any other key gets its first touched item. */
  lemma {:induction false} CandidatesMean<T>(base: seq<T>, index: seq<T>, key: T -> string, touched: T -> bool)
    requires KeysDiffer(base, key)
    ensures KeysDiffer(Candidates(base, index, key, touched), key)
    ensures forall k :: HasKey(Candidates(base, index, key, touched), key, k) <==> InUnion(base, index, key, touched, k)
    ensures forall x :: x in Candidates(base, index, key, touched) <==>
              (x in base || exists i: nat :: Contributes(base, index, key, touched, i) && index[i] == x)
  {
    if index != [] {
      var n := |index| - 1;
      var front, last := index[..n], index[n];
      var before := Candidates(base, front, key, touched);
      CandidatesMean(base, front, key, touched);
      HasKeyAfterAppend(before, last, key);
      forall k
        ensures InUnion(base, index, key, touched, k) <==>
                  InUnion(base, front, key, touched, k) || (touched(last) && key(last) == k)
      {
        assert index == front + [last];
      }
      forall i: nat | i < n
        ensures Contributes(base, index, key, touched, i) <==> Contributes(base, front, key, touched, i)
      {}
      assert Contributes(base, index, key, touched, n) <==> touched(last) && !HasKey(before, key, key(last)) by {
        if touched(last) && !HasKey(before, key, key(last)) {
          assert !InUnion(base, front, key, touched, key(last));
          forall j | 0 <= j < n && key(index[j]) == key(last)
            ensures !touched(index[j])
          {
            assert front[j] in front;
          }
        }
      }
    }
  }

  /** The result holds the `limit` smallest keys of the union: it has `limit` entries or every key,
      and a key it misses comes after all it has. */
  lemma MergeMeans<T>(items: seq<T>, base: seq<T>, index: seq<T>, key: T -> string, touched: T -> bool, limit: nat)
    requires KeysDiffer(base, key)
    requires SmallestOf(items, Candidates(base, index, key, touched), key, limit)
    ensures forall x :: x in items ==> InUnion(base, index, key, touched, key(x))
    ensures |items| <= limit
    ensures forall k :: InUnion(base, index, key, touched, k) && !HasKey(items, key, k) ==>
              |items| == limit && forall x :: x in items ==> StrLess(key(x), k)
  {
    var all := Candidates(base, index, key, touched);
    CandidatesMean(base, index, key, touched);
    forall x | x in items
      ensures InUnion(base, index, key, touched, key(x))
    {
      assert HasKey(all, key, key(x));
    }
    forall k | InUnion(base, index, key, touched, k) && !HasKey(items, key, k)
      ensures |items| == limit && forall x :: x in items ==> StrLess(key(x), k)
    {
      assert HasKey(all, key, k);
      var y :| y in all && key(y) == k;
      assert y !in items;
      if |all| <= limit {
        SubsetOfSameSize(items, all, y, key);
      }
    }
  }

  /** A strictly ascending list inside a list of the same length misses nothing. */
  lemma SubsetOfSameSize<T>(items: seq<T>, all: seq<T>, y: T, key: T -> string)
    requires StrictlyAscending(items, key) && |items| == |all|
    requires (forall x :: x in items ==> x in all) && y in all
    ensures y in items
  {
    var inside, outside := set x | x in items, set x | x in all;
    StrictListIsDistinct(items, key);
    DistinctSize(items);
    SizeAtMost(all);
    if y !in items {
      assert inside <= outside - {y};
      SubsetSize(inside, outside - {y});
    }
  }

  /** The `limit` smallest are one definite list, whatever order an unstable sort visits ties in. */
  lemma SmallestIsUnique<T>(a: seq<T>, b: seq<T>, all: seq<T>, key: T -> string, limit: nat)
    requires SmallestOf(a, all, key, limit) && SmallestOf(b, all, key, limit)
    ensures a == b
  {
    forall x
      ensures x in a <==> x in b
    {
      if x in a {
        NoneMissing(a, b, all, x, key, limit);
      }
      if x in b {
        NoneMissing(b, a, all, x, key, limit);
      }
    }
    StrictListingIsUnique(a, b, key);
  }

  lemma NoneMissing<T>(a: seq<T>, b: seq<T>, all: seq<T>, x: T, key: T -> string, limit: nat)
    requires SmallestOf(a, all, key, limit) && SmallestOf(b, all, key, limit) && x in a
    ensures x in b
  {
    if x !in b {
      if y :| y in b && y !in a {
        StrLessTotal(key(x), key(y));
      } else {
        SubsetOfSameSize(b, a, x, key);
      }
    }
  }

  lemma SubsetSize<T>(a: set<T>, b: set<T>)
    requires a <= b
    ensures |a| <= |b|
  {
    if a != {} {
      var x :| x in a;
      SubsetSize(a - {x}, b - {x});
    }
  }

  lemma StrictListIsDistinct<T>(items: seq<T>, key: T -> string)
    requires StrictlyAscending(items, key)
    ensures forall i, j :: 0 <= i < j < |items| ==> items[i] != items[j]
  {
    forall i, j | 0 <= i < j < |items|
      ensures items[i] != items[j]
    {
      StrLessTotal(key(items[i]), key(items[j]));
    }
  }

  lemma DistinctSize<T>(items: seq<T>)
    requires forall i, j :: 0 <= i < j < |items| ==> items[i] != items[j]
    ensures |set x | x in items| == |items|
  {
    if items != [] {
      var n := |items| - 1;
      DistinctSize(items[..n]);
      assert (set x | x in items) == (set x | x in items[..n]) + {items[n]};
    }
  }

  lemma SizeAtMost<T>(items: seq<T>)
    ensures |set x | x in items| <= |items|
  {
    if items != [] {
      var n := |items| - 1;
      SizeAtMost(items[..n]);
      assert (set x | x in items) == (set x | x in items[..n]) + {items[n]};
    }
  }

  // ---------------------------------------------------------------------------
  // The nine keys and touch tests.

  function ContextKey(c: BuildContextRecord): string { c.id }

  function SymbolKey(s: SymbolRecord): string { s.id }

  function FileKey(f: FileRecord): string { f.path }

  function CallKey(e: CallEdge): string { e.sourceID + "|" + e.kind + "|" + e.targetID }

  function InheritanceKey(e: InheritanceEdge): string { e.sourceID + "|" + e.targetID }

  function BuildKey(e: BuildOwnershipEdge): string { e.sourceID + "|" + e.kind + "|" + e.targetID }

  function OverlayKey(e: OverlayEdge): string { e.domain + "|" + e.sourceID + "|" + e.kind + "|" + e.targetID }

  function ReferenceKey(r: ReferenceRecord): string {
    r.sourceID + "|" + r.sourceFile + "|" + r.kind + "|" + r.targetID + "|" + r.targetPath
  }

  function OccurrenceKey(o: SymbolOccurrence): string { o.symbolID + "|" + o.role + "|" + o.file }

  /** The node set and file set the merges test against. */
  datatype Scope = Scope(nodeSet: set<string>, fileSet: set<string>) {

    /** `semanticV2EdgeTouchesNodeSet`. */
    predicate TouchesEdge(sourceID: string, targetID: string, evidence: seq<string>) {
      sourceID in nodeSet || targetID in nodeSet || EvidenceTouches(evidence, fileSet)
    }

    predicate TouchesContext(c: BuildContextRecord) {
      c.id in nodeSet || exists path | path in c.files :: path in fileSet
    }

    predicate TouchesSymbol(s: SymbolRecord) { s.id in nodeSet }

    predicate TouchesFile(f: FileRecord) {
      f.path in fileSet || exists ctxID | ctxID in f.buildContextIDs :: ctxID in nodeSet
    }

    predicate TouchesCall(e: CallEdge) { TouchesEdge(e.sourceID, e.targetID, e.evidence) }

    predicate TouchesInheritance(e: InheritanceEdge) { TouchesEdge(e.sourceID, e.targetID, e.evidence) }

    predicate TouchesBuild(e: BuildOwnershipEdge) { TouchesEdge(e.sourceID, e.targetID, e.evidence) }

    predicate TouchesOverlay(e: OverlayEdge) { TouchesEdge(e.sourceID, e.targetID, e.evidence) }

    predicate TouchesReference(r: ReferenceRecord) {
      r.sourceID in nodeSet || r.targetID in nodeSet || ReferenceTouches(r, fileSet)
    }

    predicate TouchesOccurrence(o: SymbolOccurrence) { o.symbolID in nodeSet || o.file in fileSet }
  }
}
