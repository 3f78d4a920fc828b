/** `sort.Slice` with a string key, and what a sorted listing without repeats pins down. */
module Sorting {
  import opened Sequences
  import opened Text

  ghost predicate Ascending<T>(items: seq<T>, key: T -> string) {
    forall i, j :: 0 <= i < j < |items| ==> !StrLess(key(items[j]), key(items[i]))
  }

  ghost predicate StrictlyAscending<T>(items: seq<T>, key: T -> string) {
    forall i, j :: 0 <= i < j < |items| ==> StrLess(key(items[i]), key(items[j]))
  }

  /** Where `x` goes in a sorted list: after every item whose key is not larger. */
  method Position<T>(items: seq<T>, x: T, key: T -> string) returns (k: nat)
    requires Ascending(items, key)
    ensures k <= |items|
    ensures forall i :: 0 <= i < k ==> !StrLess(key(x), key(items[i]))
    ensures forall i :: k <= i < |items| ==> StrLess(key(x), key(items[i]))
  {
    k := |items|;
    while k > 0 && StrLess(key(x), key(items[k - 1]))
      invariant k <= |items|
      invariant forall i :: k <= i < |items| ==> StrLess(key(x), key(items[i]))
    {
      k := k - 1;
    }
    if k > 0 {
      forall i | 0 <= i < k
        ensures !StrLess(key(x), key(items[i]))
      {
        if i < k - 1 {
          NotAfterTransitive(key(items[i]), key(items[k - 1]), key(x));
        }
      }
    }
  }

  /** `!StrLess(b, a)` reads "a is not after b". */
  lemma NotAfterTransitive(a: string, b: string, c: string)
    requires !StrLess(b, a) && !StrLess(c, b)
    ensures !StrLess(c, a)
  {
    StrLessTotal(a, b);
    StrLessTotal(b, c);
    StrLessTotal(a, c);
    if StrLess(a, b) && StrLess(b, c) {
      StrLessTransitive(a, b, c);
    }
  }

  lemma InsertKeepsOrder<T>(items: seq<T>, x: T, k: nat, key: T -> string)
    requires Ascending(items, key) && k <= |items|
    requires forall i :: 0 <= i < k ==> !StrLess(key(x), key(items[i]))
    requires forall i :: k <= i < |items| ==> StrLess(key(x), key(items[i]))
    ensures Ascending(items[..k] + [x] + items[k..], key)
  {
    forall i | k <= i < |items|
      ensures !StrLess(key(items[i]), key(x))
    {
      StrLessTotal(key(x), key(items[i]));
    }
  }

  /** `sort.Slice(items, key(i) < key(j))`, which promises no order among equal keys. */
  method SortByKey<T>(items: seq<T>, key: T -> string) returns (sorted: seq<T>)
    ensures Ascending(sorted, key) && multiset(sorted) == multiset(items)
  {
    sorted := [];
    for n := 0 to |items|
      invariant Ascending(sorted, key) && multiset(sorted) == multiset(items[..n])
    {
      var k := Position(sorted, items[n], key);
      InsertKeepsOrder(sorted, items[n], k, key);
      assert sorted == sorted[..k] + sorted[k..];
      assert items[..n + 1] == items[..n] + [items[n]];
      sorted := sorted[..k] + [items[n]] + sorted[k..];
    }
    assert items[..|items|] == items;
  }

  ghost predicate KeysDiffer<T>(items: seq<T>, key: T -> string) {
    forall i, j :: 0 <= i < j < |items| ==> key(items[i]) != key(items[j])
  }

  lemma {:induction false} DistinctKeysCount<T>(items: seq<T>, key: T -> string)
    requires KeysDiffer(items, key)
    ensures forall x :: multiset(items)[x] <= 1
  {
    if items != [] {
      var n := |items| - 1;
      assert items == items[..n] + [items[n]];
      DistinctKeysCount(items[..n], key);
      assert items[n] !in multiset(items[..n]);
    }
  }

  lemma CountOfTwo<T>(items: seq<T>, i: nat, j: nat)
    requires i < j < |items| && items[i] == items[j]
    ensures multiset(items)[items[i]] >= 2
  {
    assert items == items[..j] + [items[j]] + items[j + 1..];
    assert items[i] == items[..j][i];
    assert items[i] in multiset(items[..j]);
  }

  /** Sorting a list whose keys are pairwise different leaves no ties. */
  lemma SortedDistinctIsStrict<T>(items: seq<T>, sorted: seq<T>, key: T -> string)
    requires KeysDiffer(items, key) && Ascending(sorted, key) && multiset(sorted) == multiset(items)
    ensures StrictlyAscending(sorted, key)
  {
    DistinctKeysCount(items, key);
    SameElements(sorted, items);
    forall i, j | 0 <= i < j < |sorted|
      ensures StrLess(key(sorted[i]), key(sorted[j]))
    {
      StrLessTotal(key(sorted[i]), key(sorted[j]));
      if key(sorted[i]) == key(sorted[j]) {
        assert sorted[i] in sorted && sorted[j] in sorted;
        var a :| 0 <= a < |items| && items[a] == sorted[i];
        var b :| 0 <= b < |items| && items[b] == sorted[j];
        CountOfTwo(sorted, i, j);
      }
    }
  }

  /** Two strictly ascending lists with the same elements are equal. */
  lemma {:induction false} StrictListingIsUnique<T>(a: seq<T>, b: seq<T>, key: T -> string)
    requires StrictlyAscending(a, key) && StrictlyAscending(b, key)
    requires forall x :: x in a <==> x in b
    ensures a == b
  {
    if a == [] {
      if b != [] {
        HasMember(b);
      }
    } else {
      assert a[0] in b;
      assert b[0] in a;
      StrictFirst(a, b[0], key);
      StrictFirst(b, a[0], key);
      StrLessTotal(key(a[0]), key(b[0]));
      assert a[0] == b[0];
      forall x
        ensures x in a[1..] <==> x in b[1..]
      {
        StrictTail(a, x, key);
        StrictTail(b, x, key);
      }
      StrictListingIsUnique(a[1..], b[1..], key);
      assert a == [a[0]] + a[1..];
      assert b == [b[0]] + b[1..];
    }
  }

  lemma StrictFirst<T>(a: seq<T>, x: T, key: T -> string)
    requires StrictlyAscending(a, key) && x in a
    ensures x == a[0] || StrLess(key(a[0]), key(x))
  {
    var i :| 0 <= i < |a| && a[i] == x;
  }

  lemma StrictTail<T>(a: seq<T>, x: T, key: T -> string)
    requires StrictlyAscending(a, key) && a != []
    ensures x in a[1..] <==> x in a && x != a[0]
  {
    if x in a[1..] {
      var i :| 0 <= i < |a[1..]| && a[1..][i] == x;
      assert a[i + 1] == x;
      StrLessTotal(key(a[0]), key(x));
    }
    if x in a && x != a[0] {
      var i :| 0 <= i < |a| && a[i] == x;
      assert a[1..][i - 1] == x;
    }
  }
}
