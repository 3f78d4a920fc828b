/** Facts about sequences that several modules need. */
module Sequences {

  /** The first `n` items, or all of them when there are fewer. */
  function Take<T>(s: seq<T>, n: int): seq<T> {
    if n <= 0 then [] else if |s| <= n then s else s[..n]
  }

  lemma HasMember<T>(s: seq<T>)
    requires s != []
    ensures exists x :: x in s
  {
    assert s[0] in s;
  }

  /** A permutation has the same length and the same elements. */
  lemma SameElements<T>(a: seq<T>, b: seq<T>)
    requires multiset(a) == multiset(b)
    ensures |a| == |b| && forall x :: x in a <==> x in b
  {
    assert forall x :: x in a <==> x in multiset(a);
    assert forall x :: x in b <==> x in multiset(b);
    assert |multiset(a)| == |multiset(b)|;
  }

  /** The image of every item. */
  function Each<A, B>(f: A -> B, items: seq<A>): (r: seq<B>)
    ensures |r| == |items| && forall i :: 0 <= i < |items| ==> r[i] == f(items[i])
  {
    seq(|items|, i requires 0 <= i < |items| => f(items[i]))
  }

  /** The first `n` items replaced by their images. */
  ghost function HalfDone<A>(f: A -> A, items: seq<A>, n: nat): (r: seq<A>)
    requires n <= |items|
    ensures |r| == |items| && (n == |items| ==> r == Each(f, items))
  {
    Each(f, items[..n]) + items[n..]
  }

  lemma HalfDoneNext<A>(f: A -> A, items: seq<A>, n: nat)
    requires n < |items|
    ensures HalfDone(f, items, n)[n] == items[n]
    ensures HalfDone(f, items, n)[n := f(items[n])] == HalfDone(f, items, n + 1)
  {}

  lemma Associative<T>(a: seq<T>, b: seq<T>, c: seq<T>)
    ensures a + b + c == a + (b + c)
  {}

  function Flatten<T>(groups: seq<seq<T>>): seq<T> {
    if groups == [] then [] else Flatten(groups[..|groups| - 1]) + groups[|groups| - 1]
  }

  lemma FlattenMore<T>(groups: seq<seq<T>>, group: seq<T>)
    ensures Flatten(groups + [group]) == Flatten(groups) + group
  {
    assert (groups + [group])[..|groups + [group]| - 1] == groups;
  }

  // ---------------------------------------------------------------------------
  // Lists built by a loop that appends zero or more items per element.

  /** What the items give, in order. */
  function FlatMap<A, B>(f: A -> seq<B>, items: seq<A>): seq<B> {
    if items == [] then [] else FlatMap(f, items[..|items| - 1]) + f(items[|items| - 1])
  }

  lemma {:induction false} FlatMapMembers<A, B>(f: A -> seq<B>, items: seq<A>)
    ensures forall y :: y in FlatMap(f, items) <==> exists x :: x in items && y in f(x)
  {
    if items != [] {
      var n := |items| - 1;
      FlatMapMembers(f, items[..n]);
      assert items == items[..n] + [items[n]];
    }
  }

  lemma FlatMapEmpty<A, B>(f: A -> seq<B>, items: seq<A>)
    ensures FlatMap(f, items) == [] <==> forall x :: x in items ==> f(x) == []
  {
    FlatMapMembers(f, items);
    if FlatMap(f, items) == [] {
      forall x | x in items
        ensures f(x) == []
      {
        if f(x) != [] {
          HasMember(f(x));
        }
      }
    } else {
      assert FlatMap(f, items)[0] in FlatMap(f, items);
    }
  }

  lemma {:induction false} FlatMapConcat<A, B>(f: A -> seq<B>, a: seq<A>, b: seq<A>)
    ensures FlatMap(f, a + b) == FlatMap(f, a) + FlatMap(f, b)
  {
    if b == [] {
      assert a + b == a;
    } else {
      var front, last := b[..|b| - 1], b[|b| - 1];
      assert (a + b)[..|a + b| - 1] == a + front;
      FlatMapConcat(f, a, front);
      Associative(FlatMap(f, a), FlatMap(f, front), f(last));
    }
  }

  lemma FlatMapMore<A, B>(f: A -> seq<B>, items: seq<A>, item: A)
    ensures FlatMap(f, items + [item]) == FlatMap(f, items) + f(item)
  {
    assert (items + [item])[..|items + [item]| - 1] == items;
  }

  lemma FlatMapFront<A, B>(f: A -> seq<B>, items: seq<A>)
    requires items != []
    ensures FlatMap(f, items) == f(items[0]) + FlatMap(f, items[1..])
  {
    assert items == [items[0]] + items[1..];
    FlatMapConcat(f, [items[0]], items[1..]);
    FlatMapOne(f, items[0]);
  }

  lemma FlatMapOne<A, B>(f: A -> seq<B>, item: A)
    ensures FlatMap(f, [item]) == f(item)
  {
    assert [item][..0] == [];
  }

  /** Viewing the items first changes nothing. */
  lemma {:induction false} FlatMapEach<A, B, C>(f: B -> seq<C>, view: A -> B, items: seq<A>, g: A -> seq<C>)
    requires forall x :: x in items ==> g(x) == f(view(x))
    ensures FlatMap(f, Each(view, items)) == FlatMap(g, items)
  {
    if items != [] {
      var n := |items| - 1;
      FlatMapEach(f, view, items[..n], g);
      assert Each(view, items)[..n] == Each(view, items[..n]);
      assert items[n] in items;
    }
  }

  /** What an item gives stands behind what the earlier items give. */
  lemma FlatMapAt<A, B>(f: A -> seq<B>, items: seq<A>, i: nat, j: nat)
    requires i < |items| && j < |f(items[i])|
    ensures |FlatMap(f, items[..i])| + j < |FlatMap(f, items)|
    ensures FlatMap(f, items)[|FlatMap(f, items[..i])| + j] == f(items[i])[j]
  {
    assert items == items[..i + 1] + items[i + 1..];
    FlatMapConcat(f, items[..i + 1], items[i + 1..]);
    FlatMapNext(f, items, i);
  }

  /** Every entry of the list was given by one of the items. */
  lemma {:induction false} FlatMapSplit<A, B>(f: A -> seq<B>, items: seq<A>, n: nat) returns (i: nat, j: nat)
    requires n < |FlatMap(f, items)|
    ensures i < |items| && j < |f(items[i])| && n == |FlatMap(f, items[..i])| + j
    ensures FlatMap(f, items)[n] == f(items[i])[j]
  {
    var k := |items| - 1;
    if n < |FlatMap(f, items[..k])| {
      i, j := FlatMapSplit(f, items[..k], n);
      assert items[..k][..i] == items[..i];
    } else {
      i, j := k, n - |FlatMap(f, items[..k])|;
    }
  }

  lemma FlatMapNext<A, B>(f: A -> seq<B>, items: seq<A>, i: nat)
    requires i < |items|
    ensures FlatMap(f, items[..i + 1]) == FlatMap(f, items[..i]) + f(items[i])
  {
    assert items[..i + 1][..i] == items[..i];
  }

  // ---------------------------------------------------------------------------
  // Lists built by a loop that appends at most one item per element.

  /** The positions of the items that give something, in ascending order. */
  function Places<A, B>(f: A -> seq<B>, items: seq<A>): (places: seq<nat>)
    ensures forall k :: 0 <= k < |places| ==> places[k] < |items|
  {
    if items == [] then []
    else
      Places(f, items[..|items| - 1]) + if f(items[|items| - 1]) != [] then [|items| - 1] else []
  }

  predicate Ascends(places: seq<nat>) {
    forall i, j :: 0 <= i < j < |places| ==> places[i] < places[j]
  }

  /** If no item gives more than one thing, the places say which item gave each entry, in order, and none
      is passed over. */
  lemma {:induction false} PlacesMean<A, B>(f: A -> seq<B>, items: seq<A>)
    requires forall x :: x in items ==> |f(x)| <= 1
    ensures |Places(f, items)| == |FlatMap(f, items)| && Ascends(Places(f, items))
    ensures forall k :: 0 <= k < |Places(f, items)| ==> f(items[Places(f, items)[k]]) == [FlatMap(f, items)[k]]
    ensures forall i :: 0 <= i < |items| && f(items[i]) != [] ==> i in Places(f, items)
  {
    if items != [] {
      var n := |items| - 1;
      PlacesMean(f, items[..n]);
      assert items[n] in items;
    }
  }

  /** Sets built by a loop that adds zero or more members per element. */
  ghost function UnionMap<A, B>(f: A -> set<B>, items: seq<A>): set<B> {
    if items == [] then {} else UnionMap(f, items[..|items| - 1]) + f(items[|items| - 1])
  }

  lemma UnionMapNext<A, B>(f: A -> set<B>, items: seq<A>, i: nat)
    requires i < |items|
    ensures UnionMap(f, items[..i + 1]) == UnionMap(f, items[..i]) + f(items[i])
  {
    assert items[..i + 1][..i] == items[..i];
  }

  lemma {:induction false} UnionMapMembers<A, B>(f: A -> set<B>, items: seq<A>)
    ensures forall y :: y in UnionMap(f, items) <==> exists x :: x in items && y in f(x)
  {
    if items != [] {
      var n := |items| - 1;
      UnionMapMembers(f, items[..n]);
      assert items == items[..n] + [items[n]];
    }
  }
}
