/** Cutting a list into groups, each opened by an item that passes a test. */
module Grouping {
  import opened Sequences

  /** An opening item starts a group, other items join the open one, and items before the first opening
      item belong to none. */
  function Groups<T>(opens: T -> bool, items: seq<T>): seq<seq<T>> {
    if items == [] then []
    else GroupsAfter(opens, Groups(opens, items[..|items| - 1]), items[|items| - 1])
  }

  function GroupsAfter<T>(opens: T -> bool, before: seq<seq<T>>, item: T): seq<seq<T>> {
    if opens(item) then before + [[item]]
    else if before == [] then []
    else before[..|before| - 1] + [before[|before| - 1] + [item]]
  }

  ghost predicate IsGroup<T>(opens: T -> bool, group: seq<T>) {
    group != [] && opens(group[0]) && forall i :: 1 <= i < |group| ==> !opens(group[i])
  }

  ghost predicate AllGroups<T>(opens: T -> bool, groups: seq<seq<T>>) {
    forall i :: 0 <= i < |groups| ==> IsGroup(opens, groups[i])
  }

  lemma {:induction false} GroupsAreGroups<T>(opens: T -> bool, items: seq<T>)
    ensures AllGroups(opens, Groups(opens, items))
  {
    if items != [] {
      GroupsAreGroups(opens, items[..|items| - 1]);
    }
  }

  lemma GroupsOfMore<T>(opens: T -> bool, front: seq<T>, item: T)
    ensures Groups(opens, front + [item]) == GroupsAfter(opens, Groups(opens, front), item)
  {
    assert (front + [item])[..|front|] == front;
  }

  lemma FlattenLonger<T>(front: seq<seq<T>>, last: seq<T>, item: T)
    ensures Flatten(front + [last + [item]]) == Flatten(front + [last]) + [item]
  {
    FlattenMore(front, last + [item]);
    FlattenMore(front, last);
    assert Flatten(front) + (last + [item]) == (Flatten(front) + last) + [item];
  }

  lemma FlattenAfter<T>(opens: T -> bool, before: seq<seq<T>>, item: T)
    ensures Flatten(GroupsAfter(opens, before, item)) ==
              if before == [] && !opens(item) then [] else Flatten(before) + [item]
  {
    FlattenMore(before, [item]);
    if before != [] {
      FlattenLonger(before[..|before| - 1], before[|before| - 1], item);
      assert before == before[..|before| - 1] + [before[|before| - 1]];
    }
  }

  /** Where the first opening item is, or the end. */
  function FirstOpening<T>(opens: T -> bool, items: seq<T>): (r: nat)
    ensures r <= |items| && (r < |items| ==> opens(items[r])) && forall i :: 0 <= i < r ==> !opens(items[i])
  {
    if items == [] || opens(items[0]) then 0 else 1 + FirstOpening(opens, items[1..])
  }

  lemma FirstOpeningOfMore<T>(opens: T -> bool, front: seq<T>, item: T)
    ensures var k := FirstOpening(opens, front);
            FirstOpening(opens, front + [item]) == if k < |front| || opens(item) then k else |front| + 1
  {
    var k, all := FirstOpening(opens, front), front + [item];
    var k' := FirstOpening(opens, all);
    assert forall i :: 0 <= i < |front| ==> all[i] == front[i];
    assert all[|front|] == item;
    assert !(k' < k);
  }

  /** Every item from the first opening one on is in exactly one group, in order. */
  lemma {:induction false} GroupsCover<T>(opens: T -> bool, items: seq<T>)
    ensures Flatten(Groups(opens, items)) == items[FirstOpening(opens, items)..]
    ensures Groups(opens, items) == [] <==> FirstOpening(opens, items) == |items|
  {
    if items != [] {
      var front, item := items[..|items| - 1], items[|items| - 1];
      assert items == front + [item];
      GroupsCover(opens, front);
      FlattenAfter(opens, Groups(opens, front), item);
      FirstOpeningOfMore(opens, front, item);
    }
  }

  lemma GroupsWithOpening<T>(opens: T -> bool, a: seq<T>, item: T)
    requires opens(item)
    ensures Groups(opens, a + [item]) == Groups(opens, a) + [[item]]
  {
    GroupsOfMore(opens, a, item);
  }

  lemma LastJoins<T>(opens: T -> bool, front: seq<seq<T>>, last: seq<T>, item: T)
    requires !opens(item)
    ensures GroupsAfter(opens, front + [last], item) == front + [last + [item]]
  {}

  /** Appending a whole group appends it to the groups. */
  lemma {:induction false} GroupsWithGroup<T>(opens: T -> bool, a: seq<T>, group: seq<T>)
    requires IsGroup(opens, group)
    ensures Groups(opens, a + group) == Groups(opens, a) + [group]
    decreases |group|
  {
    var front, item := group[..|group| - 1], group[|group| - 1];
    assert group == front + [item];
    if front == [] {
      GroupsWithOpening(opens, a, item);
    } else {
      GroupsWithGroup(opens, a, front);
      assert a + group == (a + front) + [item];
      GroupsOfMore(opens, a + front, item);
      LastJoins(opens, Groups(opens, a), front, item);
    }
  }

  /** Groups laid end to end come apart into the same groups, so a cover by groups is the only one. */
  lemma {:induction false} GroupsOfFlatten<T>(opens: T -> bool, groups: seq<seq<T>>)
    requires AllGroups(opens, groups)
    ensures Groups(opens, Flatten(groups)) == groups
  {
    if groups != [] {
      var n := |groups| - 1;
      GroupsOfFlatten(opens, groups[..n]);
      GroupsWithGroup(opens, Flatten(groups[..n]), groups[n]);
    }
  }

  /** All items but the last have the property. */
  ghost predicate Inner<T>(p: T -> bool, items: seq<T>) {
    forall j :: 0 <= j < |items| - 1 ==> p(items[j])
  }

  ghost predicate EndsAlike<T>(groups: seq<seq<T>>, items: seq<T>) {
    groups != [] ==>
      var last := groups[|groups| - 1];
      last != [] && items != [] && last[|last| - 1] == items[|items| - 1]
  }

  /** What holds of all items but the last holds of all but the last in every group. */
  lemma {:induction false} GroupsInner<T>(opens: T -> bool, items: seq<T>, p: T -> bool)
    requires Inner(p, items)
    ensures forall i :: 0 <= i < |Groups(opens, items)| ==> Inner(p, Groups(opens, items)[i])
    ensures EndsAlike(Groups(opens, items), items)
  {
    if items != [] {
      var front, item := items[..|items| - 1], items[|items| - 1];
      assert items == front + [item];
      GroupsInner(opens, front, p);
      GroupsOfMore(opens, front, item);
      InnerAfter(opens, Groups(opens, front), front, item, p);
    }
  }

  lemma InnerAfter<T>(opens: T -> bool, before: seq<seq<T>>, front: seq<T>, item: T, p: T -> bool)
    requires forall i :: 0 <= i < |before| ==> Inner(p, before[i])
    requires EndsAlike(before, front) && Inner(p, front + [item])
    ensures var after := GroupsAfter(opens, before, item);
            EndsAlike(after, front + [item]) && forall i :: 0 <= i < |after| ==> Inner(p, after[i])
  {
    if before != [] && !opens(item) {
      var last := before[|before| - 1];
      assert p((front + [item])[|front| - 1]);
      assert Inner(p, last + [item]);
    }
  }
}
