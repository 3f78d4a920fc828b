/** Go's `strings` helpers that the analysis code leans on: trimming, blank tests, case mapping,
    joining, substring tests and the byte order of `sort.Strings`. */
module Text {

  /** `unicode.IsSpace`: the characters `strings.TrimSpace` removes. */
  predicate IsSpace(c: char) {
    || c == ' ' || '\U{0009}' <= c <= '\U{000D}' || c == '\U{0085}' || c == '\U{00A0}'
    || c == '\U{1680}' || '\U{2000}' <= c <= '\U{200A}'
    || c == '\U{2028}' || c == '\U{2029}' || c == '\U{202F}' || c == '\U{205F}' || c == '\U{3000}'
  }

  function TrimLeft(s: string): string {
    if s != [] && IsSpace(s[0]) then TrimLeft(s[1..]) else s
  }

  function TrimRight(s: string): string {
    if s != [] && IsSpace(s[|s| - 1]) then TrimRight(s[..|s| - 1]) else s
  }

  /** `strings.TrimSpace`. */
  function Trim(s: string): string {
    TrimRight(TrimLeft(s))
  }

  predicate IsBlank(s: string) {
    Trim(s) == ""
  }

  /** A string with no white space at either end. */
  predicate IsTight(s: string) {
    s == [] || (!IsSpace(s[0]) && !IsSpace(s[|s| - 1]))
  }

  predicate AllSpace(s: string) {
    forall i :: 0 <= i < |s| ==> IsSpace(s[i])
  }

  lemma TrimLeftSplits(s: string) returns (pre: string)
    ensures s == pre + TrimLeft(s) && AllSpace(pre)
    ensures TrimLeft(s) == [] || !IsSpace(TrimLeft(s)[0])
  {
    if s != [] && IsSpace(s[0]) {
      var rest := TrimLeftSplits(s[1..]);
      pre := [s[0]] + rest;
      assert s == [s[0]] + s[1..];
    } else {
      pre := [];
    }
  }

  lemma TrimRightSplits(s: string) returns (post: string)
    ensures s == TrimRight(s) + post && AllSpace(post)
    ensures TrimRight(s) == [] || !IsSpace(TrimRight(s)[|TrimRight(s)| - 1])
  {
    if s != [] && IsSpace(s[|s| - 1]) {
      var rest := TrimRightSplits(s[..|s| - 1]);
      post := rest + [s[|s| - 1]];
      assert s == s[..|s| - 1] + [s[|s| - 1]];
    } else {
      post := [];
    }
  }

  /** Trimming removes white space from the two ends and nothing else. */
  lemma TrimSplits(s: string) returns (pre: string, post: string)
    ensures s == pre + Trim(s) + post && AllSpace(pre) && AllSpace(post)
    ensures IsTight(Trim(s))
  {
    pre := TrimLeftSplits(s);
    post := TrimRightSplits(TrimLeft(s));
    var t := TrimLeft(s);
    if Trim(s) != [] {
      assert t[0] == Trim(s)[0];
    }
  }

  lemma TrimOfTight(s: string)
    requires IsTight(s)
    ensures Trim(s) == s
  {}

  lemma TrimIdempotent(s: string)
    ensures Trim(Trim(s)) == Trim(s) && IsTight(Trim(s))
  {
    var _, _ := TrimSplits(s);
    TrimOfTight(Trim(s));
  }

  lemma {:induction false} TrimLeftDropsSpace(a: string, b: string)
    requires AllSpace(a)
    ensures TrimLeft(a + b) == TrimLeft(b)
  {
    if a == [] {
      assert a + b == b;
    } else {
      assert (a + b)[1..] == a[1..] + b;
      TrimLeftDropsSpace(a[1..], b);
    }
  }

  lemma {:induction false} TrimRightDropsSpace(a: string, b: string)
    requires AllSpace(b)
    ensures TrimRight(a + b) == TrimRight(a)
  {
    if b == [] {
      assert a + b == a;
    } else {
      assert (a + b)[..|a + b| - 1] == a + b[..|b| - 1];
      TrimRightDropsSpace(a, b[..|b| - 1]);
    }
  }

  /** A tight text wrapped in white space trims back to itself. */
  lemma TrimUnwraps(pre: string, s: string, post: string)
    requires AllSpace(pre) && AllSpace(post) && IsTight(s)
    ensures Trim(pre + s + post) == s
  {
    assert pre + s + post == pre + (s + post);
    TrimLeftDropsSpace(pre, s + post);
    if s == [] {
      assert s + post == post;
      assert post + [] == post;
      TrimLeftDropsSpace(post, []);
    } else {
      assert TrimLeft(s + post) == s + post;
      TrimRightDropsSpace(s, post);
    }
  }

  /** A text is blank exactly when all its characters are white space. */
  lemma BlankIffAllSpace(s: string)
    ensures IsBlank(s) <==> AllSpace(s)
  {
    var pre, post := TrimSplits(s);
    if AllSpace(s) {
      TrimUnwraps(s, [], []);
      assert s + [] + [] == s;
    }
    if IsBlank(s) {
      assert s == pre + post;
    }
  }

  /** `strings.ToLower`: a rune-by-rune map, exact on ASCII; `other` covers the rest of Unicode. */
  function LowerChar(other: char -> char, c: char): char {
    if 'A' <= c <= 'Z' then ((c as int) + 32) as char
    else if c < '\U{0080}' then c
    else other(c)
  }

  function Lower(other: char -> char, s: string): (r: string)
    ensures |r| == |s| && forall i :: 0 <= i < |s| ==> r[i] == LowerChar(other, s[i])
  {
    seq(|s|, i requires 0 <= i < |s| => LowerChar(other, s[i]))
  }

  /** `strings.EqualFold`: equal after folding each rune to its class representative. */
  predicate EqualFold(fold: char -> char, a: string, b: string) {
    |a| == |b| && forall i :: 0 <= i < |a| ==> fold(a[i]) == fold(b[i])
  }

  /** `strings.Contains`. */
  predicate Contains(s: string, part: string) {
    exists i :: 0 <= i <= |s| && OccursAt(s, part, i)
  }

  predicate OccursAt(s: string, part: string, i: nat) {
    i + |part| <= |s| && s[i..i + |part|] == part
  }

  /** `strings.Join`. */
  function Join(parts: seq<string>, sep: string): string {
    if parts == [] then ""
    else if |parts| == 1 then parts[0]
    else parts[0] + sep + Join(parts[1..], sep)
  }

  /** `firstNonBlankAnalysisString`. */
  function FirstNonBlank(primary: string, fallback: string): string {
    if !IsBlank(primary) then primary else fallback
  }

  // ---------------------------------------------------------------------------
  // analysisUniqueStrings: trim, drop blanks, keep the first of equal entries.

  function Uniques(items: seq<string>): (out: seq<string>) {
    if items == [] then []
    else AddUnique(Uniques(items[..|items| - 1]), Trim(items[|items| - 1]))
  }

  function AddUnique(out: seq<string>, trimmed: string): seq<string> {
    if trimmed == "" || trimmed in out then out else out + [trimmed]
  }

  lemma UniquesOfMore(front: seq<string>, item: string)
    ensures Uniques(front + [item]) == AddUnique(Uniques(front), Trim(item))
  {
    assert (front + [item])[..|front|] == front;
  }

  predicate Distinct<T(==)>(s: seq<T>) {
    forall i, j :: 0 <= i < j < |s| ==> s[i] != s[j]
  }

  method UniqueStrings(items: seq<string>) returns (out: seq<string>)
    ensures out == Uniques(items)
  {
    var seen := {};
    out := [];
    for i := 0 to |items|
      invariant out == Uniques(items[..i])
      invariant forall s :: s in seen <==> s in out
    {
      assert items[..i + 1][..i] == items[..i];
      var trimmed := Trim(items[i]);
      if trimmed == "" || trimmed in seen {
        continue;
      }
      seen := seen + {trimmed};
      out := out + [trimmed];
    }
    assert items[..|items|] == items;
  }

  ghost predicate TrimsTo(items: seq<string>, s: string) {
    exists i :: 0 <= i < |items| && Trim(items[i]) == s
  }

  lemma TrimsToMember(items: seq<string>, s: string)
    ensures TrimsTo(items, s) <==> exists item :: item in items && Trim(item) == s
  {
    if item :| item in items && Trim(item) == s {
      var i :| 0 <= i < |items| && items[i] == item;
      assert Trim(items[i]) == s;
    }
    if i :| 0 <= i < |items| && Trim(items[i]) == s {
      assert items[i] in items;
    }
  }

  lemma TrimsToMore(front: seq<string>, item: string, s: string)
    ensures TrimsTo(front + [item], s) <==> TrimsTo(front, s) || Trim(item) == s
  {
    var items := front + [item];
    assert items[|front|] == item;
    if TrimsTo(front, s) {
      var i :| 0 <= i < |front| && Trim(front[i]) == s;
      assert Trim(items[i]) == s;
    }
  }

  /** The cleaned list holds exactly the trimmed non-blank entries, each once. */
  lemma {:induction false} UniquesHolds(items: seq<string>)
    ensures forall s :: s in Uniques(items) <==> s != "" && TrimsTo(items, s)
    ensures Distinct(Uniques(items))
  {
    if items != [] {
      var front, last := items[..|items| - 1], items[|items| - 1];
      assert items == front + [last];
      UniquesHolds(front);
      UniquesOfMore(front, last);
      forall s
        ensures TrimsTo(items, s) <==> TrimsTo(front, s) || Trim(last) == s
      {
        TrimsToMore(front, last, s);
      }
    }
  }

  /** The position of an entry's first occurrence, white space aside. */
  ghost predicate FirstAt(items: seq<string>, s: string, n: nat) {
    n < |items| && Trim(items[n]) == s && forall m :: 0 <= m < n ==> Trim(items[m]) != s
  }

  /** The cleaned list keeps its entries in the order of their first occurrences. */
  lemma {:induction false} UniquesInOrder(items: seq<string>, i: nat, j: nat, m: nat, n: nat)
    requires i < |Uniques(items)| && FirstAt(items, Uniques(items)[i], m)
    requires j < |Uniques(items)| && FirstAt(items, Uniques(items)[j], n)
    requires i < j
    ensures m < n
  {
    var k := |items| - 1;
    var front, last := items[..k], Trim(items[k]);
    assert items == front + [items[k]];
    UniquesOfMore(front, items[k]);
    UniquesHolds(front);
    if j < |Uniques(front)| {
      HeldIsFirst(items, Uniques(front)[i], m);
      HeldIsFirst(items, Uniques(front)[j], n);
      UniquesInOrder(front, i, j, m, n);
    } else {
      HeldIsFirst(items, Uniques(front)[i], m);
      assert forall l :: 0 <= l < k ==> Trim(front[l]) == Trim(items[l]);
    }
  }

  /** What the list without its last entry holds occurs first in that part. */
  lemma HeldIsFirst(items: seq<string>, s: string, m: nat)
    requires items != [] && s in Uniques(items[..|items| - 1]) && FirstAt(items, s, m)
    ensures m < |items| - 1 && FirstAt(items[..|items| - 1], s, m)
  {
    var front := items[..|items| - 1];
    UniquesHolds(front);
    var l :| 0 <= l < |front| && Trim(front[l]) == s;
    assert Trim(items[l]) == s;
    assert forall l :: 0 <= l < |front| ==> front[l] == items[l];
  }

  /** The cleaned list is empty exactly when every entry is blank. */
  lemma UniquesEmpty(items: seq<string>)
    ensures Uniques(items) == [] <==> forall i :: 0 <= i < |items| ==> IsBlank(items[i])
  {
    UniquesHolds(items);
    if Uniques(items) == [] {
      forall i | 0 <= i < |items|
        ensures IsBlank(items[i])
      {
        assert Trim(items[i]) !in Uniques(items);
      }
    } else {
      assert Uniques(items)[0] in Uniques(items);
    }
  }

  lemma {:induction false} UniquesAreTight(items: seq<string>)
    ensures forall s :: s in Uniques(items) ==> Trim(s) == s != ""
  {
    if items != [] {
      UniquesAreTight(items[..|items| - 1]);
      TrimIdempotent(items[|items| - 1]);
    }
  }

  lemma {:induction false} UniquesGrow(a: seq<string>, b: seq<string>, s: string)
    requires s in Uniques(b)
    ensures s in Uniques(a + b)
  {
    if b != [] {
      var front, last := b[..|b| - 1], b[|b| - 1];
      assert b == front + [last] && a + b == (a + front) + [last];
      UniquesOfMore(a + front, last);
      if s in Uniques(front) {
        UniquesGrow(a, front, s);
      }
    }
  }

  lemma AddUniqueTight(a: seq<string>, out: seq<string>, trimmed: string)
    requires Trim(trimmed) == trimmed
    ensures trimmed == "" || trimmed in out ==> a + AddUnique(out, trimmed) == a + out
    ensures !(trimmed == "" || trimmed in out) ==>
              Uniques(a + AddUnique(out, trimmed)) == AddUnique(Uniques(a + out), trimmed)
  {
    if !(trimmed == "" || trimmed in out) {
      assert a + (out + [trimmed]) == (a + out) + [trimmed];
      UniquesOfMore(a + out, trimmed);
    }
  }

  lemma {:induction false} UniquesOfTail(a: seq<string>, b: seq<string>)
    ensures Uniques(a + Uniques(b)) == Uniques(a + b)
  {
    if b == [] {
      assert a + Uniques(b) == a + b;
    } else {
      var front, last := b[..|b| - 1], b[|b| - 1];
      var trimmed := Trim(last);
      assert b == front + [last] && a + b == (a + front) + [last];
      UniquesOfTail(a, front);
      UniquesOfMore(front, last);
      UniquesOfMore(a + front, last);
      TrimIdempotent(last);
      AddUniqueTight(a, Uniques(front), trimmed);
      if trimmed in Uniques(front) {
        UniquesGrow(a, front, trimmed);
      }
    }
  }

  lemma {:induction false} UniquesOfHead(a: seq<string>, b: seq<string>)
    ensures Uniques(Uniques(a) + b) == Uniques(a + b)
  {
    if b == [] {
      UniquesOfTail([], a);
      assert Uniques(a) + b == [] + Uniques(a);
      assert [] + a == a + b;
    } else {
      var front, last := b[..|b| - 1], b[|b| - 1];
      assert b == front + [last] && a + b == (a + front) + [last] && Uniques(a) + b == (Uniques(a) + front) + [last];
      UniquesOfHead(a, front);
      UniquesOfMore(a + front, last);
      UniquesOfMore(Uniques(a) + front, last);
    }
  }

  /** Cleaning pieces before joining them changes nothing. */
  lemma UniquesAbsorb(a: seq<string>, b: seq<string>)
    ensures Uniques(Uniques(a) + Uniques(b)) == Uniques(a + b)
  {
    UniquesOfHead(a, Uniques(b));
    UniquesOfTail(a, b);
  }

  /** Entries the list has already can be appended in vain. */
  lemma {:induction false} UniquesKeep(a: seq<string>, b: seq<string>)
    requires forall s :: s in b ==> Trim(s) == "" || Trim(s) in Uniques(a)
    ensures Uniques(a + b) == Uniques(a)
  {
    if b == [] {
      assert a + b == a;
    } else {
      var front, last := b[..|b| - 1], b[|b| - 1];
      assert b == front + [last] && a + b == (a + front) + [last];
      UniquesKeep(a, front);
      UniquesOfMore(a + front, last);
    }
  }

  lemma UniquesDouble(a: seq<string>)
    ensures Uniques(a + a) == Uniques(a)
  {
    UniquesHolds(a);
    forall s | s in a
      ensures Trim(s) == "" || Trim(s) in Uniques(a)
    {
      var i :| 0 <= i < |a| && a[i] == s;
    }
    UniquesKeep(a, a);
  }

  lemma UniquesDoubled(a: seq<string>, b: seq<string>)
    ensures Uniques((a + a) + b) == Uniques(a + b)
  {
    UniquesDouble(a);
    UniquesOfHead(a + a, b);
    UniquesOfHead(a, b);
  }

  /** Cleaning a list behind a copy of its own beginning changes nothing. */
  lemma UniquesTwice(a: seq<string>, b: seq<string>)
    ensures Uniques(a + Uniques(a + b)) == Uniques(a + b)
  {
    UniquesOfTail(a, a + b);
    UniquesDoubled(a, b);
    assert a + (a + b) == (a + a) + b;
  }

  // ---------------------------------------------------------------------------
  // The order of Go strings.

  predicate StrLess(a: string, b: string) {
    b != [] && (a == [] || a[0] < b[0] || (a[0] == b[0] && StrLess(a[1..], b[1..])))
  }

  lemma {:induction false} StrLessTransitive(a: string, b: string, c: string)
    requires StrLess(a, b) && StrLess(b, c)
    ensures StrLess(a, c)
  {
    if a != [] && a[0] == b[0] && b[0] == c[0] {
      StrLessTransitive(a[1..], b[1..], c[1..]);
    }
  }

  lemma {:induction false} StrLessTotal(a: string, b: string)
    ensures StrLess(a, b) || a == b || StrLess(b, a)
    ensures !(StrLess(a, b) && StrLess(b, a)) && !StrLess(a, a)
  {
    if a != [] && b != [] {
      StrLessTotal(a[1..], b[1..]);
      StrLessTotal(a[1..], a[1..]);
      if a[0] == b[0] && a[1..] == b[1..] {
        assert a == [a[0]] + a[1..] == [b[0]] + b[1..] == b;
      }
    } else if a != [] {
      StrLessTotal(a[1..], a[1..]);
    }
  }
}
