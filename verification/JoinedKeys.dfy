/** Lists of strings joined by a separator to serve as keys: when the key stands for the list. */
module JoinedKeys {
  import opened Text

  ghost predicate SepFree(parts: seq<string>, sep: string) {
    forall i :: 0 <= i < |parts| ==> !Contains(parts[i], sep)
  }

  /** The separator does not begin again inside itself. */
  predicate Simple(sep: string) {
    sep != "" && sep[0] !in sep[1..]
  }

  /** A separator that straddles the next one begins again inside itself. */
  lemma SepStraddles(a: string, sep: string, rest: string, k: nat)
    requires sep != "" && k < |a| < k + |sep| && OccursAt(a + sep + rest, sep, k)
    ensures !Simple(sep)
  {
    var s, d := a + sep + rest, |a| - k;
    assert s[k..k + |sep|][d] == s[|a|] == sep[0];
    assert sep[1..][d - 1] == sep[d];
  }

  /** So a simple separator that starts inside the first part lies inside it. */
  lemma SepInside(a: string, sep: string, rest: string, k: nat)
    requires Simple(sep) && k < |a| && OccursAt(a + sep + rest, sep, k)
    ensures Contains(a, sep)
  {
    if |a| < k + |sep| {
      SepStraddles(a, sep, rest, k);
    } else {
      assert a[k..k + |sep|] == (a + sep + rest)[k..k + |sep|];
      assert OccursAt(a, sep, k);
    }
  }

  lemma JoinOfMany(parts: seq<string>, sep: string)
    requires |parts| >= 2
    ensures Join(parts, sep) == parts[0] + sep + Join(parts[1..], sep)
    ensures OccursAt(Join(parts, sep), sep, |parts[0]|)
  {}

  /** As long as no part contains the separator, equal keys mean equal lists. */
  lemma {:induction false} JoinIsFaithful(a: seq<string>, b: seq<string>, sep: string)
    requires Simple(sep) && a != [] && b != [] && SepFree(a, sep) && SepFree(b, sep)
    requires Join(a, sep) == Join(b, sep)
    ensures a == b
  {
    if |a| == 1 && |b| == 1 {
    } else if |a| == 1 {
      JoinOfMany(b, sep);
      assert Contains(a[0], sep);
    } else if |b| == 1 {
      JoinOfMany(a, sep);
      assert Contains(b[0], sep);
    } else {
      SameFirst(a, b, sep);
      JoinIsFaithful(a[1..], b[1..], sep);
      assert a == [a[0]] + a[1..] && b == [b[0]] + b[1..];
    }
  }

  lemma SameFirst(a: seq<string>, b: seq<string>, sep: string)
    requires Simple(sep) && |a| >= 2 && |b| >= 2 && SepFree(a, sep) && SepFree(b, sep)
    requires Join(a, sep) == Join(b, sep)
    ensures a[0] == b[0] && Join(a[1..], sep) == Join(b[1..], sep)
  {
    JoinOfMany(a, sep);
    JoinOfMany(b, sep);
    if |b[0]| < |a[0]| {
      SepInside(a[0], sep, Join(a[1..], sep), |b[0]|);
    } else if |a[0]| < |b[0]| {
      SepInside(b[0], sep, Join(b[1..], sep), |a[0]|);
    }
    var s := Join(a, sep);
    assert a[0] == s[..|a[0]|] == b[0];
    assert Join(a[1..], sep) == s[|a[0]| + |sep|..] == Join(b[1..], sep);
  }

  // ---------------------------------------------------------------------------
  // Short lists.

  lemma JoinOfTwo(a: string, b: string, sep: string)
    ensures Join([a, b], sep) == a + sep + b
  {
    assert [a, b][1..] == [b];
  }

  lemma JoinOfThree(a: string, b: string, c: string, sep: string)
    ensures Join([a, b, c], sep) == a + sep + b + sep + c
  {
    assert [a, b, c][1..] == [b, c];
    JoinOfTwo(b, c, sep);
  }

  lemma JoinOfFour(a: string, b: string, c: string, d: string, sep: string)
    ensures Join([a, b, c, d], sep) == a + sep + b + sep + c + sep + d
  {
    assert [a, b, c, d][1..] == [b, c, d];
    JoinOfThree(b, c, d, sep);
  }

  lemma JoinOfFive(a: string, b: string, c: string, d: string, e: string, sep: string)
    ensures Join([a, b, c, d, e], sep) == a + sep + b + sep + c + sep + d + sep + e
  {
    assert [a, b, c, d, e][1..] == [b, c, d, e];
    JoinOfFour(b, c, d, e, sep);
  }
}
