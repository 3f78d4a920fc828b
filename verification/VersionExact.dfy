/** The other half of the round trip: a tree the reader gets back from its encoding is readable. */
module VersionExact {
  import opened Bytes
  import opened Options
  import opened Sequences
  import opened VersionBlock
  import opened VersionReader

  /** A key that was read holds no NUL and is what the bytes say, unit by unit. */
  lemma {:induction false} KeyReadMeans(b: seq<Byte>, at: nat, end: nat)
    requires end <= |b| && ReadKey(b, at, end).Some?
    ensures var (key, keyEnd) := ReadKey(b, at, end).value;
      && 0 !in key && keyEnd == at + 2 * (|key| + 1) <= end
      && forall i :: 0 <= i < |key| ==> key[i] == Read16(b, at + 2 * i)
    decreases |b| + 2 - at
  {
    if Read16(b, at) != 0 {
      KeyReadMeans(b, at + 2, end);
      var tail := ReadKey(b, at + 2, end).value.0;
      forall i | 0 < i <= |tail|
        ensures ([Read16(b, at)] + tail)[i] == Read16(b, at + 2 * i)
      {
        assert at + 2 + 2 * (i - 1) == at + 2 * i;
      }
    }
  }

  lemma {:induction false} UnitAt(s: Utf16, i: nat)
    requires i < |s|
    ensures Read16(Units(s), 2 * i) == s[i]
  {
    var u := Units(s);
    assert u == LE16(s[0]) + Units(s[1..]);
    if i == 0 {
      assert u[0..2] == LE16(s[0]);
      Reads16(u, 0, s[0]);
    } else {
      UnitAt(s[1..], i - 1);
      assert u[2..][2 * (i - 1)..] == u[2 * i..];
      assert u[2 * i] == Units(s[1..])[2 * (i - 1)] && u[2 * i + 1] == Units(s[1..])[2 * (i - 1) + 1];
    }
  }

  lemma KeyUnit(t: Block, b: seq<Byte>, at: nat, i: nat)
    requires Encode(t).Some? && at + |Encode(t).value| <= |b| && b[at..at + |Encode(t).value|] == Encode(t).value
    requires i < |t.key|
    ensures at + 6 + 2 * i + 2 <= |b| && Read16(b, at + 6 + 2 * i) == Sanitize(t.key)[i]
  {
    var written := Sanitize(t.key) + [0];
    var _ := Parts(t);
    UnitAt(written, i);
    SameUnit(b, at, Encode(t).value, 6, Units(written), i);
  }

  /** A key that reads back is well-formed. */
  lemma KeyIsWellFormed(t: Block, b: seq<Byte>, at: nat, next: nat, keyEnd: nat)
    requires Encode(t).Some?
    requires at + |Encode(t).value| == next <= |b| && b[at..next] == Encode(t).value
    requires ReadKey(b, at + 6, next) == Some((t.key, keyEnd))
    ensures WellFormed(t.key) && 0 !in t.key
  {
    KeyReadMeans(b, at + 6, next);
    forall i | 0 <= i < |t.key|
      ensures Sanitize(t.key)[i] == t.key[i]
    {
      KeyUnit(t, b, at, i);
    }
  }

  lemma SameUnit(b: seq<Byte>, at: nat, e: seq<Byte>, lo: nat, u: seq<Byte>, i: nat)
    requires at + |e| <= |b| && b[at..at + |e|] == e && lo + |u| <= |e| && e[lo..lo + |u|] == u
    requires 2 * i + 2 <= |u|
    ensures Read16(b, at + lo + 2 * i) == Read16(u, 2 * i)
  {
    ReadInSlice(b, at, e, lo + 2 * i);
    ReadInSlice(e, lo, u, 2 * i);
  }

  /** The reader's steps on a laid-out block, taken apart. */
  lemma ReadsApart(b: seq<Byte>, o: Offsets, at: nat, next: nat, end: nat, t: Block)
    requires LaidOut(b, o, t) && o.at == at && o.end == next <= end <= |b|
    requires ReadBlock(b, at, end) == Some((t, next))
    requires ReadKey(b, at + 6, next) == Some((t.key, o.keyEnd))
    ensures t.kind == 1 ==> |t.value| % 2 == 0
    ensures ReadBlocks(b, o.childrenAt, next) == Some(t.children)
  {}

  lemma KeyOfRead(t: Block, b: seq<Byte>, at: nat, next: nat, end: nat)
    requires Encode(t).Some?
    requires at + |Encode(t).value| == next <= end <= |b| && b[at..next] == Encode(t).value
    requires ReadBlock(b, at, end) == Some((t, next))
    ensures ReadKey(b, at + 6, next) == Some((t.key, at + 6 + 2 * (|t.key| + 1)))
  {
    ReadsFields(t, b, at);
    KeyReadMeans(b, at + 6, next);
  }

  lemma {:induction false} ReadMeansReadable(t: Block, b: seq<Byte>, at: nat, next: nat, end: nat)
    requires Encode(t).Some? && at % 4 == 0
    requires at + |Encode(t).value| == next <= end <= |b| && b[at..next] == Encode(t).value
    requires ReadBlock(b, at, end) == Some((t, next))
    ensures Readable(t)
    decreases t, 0
  {
    KeyOfRead(t, b, at, next, end);
    KeyIsWellFormed(t, b, at, next, at + 6 + 2 * (|t.key| + 1));
    var o := EncodedIsLaidOut(t, b, at, next);
    ReadsApart(b, o, at, next, end, t);
    ChildrenFollow(t, b, at, next);
    AllReadMeansReadable(t.children, b, o.childrenAt, next);
  }

  lemma {:induction false} AllReadMeansReadable(ts: seq<Block>, b: seq<Byte>, at: nat, end: nat)
    requires EncodeAll(ts).Some? && at % 4 == 0
    requires at <= end <= |b| && b[at..end] == Flatten(EncodeAll(ts).value)
    requires ReadBlocks(b, at, end) == Some(ts)
    ensures AllReadable(ts)
    decreases ts, 1
  {
    if ts != [] {
      var next := SplitFirst(ts, b, at, end);
      FirstIsRead(ts, b, at, end, next);
      ReadMeansReadable(ts[0], b, at, next, end);
      AllReadMeansReadable(ts[1..], b, next, end);
      assert forall i :: 0 < i < |ts| ==> ts[i] == ts[1..][i - 1];
    }
  }

  lemma FirstIsRead(ts: seq<Block>, b: seq<Byte>, at: nat, end: nat, next: nat)
    requires ts != [] && Encode(ts[0]).Some? && next == at + |Encode(ts[0]).value| && next % 4 == 0
    requires at < next <= end <= |b| && b[at..next] == Encode(ts[0]).value
    requires ReadBlocks(b, at, end) == Some(ts)
    ensures ReadBlock(b, at, end) == Some((ts[0], next)) && ReadBlocks(b, next, end) == Some(ts[1..])
  {
    ReadsFields(ts[0], b, at);
    AlignOfAligned(next);
  }

  /** The reader recovers a tree from what `BuildBlock` returns for it exactly when every key is
      well-formed and NUL-free and every text value is a whole number of units. */
  lemma RoundTripIff(t: Block)
    requires Encode(t).Some?
    ensures ReadBlock(Encode(t).value, 0, |Encode(t).value|) == Some((t, |Encode(t).value|)) <==> Readable(t)
  {
    var e := Encode(t).value;
    assert e[0..|e|] == e;
    if Readable(t) {
      RoundTrip(t);
    } else if ReadBlock(e, 0, |e|) == Some((t, |e|)) {
      ReadMeansReadable(t, e, 0, |e|, |e|);
    }
  }
}
