/** A reader of the VS_VERSIONINFO layout, which aligns to four bytes counted from the start of the
    resource, and the proof that it gets back every block tree the writer emits. */
module VersionReader {
  import opened Bytes
  import opened Options
  import opened Sequences
  import opened VersionBlock

  // ---------------------------------------------------------------------------
  // The reader.

  /** The key: UTF-16 units up to a NUL; also where the NUL ends. */
  function ReadKey(b: seq<Byte>, at: nat, end: nat): (r: Option<(Utf16, nat)>)
    requires end <= |b|
    ensures r.Some? ==> at + 2 <= r.value.1 <= end
    decreases |b| + 2 - at
  {
    if at + 2 > end then None
    else if Read16(b, at) == 0 then Some(([], at + 2))
    else
      match ReadKey(b, at + 2, end)
      case None => None
      case Some(rest) => Some(([Read16(b, at)] + rest.0, rest.1))
  }

  /** Where the next part starts: at a multiple of four, unless the enclosing block ends before that
      because its length leaves out the padding behind its last part. */
  function NextAt(at: nat, end: nat): (next: nat)
    requires at <= end
    ensures at <= next <= end
  {
    if Align(at) <= end then Align(at) else end
  }

  /** One block, and where it ends. Text values are counted in 16-bit units, others in bytes. */
  function ReadBlock(b: seq<Byte>, at: nat, end: nat): (r: Option<(Block, nat)>)
    requires at <= end <= |b|
    ensures r.Some? ==> at < r.value.1 <= end
    decreases end - at, 0
  {
    if at + 8 > end then None
    else
      var total, valueLength, kind := Read16(b, at), Read16(b, at + 2), Read16(b, at + 4);
      if total < 8 || at + total > end then None
      else
        match ReadKey(b, at + 6, at + total)
        case None => None
        case Some(key) =>
          var valueAt := NextAt(key.1, at + total);
          var valueEnd := valueAt + if kind == 1 then 2 * valueLength else valueLength;
          if valueEnd > at + total then None
          else
            match ReadBlocks(b, NextAt(valueEnd, at + total), at + total)
            case None => None
            case Some(children) => Some((Block(key.0, kind, b[valueAt..valueEnd], children), at + total))
  }

  /** The blocks up to `end`, each starting at the next multiple of four. */
  function ReadBlocks(b: seq<Byte>, at: nat, end: nat): Option<seq<Block>>
    requires at <= end <= |b|
    decreases end - at, 1
  {
    if at == end then Some([])
    else
      match ReadBlock(b, at, end)
      case None => None
      case Some(first) =>
        match ReadBlocks(b, NextAt(first.1, end), end)
        case None => None
        case Some(rest) => Some([first.0] + rest)
  }

  // ---------------------------------------------------------------------------
  // Which trees round-trip.

  /** Keys are well-formed and NUL-free; a text value is a whole number of units. */
  predicate Readable(t: Block)
    decreases t, 0
  {
    WellFormed(t.key) && 0 !in t.key && (t.kind == 1 ==> |t.value| % 2 == 0) && AllReadable(t.children)
  }

  predicate AllReadable(ts: seq<Block>)
    decreases ts, 1
  {
    forall i | 0 <= i < |ts| :: Readable(ts[i])
  }

  // ---------------------------------------------------------------------------
  // Sizes.

  lemma {:induction false} EncodeAllElements(ts: seq<Block>)
    requires EncodeAll(ts).Some?
    ensures forall i :: 0 <= i < |ts| ==> Encode(ts[i]) == Some(EncodeAll(ts).value[i])
  {
    if ts != [] {
      EncodeAllElements(ts[..|ts| - 1]);
    }
  }

  /** What an encoded block consists of. */
  lemma EncodeShape(t: Block) returns (rest: seq<Byte>, children: seq<seq<Byte>>)
    requires Encode(t).Some?
    ensures EncodeAll(t.children) == Some(children)
    ensures rest == Rest(t.key, t.kind, t.value, ValueLength(t.kind, t.value), children) && |rest| + 2 < 0x1_0000
    ensures Encode(t).value == LE16(|rest| + 2) + rest
    ensures |Encode(t).value| == ChildrenStart(|t.key|, |t.value|) + |Flatten(children)|
  {
    children := EncodeAll(t.children).value;
    rest := Rest(t.key, t.kind, t.value, ValueLength(t.kind, t.value), children);
  }

  lemma EncodedSize(t: Block)
    requires Encode(t).Some?
    ensures EncodeAll(t.children).Some? && ChildrenStart(|t.key|, |t.value|) % 4 == 0
    ensures |Encode(t).value| == ChildrenStart(|t.key|, |t.value|) + |Flatten(EncodeAll(t.children).value)|
  {
    AlignMeans(ValueStart(|t.key|) + |t.value|);
    var _, _ := EncodeShape(t);
  }

  /** Every encoded block is a whole number of 32-bit words. */
  lemma {:induction false} EncodedAligned(t: Block)
    requires Encode(t).Some?
    ensures |Encode(t).value| % 4 == 0
    decreases t, 0
  {
    EncodedSize(t);
    AllEncodedAligned(t.children);
    SumAligned(ChildrenStart(|t.key|, |t.value|), |Flatten(EncodeAll(t.children).value)|);
  }

  lemma {:induction false} AllEncodedAligned(ts: seq<Block>)
    requires EncodeAll(ts).Some?
    ensures |Flatten(EncodeAll(ts).value)| % 4 == 0
    decreases ts, 1
  {
    if ts != [] {
      var n := |ts| - 1;
      AllEncodedAligned(ts[..n]);
      EncodedAligned(ts[n]);
      FlattenMore(EncodeAll(ts[..n]).value, Encode(ts[n]).value);
      SumAligned(|Flatten(EncodeAll(ts[..n]).value)|, |Encode(ts[n]).value|);
    }
  }

  lemma HeaderKey(key: Utf16, kind: UInt16, valueLength: UInt16)
    ensures Header(key, kind, valueLength)[4..4 + 2 * (|key| + 1)] == Units(Sanitize(key) + [0])
  {
    SanitizeWithTail(key, 0);
    var k := GetBytes(key + [0]);
    assert Header(key, kind, valueLength)[4..4 + |k|] == k;
  }

  lemma SumAligned(a: nat, b: nat)
    requires a % 4 == 0 && b % 4 == 0
    ensures (a + b) % 4 == 0
  {}

  /** The first 16-bit field of an encoded block is its length, and the unchecked cast of the value
      length lost nothing, because the checked total bounds it. */
  lemma LengthsFit(t: Block)
    requires Encode(t).Some?
    ensures var e := Encode(t).value;
      && |e| >= 8 && Read16(e, 0) == |e|
      && Read16(e, 2) == ValueLength(t.kind, t.value)
      && Read16(e, 4) == t.kind
  {
    var rest, children := EncodeShape(t);
    RestFields(t.key, t.kind, t.value, ValueLength(t.kind, t.value), children);
  }

  lemma RestFields(key: Utf16, kind: UInt16, value: seq<Byte>, valueLength: UInt16, children: seq<seq<Byte>>)
    requires |Rest(key, kind, value, valueLength, children)| + 2 < 0x1_0000
    ensures var rest := Rest(key, kind, value, valueLength, children);
      var e := LE16(|rest| + 2) + rest;
      |e| >= 8 && Read16(e, 0) == |e| && Read16(e, 2) == valueLength && Read16(e, 4) == kind
  {
    var rest := Rest(key, kind, value, valueLength, children);
    var header, padded := Header(key, kind, valueLength), PaddedValue(value, ValueStart(|key|));
    var name, pad := GetBytes(key + [0]), Zeros(ValueStart(|key|) - (6 + 2 * (|key| + 1)));
    Associative(LE16(valueLength) + LE16(kind), name, pad);
    Associative(header, padded, Flatten(children));
    LeadingFields(|rest| + 2, valueLength, kind, name + pad, padded + Flatten(children));
  }

  lemma LeadingFields(size: UInt16, valueLength: UInt16, kind: UInt16, key: seq<Byte>, tail: seq<Byte>)
    requires |key| >= 2
    ensures var e := LE16(size) + (LE16(valueLength) + LE16(kind) + key + tail);
      |e| >= 8 && Read16(e, 0) == size && Read16(e, 2) == valueLength && Read16(e, 4) == kind
  {
    var e := LE16(size) + (LE16(valueLength) + LE16(kind) + key + tail);
    assert e[0..2] == LE16(size) && e[2..4] == LE16(valueLength) && e[4..6] == LE16(kind);
    Reads16(e, 0, size);
    Reads16(e, 2, valueLength);
    Reads16(e, 4, kind);
  }

  // ---------------------------------------------------------------------------
  // Reading a slice of a longer resource.

  lemma SubSlice(b: seq<Byte>, at: nat, end: nat, lo: nat, hi: nat)
    requires at <= end <= |b| && lo <= hi <= end - at
    ensures b[at..end][lo..hi] == b[at + lo..at + hi]
  {
    var x, y := b[at..end][lo..hi], b[at + lo..at + hi];
    assert |x| == |y|;
    assert forall i :: 0 <= i < |x| ==> x[i] == y[i];
  }

  lemma ReadInSlice(b: seq<Byte>, at: nat, e: seq<Byte>, k: nat)
    requires at + |e| <= |b| && b[at..at + |e|] == e && k + 2 <= |e|
    ensures Read16(b, at + k) == Read16(e, k)
  {
    assert b[at + k] == b[at..at + |e|][k] && b[at + k + 1] == b[at..at + |e|][k + 1];
  }

  /** The parts of an encoded block: key, value and children at their offsets. */
  lemma Parts(t: Block) returns (children: seq<Byte>)
    requires Encode(t).Some?
    ensures EncodeAll(t.children).Some? && children == Flatten(EncodeAll(t.children).value)
    ensures var e := Encode(t).value;
      var n := |t.key|;
      && |e| == ChildrenStart(n, |t.value|) + |children|
      && 6 + 2 * (n + 1) <= |e| && e[6..6 + 2 * (n + 1)] == Units(Sanitize(t.key) + [0])
      && e[ValueStart(n)..ValueStart(n) + |t.value|] == t.value
      && e[ChildrenStart(n, |t.value|)..] == children
  {
    var rest, parts := EncodeShape(t);
    children := Flatten(parts);
    var e, n := Encode(t).value, |t.key|;
    var header := Header(t.key, t.kind, ValueLength(t.kind, t.value));
    var value := PaddedValue(t.value, ValueStart(n));
    HeaderKey(t.key, t.kind, ValueLength(t.kind, t.value));
    Slices(LE16(|rest| + 2), header, value, children, ValueStart(n), ChildrenStart(n, |t.value|));
    SubSlice(e, 2, ValueStart(n), 4, 4 + 2 * (n + 1));
    SubSlice(e, ValueStart(n), ChildrenStart(n, |t.value|), 0, |t.value|);
    assert value[0..|t.value|] == t.value;
  }

  /** The four stretches of a block, cut apart. */
  lemma Slices(size: seq<Byte>, header: seq<Byte>, value: seq<Byte>, children: seq<Byte>, valueAt: nat, childrenAt: nat)
    requires |size| == 2 && |header| + 2 == valueAt && |value| + valueAt == childrenAt
    ensures var e := size + (header + value + children);
            e[2..valueAt] == header && e[valueAt..childrenAt] == value && e[childrenAt..] == children
  {}

  lemma {:induction false} ReadsKey(b: seq<Byte>, at: nat, keyEnd: nat, end: nat, key: Utf16)
    requires at + 2 * (|key| + 1) == keyEnd <= end <= |b|
    requires b[at..keyEnd] == Units(key + [0]) && 0 !in key
    ensures ReadKey(b, at, end) == Some((key, keyEnd))
    decreases |key|
  {
    var s := key + [0];
    var u := Units(s);
    assert u == LE16(s[0]) + Units(s[1..]);
    assert b[at..at + 2] == b[at..keyEnd][..2] == LE16(s[0]);
    Reads16(b, at, s[0]);
    if key != [] {
      assert s[1..] == key[1..] + [0];
      assert b[at + 2..keyEnd] == b[at..keyEnd][2..] == Units(key[1..] + [0]);
      ReadsKey(b, at + 2, keyEnd, end, key[1..]);
      assert key == [key[0]] + key[1..];
    }
  }

  // ---------------------------------------------------------------------------
  // The round trip.

  /** Where the parts of a block sit in the resource, aligned from the start of the resource. */
  datatype Offsets = Offsets(at: nat, keyEnd: nat, valueAt: nat, valueEnd: nat, childrenAt: nat, end: nat)

  ghost predicate LaidOut(b: seq<Byte>, o: Offsets, t: Block) {
    && o.at + 8 <= o.end <= |b| && o.at + 6 <= o.keyEnd <= o.valueAt <= o.valueEnd <= o.childrenAt <= o.end
    && o.at < o.childrenAt && o.valueAt == Align(o.keyEnd) && o.childrenAt == Align(o.valueEnd)
    && Read16(b, o.at) == o.end - o.at
    && Read16(b, o.at + 2) == ValueLength(t.kind, t.value)
    && Read16(b, o.at + 4) == t.kind
    && o.valueEnd == o.valueAt + |t.value|
    && b[o.valueAt..o.valueEnd] == t.value
  }

  /** The reader's steps, put together. */
  lemma ReadsLayout(b: seq<Byte>, o: Offsets, at: nat, next: nat, end: nat, t: Block)
    requires LaidOut(b, o, t) && o.at == at && o.end == next <= end <= |b|
    requires t.kind == 1 ==> |t.value| % 2 == 0
    requires ReadKey(b, at + 6, next) == Some((t.key, o.keyEnd))
    requires ReadBlocks(b, o.childrenAt, next) == Some(t.children)
    ensures ReadBlock(b, at, end) == Some((t, next))
  {
    assert Read16(b, at) == next - at && at + 8 <= end;
    var length := ValueLength(t.kind, t.value);
    assert o.valueAt + (if t.kind == 1 then 2 * length else length) == o.valueEnd;
  }

  lemma ReadsFields(t: Block, b: seq<Byte>, at: nat)
    requires Encode(t).Some?
    requires at + |Encode(t).value| <= |b| && b[at..at + |Encode(t).value|] == Encode(t).value
    ensures |Encode(t).value| >= 8
    ensures Read16(b, at) == |Encode(t).value| && Read16(b, at + 2) == ValueLength(t.kind, t.value) &&
              Read16(b, at + 4) == t.kind
  {
    LengthsFit(t);
    ReadInSlice(b, at, Encode(t).value, 0);
    ReadInSlice(b, at, Encode(t).value, 2);
    ReadInSlice(b, at, Encode(t).value, 4);
  }

  lemma OffsetsOf(n: nat, valueSize: nat, at: nat, next: nat) returns (o: Offsets)
    requires at % 4 == 0
    ensures o.at == at && o.keyEnd == at + (6 + 2 * (n + 1)) && o.end == next
    ensures o.valueAt == at + ValueStart(n) == Align(o.keyEnd) && o.keyEnd <= o.valueAt
    ensures o.valueEnd == at + (ValueStart(n) + valueSize)
    ensures o.childrenAt == at + ChildrenStart(n, valueSize) == Align(o.valueEnd) && o.valueEnd <= o.childrenAt
    ensures o.childrenAt % 4 == 0
  {
    var keyEnd, valueEnd := at + (6 + 2 * (n + 1)), at + (ValueStart(n) + valueSize);
    AlignShift(at, 6 + 2 * (n + 1));
    AlignShift(at, ValueStart(n) + valueSize);
    AlignMeans(valueEnd);
    o := Offsets(at, keyEnd, Align(keyEnd), valueEnd, Align(valueEnd), next);
  }

  /** An encoded block inside a longer resource is laid out there, with its children behind. */
  lemma EncodedIsLaidOut(t: Block, b: seq<Byte>, at: nat, next: nat) returns (o: Offsets)
    requires Encode(t).Some? && WellFormed(t.key) && at % 4 == 0
    requires at + |Encode(t).value| == next <= |b| && b[at..next] == Encode(t).value
    ensures LaidOut(b, o, t) && o.at == at && o.end == next && o.childrenAt % 4 == 0
    ensures o.keyEnd == at + 6 + 2 * (|t.key| + 1) && b[at + 6..o.keyEnd] == Units(t.key + [0])
    ensures o.childrenAt == at + ChildrenStart(|t.key|, |t.value|)
  {
    var e, n := Encode(t).value, |t.key|;
    o := OffsetsOf(n, |t.value|, at, next);
    ReadsFields(t, b, at);
    var _ := Parts(t);
    PartInPlace(b, at, e, 6, 6 + 2 * (n + 1), at + 6, o.keyEnd);
    PartInPlace(b, at, e, ValueStart(n), ValueStart(n) + |t.value|, o.valueAt, o.valueEnd);
  }

  lemma PartInPlace(b: seq<Byte>, at: nat, e: seq<Byte>, lo: nat, hi: nat, from: nat, to: nat)
    requires at + |e| <= |b| && b[at..at + |e|] == e && lo <= hi <= |e|
    requires from == at + lo && to == at + hi
    ensures b[from..to] == e[lo..hi] && (hi == |e| ==> b[from..to] == e[lo..])
  {
    SubSlice(b, at, at + |e|, lo, hi);
  }

  /** The children fill the rest of the block, from an aligned offset on. */
  lemma ChildrenFollow(t: Block, b: seq<Byte>, at: nat, next: nat)
    requires Encode(t).Some? && at % 4 == 0
    requires at + |Encode(t).value| == next <= |b| && b[at..next] == Encode(t).value
    ensures var childrenAt := at + ChildrenStart(|t.key|, |t.value|);
      && EncodeAll(t.children).Some? && childrenAt % 4 == 0 && childrenAt <= next
      && b[childrenAt..next] == Flatten(EncodeAll(t.children).value)
  {
    EncodedSize(t);
    SumAligned(at, ChildrenStart(|t.key|, |t.value|));
    var e, start := Encode(t).value, ChildrenStart(|t.key|, |t.value|);
    var _ := Parts(t);
    PartInPlace(b, at, e, start, |e|, at + start, next);
  }

  /** Read in place, at any aligned offset of a longer resource, an encoded block gives its tree back. */
  lemma {:induction false} ReadsBack(t: Block, b: seq<Byte>, at: nat, next: nat, end: nat)
    requires Encode(t).Some? && Readable(t) && at % 4 == 0
    requires at + |Encode(t).value| == next <= end <= |b| && b[at..next] == Encode(t).value
    ensures ReadBlock(b, at, end) == Some((t, next))
    decreases t, 0
  {
    var o := EncodedIsLaidOut(t, b, at, next);
    ReadsKey(b, at + 6, o.keyEnd, next, t.key);
    ChildrenFollow(t, b, at, next);
    ReadsBackAll(t.children, b, o.childrenAt, next);
    ReadsLayout(b, o, at, next, end, t);
  }

  lemma {:induction false} ReadsBackAll(ts: seq<Block>, b: seq<Byte>, at: nat, end: nat)
    requires EncodeAll(ts).Some? && AllReadable(ts) && at % 4 == 0
    requires at <= end <= |b| && b[at..end] == Flatten(EncodeAll(ts).value)
    ensures ReadBlocks(b, at, end) == Some(ts)
    decreases ts, 1
  {
    if ts == [] {
      assert at == end;
    } else {
      var next := SplitFirst(ts, b, at, end);
      ReadsBack(ts[0], b, at, next, end);
      ReadsBackAll(ts[1..], b, next, end);
      ReadBlocksSteps(ts, b, at, end, next);
    }
  }

  /** The first child and the rest occupy consecutive stretches. */
  lemma SplitFirst(ts: seq<Block>, b: seq<Byte>, at: nat, end: nat) returns (next: nat)
    requires ts != [] && EncodeAll(ts).Some? && at % 4 == 0
    requires at <= end <= |b| && b[at..end] == Flatten(EncodeAll(ts).value)
    ensures Encode(ts[0]).Some? && next == at + |Encode(ts[0]).value| && at < next <= end && next % 4 == 0
    ensures b[at..next] == Encode(ts[0]).value
    ensures EncodeAll(ts[1..]).Some? && b[next..end] == Flatten(EncodeAll(ts[1..]).value)
  {
    var first := SplitEncoding(ts);
    next := at + |first|;
    SumAligned(at, |first|);
    SplitStretch(b, at, next, end, first, Flatten(EncodeAll(ts[1..]).value));
  }

  lemma SplitEncoding(ts: seq<Block>) returns (first: seq<Byte>)
    requires ts != [] && EncodeAll(ts).Some?
    ensures Encode(ts[0]) == Some(first) && first != [] && |first| % 4 == 0
    ensures EncodeAll(ts[1..]).Some? && Flatten(EncodeAll(ts).value) == first + Flatten(EncodeAll(ts[1..]).value)
  {
    EncodeAllElements(ts);
    TailEncodes(ts);
    FlattenFromFront(EncodeAll(ts).value);
    first := EncodeAll(ts).value[0];
    EncodedAligned(ts[0]);
    LengthsFit(ts[0]);
  }

  lemma SplitStretch(b: seq<Byte>, at: nat, next: nat, end: nat, first: seq<Byte>, rest: seq<Byte>)
    requires at <= end <= |b| && b[at..end] == first + rest && next == at + |first|
    ensures next <= end && b[at..next] == first && b[next..end] == rest
  {
    SubSlice(b, at, end, 0, |first|);
    SubSlice(b, at, end, |first|, end - at);
  }

  lemma AlignOfAligned(n: nat)
    requires n % 4 == 0
    ensures Align(n) == n
  {
    AlignShift(n, 0);
  }

  lemma ReadBlocksSteps(ts: seq<Block>, b: seq<Byte>, at: nat, end: nat, next: nat)
    requires at < next <= end <= |b| && ts != [] && next % 4 == 0
    requires ReadBlock(b, at, end) == Some((ts[0], next)) && ReadBlocks(b, next, end) == Some(ts[1..])
    ensures ReadBlocks(b, at, end) == Some(ts)
  {
    AlignOfAligned(next);
    assert ts == [ts[0]] + ts[1..];
  }

  lemma {:induction false} FlattenFromFront(parts: seq<seq<Byte>>)
    requires parts != []
    ensures Flatten(parts) == parts[0] + Flatten(parts[1..])
  {
    if |parts| > 1 {
      var n := |parts| - 1;
      FlattenFromFront(parts[..n]);
      assert parts[..n][1..] == parts[1..][..n - 1];
    }
  }

  lemma {:induction false} TailEncodes(ts: seq<Block>)
    requires ts != [] && EncodeAll(ts).Some?
    ensures EncodeAll(ts[1..]) == Some(EncodeAll(ts).value[1..])
  {
    if |ts| > 1 {
      var n := |ts| - 1;
      TailEncodes(ts[..n]);
      assert ts[..n][1..] == ts[1..][..n - 1];
      var front, last := EncodeAll(ts[..n]).value, Encode(ts[n]).value;
      assert EncodeAll(ts).value == front + [last];
      assert ts[1..][n - 1] == ts[n];
      assert EncodeAll(ts[1..]) == Some(front[1..] + [last]);
      assert (front + [last])[1..] == front[1..] + [last];
    } else {
      assert ts[..0] == [] && ts[1..] == [];
      assert EncodeAll(ts).value[1..] == [] && EncodeAll(ts[1..]) == Some([]);
    }
  }

  /** Whatever `BuildBlock` returns for a readable tree, the reader recovers: keys, types, values and
      the children in order. */
  lemma RoundTrip(t: Block)
    requires Readable(t) && Encode(t).Some?
    ensures ReadBlock(Encode(t).value, 0, |Encode(t).value|) == Some((t, |Encode(t).value|))
  {
    var e := Encode(t).value;
    assert e[0..|e|] == e;
    ReadsBack(t, e, 0, |e|, |e|);
  }

  /** The reader does not need the trailing padding in the length: a childless block cut off behind its
      value, with the shorter length, gives the same tree. */
  lemma UnpaddedReads(t: Block, n: nat)
    requires Readable(t) && Encode(t).Some? && t.children == []
    requires n == ValueStart(|t.key|) + |t.value|
    ensures n <= |Encode(t).value| < 0x1_0000
    ensures ReadBlock(LE16(n) + Encode(t).value[2..n], 0, n) == Some((t, n))
  {
    var e, keyEnd, valueAt := Encode(t).value, 6 + 2 * (|t.key| + 1), ValueStart(|t.key|);
    var _, _ := EncodeShape(t);
    var _ := Parts(t);
    LengthsFit(t);
    var b := LE16(n) + e[2..n];
    CutOff(b, e, n, 6, keyEnd);
    CutOff(b, e, n, valueAt, n);
    ReadsKey(b, 6, keyEnd, n, t.key);
    UnpaddedLayout(b, n, keyEnd, t);
  }

  lemma CutOff(b: seq<Byte>, e: seq<Byte>, n: UInt16, lo: nat, hi: nat)
    requires 6 <= n <= |e| && 2 <= lo <= hi <= n && b == LE16(n) + e[2..n]
    ensures Read16(b, 0) == n && Read16(b, 2) == Read16(e, 2) && Read16(b, 4) == Read16(e, 4)
    ensures b[lo..hi] == e[lo..hi]
  {
    assert forall i :: 2 <= i < n ==> b[i] == e[i];
    assert b[0..2] == LE16(n);
    Reads16(b, 0, n);
  }

  lemma UnpaddedLayout(b: seq<Byte>, n: nat, keyEnd: nat, t: Block)
    requires |b| == n && t.children == [] && (t.kind == 1 ==> |t.value| % 2 == 0)
    requires 8 <= keyEnd <= Align(keyEnd) <= n == Align(keyEnd) + |t.value|
    requires Read16(b, 0) == n && Read16(b, 2) == ValueLength(t.kind, t.value) && Read16(b, 4) == t.kind
    requires ReadKey(b, 6, n) == Some((t.key, keyEnd)) && b[Align(keyEnd)..n] == t.value
    ensures ReadBlock(b, 0, n) == Some((t, n))
  {
    assert ReadBlocks(b, n, n) == Some([]);
  }

  // ---------------------------------------------------------------------------
  // Absolute alignment.

  /** The block and all its descendants, each with the offset it is written at. */
  function Places(t: Block, at: nat): seq<(nat, Block)>
    requires Encode(t).Some?
    decreases t, 0
  {
    [(at, t)] + PlacesAll(t.children, at + ChildrenStart(|t.key|, |t.value|))
  }

  function PlacesAll(ts: seq<Block>, at: nat): seq<(nat, Block)>
    requires EncodeAll(ts).Some?
    decreases ts, 1
  {
    if ts == [] then []
    else
      EncodeAllElements(ts);
      TailEncodes(ts);
      Places(ts[0], at) + PlacesAll(ts[1..], at + |Encode(ts[0]).value|)
  }

  /** The block stands at the place, and both it and its value start at a multiple of four. */
  ghost predicate WellPlaced(b: seq<Byte>, place: (nat, Block)) {
    && Encode(place.1).Some?
    && place.0 % 4 == 0 && (place.0 + ValueStart(|place.1.key|)) % 4 == 0
    && place.0 + |Encode(place.1).value| <= |b|
    && b[place.0..place.0 + |Encode(place.1).value|] == Encode(place.1).value
  }

  /** Although each block pads only from its own start, every block and every value of an encoded
      tree starts at a multiple of four of the whole resource. */
  lemma {:induction false} AllWellPlaced(t: Block, b: seq<Byte>, at: nat, next: nat)
    requires Encode(t).Some? && at % 4 == 0
    requires at + |Encode(t).value| == next <= |b| && b[at..next] == Encode(t).value
    ensures forall place :: place in Places(t, at) ==> WellPlaced(b, place)
    decreases t, 0
  {
    SelfWellPlaced(t, b, at, next);
    var childrenAt := at + ChildrenStart(|t.key|, |t.value|);
    ChildrenFollow(t, b, at, next);
    ChildrenWellPlaced(t.children, b, childrenAt, next);
    assert Places(t, at) == [(at, t)] + PlacesAll(t.children, childrenAt);
  }

  lemma SelfWellPlaced(t: Block, b: seq<Byte>, at: nat, next: nat)
    requires Encode(t).Some? && at % 4 == 0
    requires at + |Encode(t).value| == next <= |b| && b[at..next] == Encode(t).value
    ensures WellPlaced(b, (at, t))
  {
    AlignMeans(6 + 2 * (|t.key| + 1));
    SumAligned(at, ValueStart(|t.key|));
  }

  lemma {:induction false} ChildrenWellPlaced(ts: seq<Block>, b: seq<Byte>, at: nat, end: nat)
    requires EncodeAll(ts).Some? && at % 4 == 0
    requires at <= end <= |b| && b[at..end] == Flatten(EncodeAll(ts).value)
    ensures forall place :: place in PlacesAll(ts, at) ==> WellPlaced(b, place)
    decreases ts, 1
  {
    if ts != [] {
      var next := SplitFirst(ts, b, at, end);
      AllWellPlaced(ts[0], b, at, next);
      ChildrenWellPlaced(ts[1..], b, next, end);
    }
  }
}
