/** `BuildBlock`: one node of a Win32 version resource, written through a stream with its length
    patched in at the end, and the layout that results. */
module VersionBlock {
  import opened Bytes
  import opened Options
  import opened Sequences

  // ---------------------------------------------------------------------------
  // Layout.

  /** The next multiple of four. */
  function Align(n: nat): (m: nat)
    ensures m >= n
  {
    if n == 0 then 0 else if n <= 4 then 4 else 4 + Align(n - 4)
  }

  lemma {:induction false} AlignMeans(n: nat)
    ensures Align(n) == n + PadSize(n) && Align(n) % 4 == 0 && Align(n) < n + 4
  {
    if n > 4 {
      AlignMeans(n - 4);
    }
  }

  /** Alignment counted from an aligned start agrees with alignment counted from zero. */
  lemma {:induction false} AlignShift(at: nat, n: nat)
    requires at % 4 == 0
    ensures Align(at + n) == at + Align(n)
  {
    if at > 0 {
      AlignShift(at - 4, n);
    }
  }

  /** Where the value of a block with a key of `n` units starts. */
  function ValueStart(n: nat): nat { Align(6 + 2 * (n + 1)) }

  /** Where the children start. */
  function ChildrenStart(n: nat, valueSize: nat): nat { Align(ValueStart(n) + valueSize) }

  /** The value length, type and key, padded. */
  function Header(key: Utf16, kind: UInt16, valueLength: int): (b: seq<Byte>)
    ensures |b| + 2 == ValueStart(|key|)
  {
    LE16(valueLength % 0x1_0000) + LE16(kind) + GetBytes(key + [0]) + Zeros(ValueStart(|key|) - (6 + 2 * (|key| + 1)))
  }

  /** The value, padded; `start` is where it begins. */
  function PaddedValue(value: seq<Byte>, start: nat): (b: seq<Byte>)
    ensures |b| + start == Align(start + |value|)
  {
    value + Zeros(Align(start + |value|) - (start + |value|))
  }

  /** Everything after the length field. */
  function Rest(key: Utf16, kind: UInt16, value: seq<Byte>, valueLength: int, children: seq<seq<Byte>>): (b: seq<Byte>)
    ensures |b| + 2 == ChildrenStart(|key|, |value|) + |Flatten(children)|
  {
    Header(key, kind, valueLength) + PaddedValue(value, ValueStart(|key|)) + Flatten(children)
  }

  /** The block, or nothing when its length does not fit the 16-bit field (an `OverflowException`). */
  function BlockBytes(key: Utf16, kind: UInt16, value: seq<Byte>, valueLength: int, children: seq<seq<Byte>>)
    : Option<seq<Byte>>
  {
    var rest := Rest(key, kind, value, valueLength, children);
    if |rest| + 2 < 0x1_0000 then Some(LE16(|rest| + 2) + rest) else None
  }

  /** The writes up to the first padding. */
  method WriteHeader(ms: MemoryStream, key: Utf16, kind: UInt16, valueLength: int)
    requires ms.AtEnd() && ms.data == []
    modifies ms
    ensures ms.AtEnd() && ms.data == LE16(0) + Header(key, kind, valueLength)
  {
    ms.Write(LE16(0));
    ms.Write(LE16(valueLength % 0x1_0000));
    ms.Write(LE16(kind));
    ms.Write(GetBytes(key + [0]));
    AlignMeans(|ms.data|);
    ms.PadToDword();
  }

  /** The value, the second padding and the children. */
  method WriteBody(ms: MemoryStream, valueBytes: seq<Byte>, children: seq<seq<Byte>>)
    requires ms.AtEnd()
    modifies ms
    ensures ms.AtEnd() && ms.data == old(ms.data) + PaddedValue(valueBytes, |old(ms.data)|) + Flatten(children)
  {
    if |valueBytes| > 0 {
      ms.Write(valueBytes);
    }
    AlignMeans(|ms.data|);
    ms.PadToDword();
    ghost var front := ms.data;
    assert front == old(ms.data) + PaddedValue(valueBytes, |old(ms.data)|);
    for i := 0 to |children|
      invariant ms.AtEnd() && ms.data == front + Flatten(children[..i])
    {
      assert children[..i + 1][..i] == children[..i];
      ms.Write(children[i]);
    }
    assert children[..|children|] == children;
  }

  method BuildBlock(key: Utf16, kind: UInt16, valueBytes: seq<Byte>, valueLength: int, children: seq<seq<Byte>>)
    returns (r: Option<seq<Byte>>)
    ensures r == BlockBytes(key, kind, valueBytes, valueLength, children)
  {
    ghost var rest := Rest(key, kind, valueBytes, valueLength, children);
    var ms := new MemoryStream();
    WriteHeader(ms, key, kind, valueLength);
    WriteBody(ms, valueBytes, children);
    assert ms.data == LE16(0) + rest;
    if |ms.data| >= 0x1_0000 {
      return None;
    }
    var totalLength := |ms.data|;
    ms.position := 0;
    ms.Write(LE16(totalLength));
    assert ms.data == LE16(totalLength) + rest;
    return Some(ms.data);
  }

  // ---------------------------------------------------------------------------
  // Block trees.

  datatype Block = Block(key: Utf16, kind: UInt16, value: seq<Byte>, children: seq<Block>)

  /** The value length a caller passes: bytes for binary values, UTF-16 units for text. */
  function ValueLength(kind: UInt16, value: seq<Byte>): nat {
    if kind == 1 then |value| / 2 else |value|
  }

  function Encode(t: Block): Option<seq<Byte>>
    decreases t, 0
  {
    match EncodeAll(t.children)
    case None => None
    case Some(children) => BlockBytes(t.key, t.kind, t.value, ValueLength(t.kind, t.value), children)
  }

  function EncodeAll(ts: seq<Block>): (r: Option<seq<seq<Byte>>>)
    ensures r.Some? ==> |r.value| == |ts|
    decreases ts, 1
  {
    if ts == [] then Some([])
    else
      match EncodeAll(ts[..|ts| - 1])
      case None => None
      case Some(front) =>
        match Encode(ts[|ts| - 1])
        case None => None
        case Some(last) => Some(front + [last])
  }
}
