/** Little-endian integers, UTF-16 bytes and a writable memory stream. */
module Bytes {

  type Byte = x: int | 0 <= x < 0x100

  type UInt16 = x: int | 0 <= x < 0x1_0000

  type UInt32 = x: int | 0 <= x < 0x1_0000_0000

  function LE16(x: UInt16): (b: seq<Byte>)
    ensures |b| == 2
  {
    [x % 0x100, x / 0x100]
  }

  function LE32(x: UInt32): (b: seq<Byte>)
    ensures |b| == 4
  {
    LE16(x % 0x1_0000) + LE16(x / 0x1_0000)
  }

  function Read16(b: seq<Byte>, at: nat): UInt16
    requires at + 2 <= |b|
  {
    var low: int, high: int := b[at], b[at + 1];
    low + 0x100 * high
  }

  function Read32(b: seq<Byte>, at: nat): UInt32
    requires at + 4 <= |b|
  {
    var low: int, high: int := Read16(b, at), Read16(b, at + 2);
    low + 0x1_0000 * high
  }

  lemma Reads16(b: seq<Byte>, at: nat, x: UInt16)
    requires at + 2 <= |b| && b[at..at + 2] == LE16(x)
    ensures Read16(b, at) == x
  {
    assert b[at] == b[at..at + 2][0] && b[at + 1] == b[at..at + 2][1];
  }

  lemma Reads32(b: seq<Byte>, at: nat, x: UInt32)
    requires at + 4 <= |b| && b[at..at + 4] == LE32(x)
    ensures Read32(b, at) == x
  {
    assert b[at..at + 2] == b[at..at + 4][..2] == LE16(x % 0x1_0000);
    assert b[at + 2..at + 4] == b[at..at + 4][2..] == LE16(x / 0x1_0000);
    Reads16(b, at, x % 0x1_0000);
    Reads16(b, at + 2, x / 0x1_0000);
  }

  /** The two halves packed as `(high << 16) | low` come apart again. */
  lemma PackedHalves(high: UInt16, low: UInt16)
    ensures (high * 0x1_0000 + low) / 0x1_0000 == high && (high * 0x1_0000 + low) % 0x1_0000 == low
    ensures high * 0x1_0000 + low < 0x1_0000_0000
  {}

  // ---------------------------------------------------------------------------
  // UTF-16.

  type Utf16 = seq<UInt16>

  predicate IsHigh(u: UInt16) { 0xD800 <= u < 0xDC00 }

  predicate IsLow(u: UInt16) { 0xDC00 <= u < 0xE000 }

  /** `Encoding.Unicode` writes the replacement character for a surrogate without its partner. */
  function Sanitize(s: Utf16): (r: Utf16)
    ensures |r| == |s|
  {
    if s == [] then []
    else if IsHigh(s[0]) && |s| > 1 && IsLow(s[1]) then s[..2] + Sanitize(s[2..])
    else [if IsHigh(s[0]) || IsLow(s[0]) then 0xFFFD else s[0]] + Sanitize(s[1..])
  }

  /** Well-formed UTF-16: every surrogate has its partner. */
  predicate WellFormed(s: Utf16) {
    Sanitize(s) == s
  }

  function Units(s: Utf16): (b: seq<Byte>)
    ensures |b| == 2 * |s|
  {
    if s == [] then [] else LE16(s[0]) + Units(s[1..])
  }

  /** `Encoding.Unicode.GetBytes`. */
  function GetBytes(s: Utf16): (b: seq<Byte>)
    ensures |b| == 2 * |s|
  {
    Units(Sanitize(s))
  }

  /** Appending a unit that is no surrogate, such as NUL, disturbs no surrogate pair. */
  lemma {:induction false} SanitizeWithTail(s: Utf16, z: UInt16)
    requires !IsHigh(z) && !IsLow(z)
    ensures Sanitize(s + [z]) == Sanitize(s) + [z]
  {
    var t := s + [z];
    if s == [] {
      assert t[1..] == [];
    } else if IsHigh(s[0]) && |s| > 1 && IsLow(s[1]) {
      assert t[2..] == s[2..] + [z] && t[..2] == s[..2];
      SanitizeWithTail(s[2..], z);
      assert Sanitize(t) == t[..2] + Sanitize(t[2..]);
    } else {
      assert t[1..] == s[1..] + [z];
      SanitizeWithTail(s[1..], z);
      assert Sanitize(t) == [if IsHigh(s[0]) || IsLow(s[0]) then 0xFFFD else s[0]] + Sanitize(t[1..]);
    }
  }

  // ---------------------------------------------------------------------------
  // MemoryStream.

  function Zeros(n: nat): (b: seq<Byte>)
    ensures |b| == n
  {
    seq(n, _ => 0)
  }

  /** How many zero bytes take a position to a multiple of four. */
  function PadSize(position: nat): nat {
    if position % 4 == 0 then 0 else 4 - position % 4
  }

  class MemoryStream {
    var data: seq<Byte>
    var position: nat

    ghost predicate Valid()
      reads this
    {
      position <= |data|
    }

    ghost predicate AtEnd()
      reads this
    {
      position == |data|
    }

    constructor ()
      ensures Valid() && AtEnd() && data == []
    {
      data, position := [], 0;
    }

    /** Overwrites from the position on and moves past what was written. */
    method Write(bytes: seq<Byte>)
      requires Valid()
      modifies this
      ensures Valid() && position == old(position) + |bytes|
      ensures data == old(data)[..old(position)] + bytes +
                      (if position <= |old(data)| then old(data)[position..] else [])
      ensures old(AtEnd()) ==> AtEnd() && data == old(data) + bytes
    {
      var end := position + |bytes|;
      data := data[..position] + bytes + (if end <= |data| then data[end..] else []);
      position := end;
    }

    /** `PadToDword`. */
    method PadToDword()
      requires AtEnd()
      modifies this
      ensures AtEnd() && data == old(data) + Zeros(PadSize(|old(data)|))
    {
      ghost var n := 0;
      while position % 4 != 0
        invariant AtEnd() && n <= PadSize(|old(data)|) && data == old(data) + Zeros(n)
        decreases PadSize(|old(data)|) - n
      {
        Write([0]);
        n := n + 1;
      }
    }
  }
}
