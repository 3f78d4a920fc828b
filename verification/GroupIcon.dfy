/** `ApplyIconResource` and `BuildGroupIcon`: an .ico directory is decoded, the images are cut out and
    numbered, and a group directory naming them is encoded. */
module GroupIcon {
  import opened Bytes

  datatype IconDirEntry = IconDirEntry(width: Byte, height: Byte, colorCount: Byte, reserved: Byte, planes: UInt16,
                                       bitCount: UInt16, bytesInRes: UInt32, imageOffset: UInt32)

  /** The exceptions: a read past the end, a bad header, an image that does not lie in the file. */
  datatype IconError = EndOfStream | InvalidData | BadImage

  datatype Resources = Resources(images: seq<seq<Byte>>, group: seq<Byte>)

  datatype Outcome<+T> = Done(value: T) | Failed(error: IconError)

  // ---------------------------------------------------------------------------
  // The accepted files.

  predicate GoodHeader(b: seq<Byte>)
    requires |b| >= 6
  {
    Read16(b, 0) == 0 && Read16(b, 2) == 1 && Read16(b, 4) != 0
  }

  function Count(b: seq<Byte>): nat
    requires |b| >= 6
  {
    Read16(b, 4)
  }

  function EntryAt(i: nat): nat { 6 + 16 * i }

  predicate HasDirectory(b: seq<Byte>) {
    |b| >= 6 && GoodHeader(b) && EntryAt(Count(b)) <= |b|
  }

  function DecodeEntry(b: seq<Byte>, at: nat): IconDirEntry
    requires at + 16 <= |b|
  {
    IconDirEntry(b[at], b[at + 1], b[at + 2], b[at + 3], Read16(b, at + 4), Read16(b, at + 6), Read32(b, at + 8),
                 Read32(b, at + 12))
  }

  /** The image lies in the file, and its numbers survive the casts to a signed 32-bit integer. */
  predicate HasImage(b: seq<Byte>, e: IconDirEntry) {
    e.bytesInRes < 0x8000_0000 && e.imageOffset < 0x8000_0000 && e.imageOffset + e.bytesInRes <= |b|
  }

  predicate Accepted(b: seq<Byte>) {
    HasDirectory(b) && forall i :: 0 <= i < Count(b) ==> HasImage(b, DecodeEntry(b, EntryAt(i)))
  }

  // ---------------------------------------------------------------------------
  // The loops.

  method DecodeDirectory(b: seq<Byte>) returns (r: Outcome<seq<IconDirEntry>>)
    ensures r.Done? <==> HasDirectory(b)
    ensures r.Failed? ==> r.error == if |b| >= 6 && !GoodHeader(b) then InvalidData else EndOfStream
    ensures r.Done? ==> |r.value| == Count(b)
    ensures r.Done? ==> forall i :: 0 <= i < |r.value| ==> r.value[i] == DecodeEntry(b, EntryAt(i))
  {
    if |b| < 6 {
      return Failed(EndOfStream);
    }
    var reserved, kind, count := Read16(b, 0), Read16(b, 2), Read16(b, 4);
    if reserved != 0 || kind != 1 || count == 0 {
      return Failed(InvalidData);
    }
    var entries := [];
    var position := 6;
    for i := 0 to count
      invariant position == EntryAt(i) <= |b|
      invariant |entries| == i
      invariant forall k :: 0 <= k < i ==> EntryAt(k) + 16 <= |b| && entries[k] == DecodeEntry(b, EntryAt(k))
    {
      if position + 16 > |b| {
        return Failed(EndOfStream);
      }
      entries := entries + [DecodeEntry(b, position)];
      position := position + 16;
    }
    return Done(entries);
  }

  /** One entry of the group directory: the source entry without its offset, then the image id. */
  function GroupEntry(e: IconDirEntry, i: nat): (b: seq<Byte>)
    requires i < 0xFFFF
    ensures |b| == 14
  {
    [e.width, e.height, e.colorCount, e.reserved] + LE16(e.planes) + LE16(e.bitCount) + LE32(e.bytesInRes) + LE16(i + 1)
  }

  function GroupEntries(entries: seq<IconDirEntry>): (b: seq<Byte>)
    requires |entries| <= 0xFFFF
    ensures |b| == 14 * |entries|
  {
    if entries == [] then []
    else GroupEntries(entries[..|entries| - 1]) + GroupEntry(entries[|entries| - 1], |entries| - 1)
  }

  method WriteEntry(ms: MemoryStream, e: IconDirEntry, i: nat)
    requires i < 0xFFFF && ms.AtEnd()
    modifies ms
    ensures ms.AtEnd() && ms.data == old(ms.data) + GroupEntry(e, i)
  {
    ms.Write([e.width]);
    ms.Write([e.height]);
    ms.Write([e.colorCount]);
    ms.Write([e.reserved]);
    ms.Write(LE16(e.planes));
    ms.Write(LE16(e.bitCount));
    ms.Write(LE32(e.bytesInRes));
    ms.Write(LE16(i + 1));
  }

  /** The loop over the entries. */
  method WriteEntries(ms: MemoryStream, entries: seq<IconDirEntry>)
    requires |entries| <= 0xFFFF && ms.AtEnd()
    modifies ms
    ensures ms.AtEnd() && ms.data == old(ms.data) + GroupEntries(entries)
  {
    for i := 0 to |entries|
      invariant ms.AtEnd() && ms.data == old(ms.data) + GroupEntries(entries[..i])
    {
      assert entries[..i + 1][..i] == entries[..i];
      WriteEntry(ms, entries[i], i);
    }
    assert entries[..|entries|] == entries;
  }

  method BuildGroupIcon(entries: seq<IconDirEntry>) returns (b: seq<Byte>)
    requires |entries| <= 0xFFFF
    ensures b == LE16(0) + LE16(1) + LE16(|entries|) + GroupEntries(entries)
  {
    var ms := new MemoryStream();
    ms.Write(LE16(0));
    ms.Write(LE16(1));
    ms.Write(LE16(|entries|));
    WriteEntries(ms, entries);
    return ms.data;
  }

  method CutImages(b: seq<Byte>, entries: seq<IconDirEntry>) returns (r: Outcome<seq<seq<Byte>>>)
    ensures r.Done? <==> forall i :: 0 <= i < |entries| ==> HasImage(b, entries[i])
    ensures r.Failed? ==> r.error == BadImage
    ensures r.Done? ==> |r.value| == |entries|
    ensures r.Done? ==> forall i :: 0 <= i < |entries| ==>
              r.value[i] == b[entries[i].imageOffset..entries[i].imageOffset + entries[i].bytesInRes]
  {
    var images := [];
    for i := 0 to |entries|
      invariant |images| == i
      invariant forall k :: 0 <= k < i ==>
                  HasImage(b, entries[k]) &&
                    images[k] == b[entries[k].imageOffset..entries[k].imageOffset + entries[k].bytesInRes]
    {
      var e := entries[i];
      if !HasImage(b, e) {
        return Failed(BadImage);
      }
      images := images + [b[e.imageOffset..e.imageOffset + e.bytesInRes]];
    }
    return Done(images);
  }

  /** What the written resources are, byte for byte, in terms of the file. */
  ghost predicate Transcribes(b: seq<Byte>, r: Resources)
    requires Accepted(b)
  {
    var n := Count(b);
    && |r.images| == n && |r.group| == 6 + 14 * n
    && r.group[..6] == b[..6]
    && forall i :: 0 <= i < n ==> EntryTranscribed(b, r, i)
  }

  /** The group entry repeats twelve bytes of the directory entry and names image `i + 1`, and that
      image is the stretch of the file the directory entry points to. */
  ghost predicate EntryTranscribed(b: seq<Byte>, r: Resources, i: nat)
    requires Accepted(b) && i < Count(b) && |r.images| == Count(b) && |r.group| == 6 + 14 * Count(b)
  {
    var e := DecodeEntry(b, EntryAt(i));
    && r.group[6 + 14 * i..6 + 14 * i + 12] == b[EntryAt(i)..EntryAt(i) + 12]
    && r.group[6 + 14 * i + 12..6 + 14 * i + 14] == LE16(i + 1)
    && r.images[i] == b[e.imageOffset..e.imageOffset + e.bytesInRes]
  }

  lemma Rewrites16(b: seq<Byte>, at: nat)
    requires at + 2 <= |b|
    ensures LE16(Read16(b, at)) == b[at..at + 2]
  {}

  lemma Rewrites32(b: seq<Byte>, at: nat)
    requires at + 4 <= |b|
    ensures LE32(Read32(b, at)) == b[at..at + 4]
  {
    Rewrites16(b, at);
    Rewrites16(b, at + 2);
    PackedHalves(Read16(b, at + 2), Read16(b, at));
    assert b[at..at + 4] == b[at..at + 2] + b[at + 2..at + 4];
  }

  /** Decoding an entry and encoding it again repeats its first twelve bytes. */
  lemma EntryRepeats(b: seq<Byte>, at: nat, i: nat)
    requires at + 16 <= |b| && i < 0xFFFF
    ensures var g := GroupEntry(DecodeEntry(b, at), i); g[..12] == b[at..at + 12] && g[12..] == LE16(i + 1)
  {
    Rewrites16(b, at + 4);
    Rewrites16(b, at + 6);
    Rewrites32(b, at + 8);
    assert b[at..at + 12] ==
             [b[at], b[at + 1], b[at + 2], b[at + 3]] + b[at + 4..at + 6] + b[at + 6..at + 8] + b[at + 8..at + 12];
  }

  lemma {:induction false} GroupEntryAt(entries: seq<IconDirEntry>, i: nat)
    requires |entries| <= 0xFFFF && i < |entries|
    ensures GroupEntries(entries)[14 * i..14 * i + 14] == GroupEntry(entries[i], i)
  {
    var n := |entries| - 1;
    var front := GroupEntries(entries[..n]);
    if i < n {
      GroupEntryAt(entries[..n], i);
      assert GroupEntries(entries)[14 * i..14 * i + 14] == front[14 * i..14 * i + 14];
    }
  }

  function FirstError(b: seq<Byte>): IconError {
    if HasDirectory(b) then BadImage
    else if |b| >= 6 && !GoodHeader(b) then InvalidData
    else EndOfStream
  }

  method ApplyIconResource(iconBytes: seq<Byte>) returns (r: Outcome<Resources>)
    ensures r.Done? <==> Accepted(iconBytes)
    ensures r.Done? ==> Transcribes(iconBytes, r.value)
    ensures r.Failed? ==> r.error == FirstError(iconBytes)
  {
    var directory := DecodeDirectory(iconBytes);
    if directory.Failed? {
      return Failed(directory.error);
    }
    var entries := directory.value;
    var images := CutImages(iconBytes, entries);
    if images.Failed? {
      return Failed(images.error);
    }
    var group := BuildGroupIcon(entries);
    GroupTranscribes(iconBytes, entries, group);
    return Done(Resources(images.value, group));
  }

  lemma HeaderIsRepeated(b: seq<Byte>, n: UInt16, group: seq<Byte>, entries: seq<Byte>)
    requires HasDirectory(b) && n == Count(b) && group == LE16(0) + LE16(1) + LE16(n) + entries
    ensures group[..6] == b[..6] && group[6..] == entries
  {
    Rewrites16(b, 0);
    Rewrites16(b, 2);
    Rewrites16(b, 4);
    assert b[..6] == b[0..2] + b[2..4] + b[4..6];
  }

  lemma GroupTranscribes(b: seq<Byte>, entries: seq<IconDirEntry>, group: seq<Byte>)
    requires HasDirectory(b) && |entries| == Count(b)
    requires forall i :: 0 <= i < |entries| ==> entries[i] == DecodeEntry(b, EntryAt(i))
    requires group == LE16(0) + LE16(1) + LE16(|entries|) + GroupEntries(entries)
    ensures group[..6] == b[..6]
    ensures forall i :: 0 <= i < |entries| ==>
              && group[6 + 14 * i..6 + 14 * i + 12] == b[EntryAt(i)..EntryAt(i) + 12]
              && group[6 + 14 * i + 12..6 + 14 * i + 14] == LE16(i + 1)
  {
    HeaderIsRepeated(b, |entries|, group, GroupEntries(entries));
    forall i | 0 <= i < |entries|
      ensures group[6 + 14 * i..6 + 14 * i + 12] == b[EntryAt(i)..EntryAt(i) + 12]
      ensures group[6 + 14 * i + 12..6 + 14 * i + 14] == LE16(i + 1)
    {
      EntryIsRepeated(b, entries, group, i);
    }
  }

  lemma EntryIsRepeated(b: seq<Byte>, entries: seq<IconDirEntry>, group: seq<Byte>, i: nat)
    requires i < |entries| <= 0xFFFF && EntryAt(i) + 16 <= |b| && entries[i] == DecodeEntry(b, EntryAt(i))
    requires |group| == 6 + 14 * |entries| && group[6..] == GroupEntries(entries)
    ensures group[6 + 14 * i..6 + 14 * i + 12] == b[EntryAt(i)..EntryAt(i) + 12]
    ensures group[6 + 14 * i + 12..6 + 14 * i + 14] == LE16(i + 1)
  {
    GroupEntryAt(entries, i);
    EntryRepeats(b, EntryAt(i), i);
    SplitEntry(group, 6 + 14 * i, GroupEntries(entries), 14 * i, GroupEntry(entries[i], i));
  }

  lemma SplitEntry(group: seq<Byte>, at: nat, all: seq<Byte>, k: nat, g: seq<Byte>)
    requires at + 14 <= |group| && at == 6 + k && group[6..] == all && all[k..k + 14] == g
    ensures group[at..at + 12] == g[..12] && group[at + 12..at + 14] == g[12..]
  {
    assert forall j :: 0 <= j < 14 ==> group[at + j] == all[k + j] == g[j];
  }

  // ---------------------------------------------------------------------------
  // In terms of single bytes.

  /** Two bytes as a number, the least significant first. */
  function Two(b: seq<Byte>, at: nat): nat
    requires at + 2 <= |b|
  {
    var low: int, high: int := b[at], b[at + 1];
    low + 0x100 * high
  }

  /** Four bytes as a number, the least significant first. */
  function Little(b: seq<Byte>, at: nat): nat
    requires at + 4 <= |b|
  {
    Two(b, at) + 0x1_0000 * Two(b, at + 2)
  }

  lemma ReadsLittle(b: seq<Byte>, at: nat)
    requires at + 4 <= |b|
    ensures Read32(b, at) == Little(b, at)
  {}

  /** The image of the `i`-th entry: where it starts and how long it is. */
  ghost predicate ImageLies(b: seq<Byte>, i: nat)
    requires 6 + 16 * i + 16 <= |b|
  {
    var size, offset := Little(b, 6 + 16 * i + 8), Little(b, 6 + 16 * i + 12);
    size < 0x8000_0000 && offset < 0x8000_0000 && offset + size <= |b|
  }

  /** The header names an icon file with at least one entry, all entries are there, and so are the images. */
  ghost predicate WellFormedIcon(b: seq<Byte>) {
    && |b| >= 6 && b[0] == 0 && b[1] == 0 && b[2] == 1 && b[3] == 0
    && var n := Two(b, 4);
       && 0 < n && 6 + 16 * n <= |b| && forall i :: 0 <= i < n ==> ImageLies(b, i)
  }

  lemma ImageMeans(b: seq<Byte>, i: nat)
    requires 6 + 16 * i + 16 <= |b|
    ensures HasImage(b, DecodeEntry(b, EntryAt(i))) <==> ImageLies(b, i)
  {
    ReadsLittle(b, 6 + 16 * i + 8);
    ReadsLittle(b, 6 + 16 * i + 12);
  }

  lemma AcceptedMeans(b: seq<Byte>)
    ensures Accepted(b) <==> WellFormedIcon(b)
  {
    if HasDirectory(b) {
      forall i | 0 <= i < Count(b)
        ensures HasImage(b, DecodeEntry(b, EntryAt(i))) <==> ImageLies(b, i)
      {
        ImageMeans(b, i);
      }
    }
  }

  /** The errors: a wrong header is invalid data, a file that ends before its last entry is too short, and
      any other file that is refused has a bad image. */
  lemma ErrorMeans(b: seq<Byte>)
    ensures FirstError(b) == InvalidData <==>
              |b| >= 6 && !(b[0] == 0 && b[1] == 0 && b[2] == 1 && b[3] == 0 && Two(b, 4) > 0)
    ensures FirstError(b) == EndOfStream <==>
              |b| < 6 || (b[0] == 0 && b[1] == 0 && b[2] == 1 && b[3] == 0 && Two(b, 4) > 0 &&
                          |b| < 6 + 16 * Two(b, 4))
  {}

  /** Group entry and image of the `i`-th entry. */
  ghost predicate CopiesEntry(b: seq<Byte>, r: Resources, i: nat)
    requires 6 + 16 * i + 16 <= |b| && ImageLies(b, i) && i < |r.images| && 6 + 14 * i + 14 <= |r.group|
  {
    var size, offset := Little(b, 6 + 16 * i + 8), Little(b, 6 + 16 * i + 12);
    && r.group[6 + 14 * i..6 + 14 * i + 12] == b[6 + 16 * i..6 + 16 * i + 12]
    && r.group[6 + 14 * i + 12] == (i + 1) % 0x100 && r.group[6 + 14 * i + 13] == (i + 1) / 0x100
    && r.images[i] == b[offset..offset + size]
  }

  /** What is installed, byte by byte: the header of the file, twelve bytes of every entry followed by the
      number of its image, and the images where the entries say. */
  lemma ResourcesMean(b: seq<Byte>, r: Resources, i: nat)
    requires Accepted(b) && Transcribes(b, r) && i < Count(b)
    ensures |r.images| == Count(b) == Two(b, 4) && |r.group| == 6 + 14 * |r.images|
    ensures r.group[..6] == b[..6] && ImageLies(b, i) && CopiesEntry(b, r, i)
  {
    ImageMeans(b, i);
    ReadsLittle(b, 6 + 16 * i + 8);
    ReadsLittle(b, 6 + 16 * i + 12);
    assert EntryTranscribed(b, r, i);
    var stamp := r.group[6 + 14 * i + 12..6 + 14 * i + 14];
    assert stamp[0] == r.group[6 + 14 * i + 12] && stamp[1] == r.group[6 + 14 * i + 13];
  }
}
