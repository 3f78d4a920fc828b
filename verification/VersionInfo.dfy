/** `BuildVersionResource`: the concrete resource tree, proved to be built without overflow for every
    version number and to read back with that version number in it. */
module VersionInfo {
  import opened Bytes
  import opened Options
  import opened Sequences
  import opened VersionBlock
  import opened VersionReader

  /** The UTF-16 units of a text inside the basic plane. */
  function Wide(s: string): (u: Utf16)
    ensures |u| == |s|
  {
    seq(|s|, i requires 0 <= i < |s| => (s[i] as int) % 0x1_0000)
  }

  /** The decimal digits of a number. */
  function Decimal(n: nat): (s: string)
    ensures s != [] && forall i :: 0 <= i < |s| ==> '0' <= s[i] <= '9'
  {
    if n < 10 then [('0' as int + n) as char] else Decimal(n / 10) + [('0' as int + n % 10) as char]
  }

  datatype Version = Version(major: UInt16, minor: UInt16, patch: UInt16, build: UInt16)

  /** `string.Format("{0}.{1}.{2}.{3}", ...)`. */
  function Dotted(v: Version): (s: string)
    ensures forall i :: 0 <= i < |s| ==> '.' <= s[i] <= '9'
  {
    Decimal(v.major) + "." + Decimal(v.minor) + "." + Decimal(v.patch) + "." + Decimal(v.build)
  }

  // ---------------------------------------------------------------------------
  // VS_FIXEDFILEINFO.

  function Packed(high: UInt16, low: UInt16): UInt32 {
    PackedHalves(high, low);
    high * 0x1_0000 + low
  }

  /** The thirteen 32-bit fields. */
  function FixedFields(v: Version): (fields: seq<UInt32>)
    ensures |fields| == 13
  {
    [0xFEEF04BD, 0x00010000, Packed(v.major, v.minor), Packed(v.patch, v.build), Packed(v.major, v.minor),
     Packed(v.patch, v.build), 0x3F, 0, 0x00040004, 1, 0, 0, 0]
  }

  function Words(fields: seq<UInt32>): (b: seq<Byte>)
    ensures |b| == 4 * |fields|
  {
    if fields == [] then [] else Words(fields[..|fields| - 1]) + LE32(fields[|fields| - 1])
  }

  /** `writer.Write(uint)`, as the `i`-th field. */
  method WriteWord(ms: MemoryStream, word: UInt32, ghost fields: seq<UInt32>, ghost i: nat)
    requires i < |fields| && fields[i] == word
    requires ms.AtEnd() && ms.data == Words(fields[..i])
    modifies ms
    ensures ms.AtEnd() && ms.data == Words(fields[..i + 1])
  {
    ms.Write(LE32(word));
    assert fields[..i + 1][..i] == fields[..i];
  }

  /** The signature, the version of the structure, and the file and product versions. */
  method WriteVersions(ms: MemoryStream, v: Version, ghost f: seq<UInt32>)
    requires f == FixedFields(v) && ms.AtEnd() && ms.data == []
    modifies ms
    ensures ms.AtEnd() && ms.data == Words(f[..6])
  {
    WriteWord(ms, 0xFEEF04BD, f, 0);
    WriteWord(ms, 0x00010000, f, 1);
    WriteWord(ms, Packed(v.major, v.minor), f, 2);
    WriteWord(ms, Packed(v.patch, v.build), f, 3);
    WriteWord(ms, Packed(v.major, v.minor), f, 4);
    WriteWord(ms, Packed(v.patch, v.build), f, 5);
  }

  /** The flags, the kind of file and the date. */
  method WriteFlags(ms: MemoryStream, ghost v: Version, ghost f: seq<UInt32>)
    requires f == FixedFields(v) && ms.AtEnd() && ms.data == Words(f[..6])
    modifies ms
    ensures ms.AtEnd() && ms.data == Words(f[..13])
  {
    WriteWord(ms, 0x0000003F, f, 6);
    WriteWord(ms, 0, f, 7);
    WriteWord(ms, 0x00040004, f, 8);
    WriteWord(ms, 0x00000001, f, 9);
    WriteWord(ms, 0, f, 10);
    WriteWord(ms, 0, f, 11);
    WriteWord(ms, 0, f, 12);
  }

  method BuildFixedFileInfo(v: Version) returns (b: seq<Byte>)
    ensures b == Words(FixedFields(v))
  {
    ghost var f := FixedFields(v);
    var ms := new MemoryStream();
    WriteVersions(ms, v, f);
    WriteFlags(ms, v, f);
    assert f[..13] == f;
    return ms.data;
  }

  lemma {:induction false} WordAt(fields: seq<UInt32>, i: nat)
    requires i < |fields|
    ensures Read32(Words(fields), 4 * i) == fields[i]
  {
    var n := |fields| - 1;
    var b, front := Words(fields), Words(fields[..n]);
    if i == n {
      assert b[4 * i..4 * i + 4] == LE32(fields[n]);
      Reads32(b, 4 * i, fields[n]);
    } else {
      WordAt(fields[..n], i);
      assert forall k :: 0 <= k < |front| ==> b[k] == front[k];
    }
  }

  /** The version number in the file-version fields of a VS_FIXEDFILEINFO value. */
  function FileVersion(value: seq<Byte>): Option<Version> {
    if |value| < 52 || Read32(value, 0) != 0xFEEF04BD then None
    else
      var ms, ls := Read32(value, 8), Read32(value, 12);
      Some(Version(ms / 0x1_0000, ms % 0x1_0000, ls / 0x1_0000, ls % 0x1_0000))
  }

  lemma FixedFileInfoReads(v: Version)
    ensures FileVersion(Words(FixedFields(v))) == Some(v)
  {
    WordAt(FixedFields(v), 0);
    WordAt(FixedFields(v), 2);
    WordAt(FixedFields(v), 3);
    PackedHalves(v.major, v.minor);
    PackedHalves(v.patch, v.build);
  }

  // ---------------------------------------------------------------------------
  // The tree.

  /** `BuildString`: a String structure. */
  function StringBlock(key: Utf16, text: Utf16): Block {
    Block(key, 1, GetBytes(text + [0]), [])
  }

  /** The names and texts of the string table. */
  function Entries(v: Version): (e: seq<(string, string)>)
    ensures |e| == 8
  {
    [("CompanyName", "kernullist"), ("FileDescription", "Kernforge terminal coding forge"), ("FileVersion", Dotted(v)),
     ("InternalName", "kernforge.exe"), ("LegalCopyright", "kernullist"), ("OriginalFilename", "kernforge.exe"),
     ("ProductName", "Kernforge"), ("ProductVersion", Dotted(v))]
  }

  function StringBlocks(v: Version): (ts: seq<Block>)
    ensures |ts| == 8
  {
    var e := Entries(v);
    seq(8, i requires 0 <= i < 8 => StringBlock(Wide(e[i].0), Wide(e[i].1)))
  }

  const STRING_TABLE := "040904B0"
  const STRING_FILE_INFO := "StringFileInfo"
  const TRANSLATION := "Translation"
  const VAR_FILE_INFO := "VarFileInfo"
  const VERSION_INFO := "VS_VERSION_INFO"
  const LANGUAGE: UInt16 := 0x0409
  const CODE_PAGE: UInt16 := 1200

  function StringTable(v: Version): Block { Block(Wide(STRING_TABLE), 1, [], StringBlocks(v)) }

  function StringFileInfo(v: Version): Block { Block(Wide(STRING_FILE_INFO), 1, [], [StringTable(v)]) }

  function Translation(language: UInt16, codePage: UInt16): Block {
    Block(Wide(TRANSLATION), 0, LE16(language) + LE16(codePage), [])
  }

  function VarFileInfo(language: UInt16, codePage: UInt16): Block {
    Block(Wide(VAR_FILE_INFO), 1, [], [Translation(language, codePage)])
  }

  function VersionTree(v: Version): Block {
    Block(Wide(VERSION_INFO), 0, Words(FixedFields(v)), [StringFileInfo(v), VarFileInfo(LANGUAGE, CODE_PAGE)])
  }

  method BuildString(key: Utf16, value: Utf16) returns (r: Option<seq<Byte>>)
    ensures r == Encode(StringBlock(key, value))
  {
    r := BuildBlock(key, 1, GetBytes(value + [0]), |value| + 1, []);
    assert EncodeAll([]) == Some([]);
  }

  // ---------------------------------------------------------------------------
  // Nothing overflows.

  lemma Fits(t: Block, children: seq<seq<Byte>>, bound: nat)
    requires EncodeAll(t.children) == Some(children)
    requires 12 + 2 * (|t.key| + 1) + |t.value| + |Flatten(children)| <= bound < 0x1_0000
    ensures Encode(t).Some? && |Encode(t).value| <= bound
  {
    AlignMeans(6 + 2 * (|t.key| + 1));
    AlignMeans(ValueStart(|t.key|) + |t.value|);
  }

  lemma StringFits(key: Utf16, text: Utf16)
    requires |key| <= 16 && |text| <= 48
    ensures Encode(StringBlock(key, text)).Some? && |Encode(StringBlock(key, text)).value| <= 150
  {
    assert EncodeAll([]) == Some([]) && Flatten<Byte>([]) == [];
    Fits(StringBlock(key, text), [], 150);
  }

  lemma {:induction false} AllFit(ts: seq<Block>)
    requires forall i :: 0 <= i < |ts| ==> Encode(ts[i]).Some? && |Encode(ts[i]).value| <= 150
    ensures EncodeAll(ts).Some? && |Flatten(EncodeAll(ts).value)| <= 150 * |ts|
  {
    if ts != [] {
      var n := |ts| - 1;
      AllFit(ts[..n]);
      FlattenMore(EncodeAll(ts[..n]).value, Encode(ts[n]).value);
    } else {
      assert Flatten<Byte>([]) == [];
    }
  }

  lemma DottedIsShort(v: Version)
    ensures |Dotted(v)| <= 48
  {
    DecimalIsShort(v.major);
    DecimalIsShort(v.minor);
    DecimalIsShort(v.patch);
    DecimalIsShort(v.build);
  }

  lemma DecimalIsShort(n: UInt16)
    ensures |Decimal(n)| <= 5
  {
    assert |Decimal(n)| <= 1 + |Decimal(n / 10)|;
    assert |Decimal(n / 10)| <= 1 + |Decimal(n / 10 / 10)|;
    assert |Decimal(n / 10 / 10)| <= 1 + |Decimal(n / 10 / 10 / 10)|;
    assert |Decimal(n / 10 / 10 / 10)| <= 1 + |Decimal(n / 10 / 10 / 10 / 10)|;
    assert n / 10 / 10 / 10 / 10 < 10;
  }

  lemma EntriesAreShort(v: Version)
    ensures forall i :: 0 <= i < 8 ==> |Entries(v)[i].0| <= 16 && |Entries(v)[i].1| <= 48
  {
    DottedIsShort(v);
  }

  lemma StringsFit(v: Version)
    ensures forall i :: 0 <= i < 8 ==> Encode(StringBlocks(v)[i]).Some? && |Encode(StringBlocks(v)[i]).value| <= 150
  {
    EntriesAreShort(v);
    forall i | 0 <= i < 8
      ensures Encode(StringBlocks(v)[i]).Some? && |Encode(StringBlocks(v)[i]).value| <= 150
    {
      var e := Entries(v)[i];
      StringFits(Wide(e.0), Wide(e.1));
    }
  }

  lemma EncodeOne(t: Block)
    requires Encode(t).Some?
    ensures EncodeAll([t]) == Some([Encode(t).value]) && Flatten([Encode(t).value]) == Encode(t).value
  {
    assert [t][..0] == [];
    assert EncodeAll([]) == Some([]);
    var e := Encode(t).value;
    FlattenMore([], e);
    assert [] + [e] == [e];
    assert Flatten<Byte>([]) == [];
  }

  lemma EncodeTwo(t: Block, u: Block)
    requires Encode(t).Some? && Encode(u).Some?
    ensures EncodeAll([t, u]) == Some([Encode(t).value, Encode(u).value])
    ensures Flatten([Encode(t).value, Encode(u).value]) == Encode(t).value + Encode(u).value
  {
    EncodeOne(t);
    assert [t, u][..1] == [t];
    FlattenMore([Encode(t).value], Encode(u).value);
    assert [Encode(t).value] + [Encode(u).value] == [Encode(t).value, Encode(u).value];
  }

  lemma OneChildFits(t: Block, child: Block, bound: nat)
    requires t.children == [child] && Encode(child).Some?
    requires 12 + 2 * (|t.key| + 1) + |t.value| + |Encode(child).value| <= bound < 0x1_0000
    ensures Encode(t).Some? && |Encode(t).value| <= bound
  {
    EncodeOne(child);
    Fits(t, [Encode(child).value], bound);
  }

  lemma StringTableFits(v: Version)
    ensures Encode(StringFileInfo(v)).Some? && |Encode(StringFileInfo(v)).value| <= 1400
    ensures Encode(StringTable(v)).Some?
  {
    StringsFit(v);
    AllFit(StringBlocks(v));
    Fits(StringTable(v), EncodeAll(StringBlocks(v)).value, 1250);
    OneChildFits(StringFileInfo(v), StringTable(v), 1400);
  }

  lemma VarFileInfoFits(language: UInt16, codePage: UInt16)
    ensures Encode(VarFileInfo(language, codePage)).Some? && |Encode(VarFileInfo(language, codePage)).value| <= 150
    ensures Encode(Translation(language, codePage)).Some?
  {
    assert EncodeAll([]) == Some([]) && Flatten<Byte>([]) == [];
    Fits(Translation(language, codePage), [], 50);
    OneChildFits(VarFileInfo(language, codePage), Translation(language, codePage), 150);
  }

  /** No version number makes the resource overflow its 16-bit lengths. */
  lemma NeverOverflows(v: Version)
    ensures Encode(VersionTree(v)).Some?
  {
    StringTableFits(v);
    VarFileInfoFits(LANGUAGE, CODE_PAGE);
    var a, b := StringFileInfo(v), VarFileInfo(LANGUAGE, CODE_PAGE);
    EncodeTwo(a, b);
    Fits(VersionTree(v), [Encode(a).value, Encode(b).value], 2000);
  }

  // ---------------------------------------------------------------------------
  // Building it.

  /** One `BuildString` call of the list initializer. */
  method AddString(ghost ts: seq<Block>, ghost i: nat, entry: (string, string), built: seq<seq<Byte>>)
    returns (r: seq<seq<Byte>>)
    requires i < |ts| && ts[i] == StringBlock(Wide(entry.0), Wide(entry.1)) && Encode(ts[i]).Some?
    requires EncodeAll(ts[..i]) == Some(built)
    ensures EncodeAll(ts[..i + 1]) == Some(r)
  {
    assert ts[..i + 1][..i] == ts[..i];
    var last := BuildString(Wide(entry.0), Wide(entry.1));
    r := built + [last.value];
  }

  /** The list initializer: one call per entry, in order. */
  method Strings(v: Version) returns (r: seq<seq<Byte>>)
    ensures EncodeAll(StringBlocks(v)) == Some(r)
  {
    var e := Entries(v);
    ghost var ts := StringBlocks(v);
    StringsFit(v);
    assert ts[..0] == [] && EncodeAll([]) == Some([]);
    r := [];
    for i := 0 to 8
      invariant EncodeAll(ts[..i]) == Some(r)
    {
      r := AddString(ts, i, e[i], r);
    }
    assert ts[..8] == ts;
  }

  /** A block whose built children are at hand. */
  method BuildNode(ghost t: Block, key: Utf16, kind: UInt16, value: seq<Byte>, valueLength: nat,
                   children: seq<seq<Byte>>)
    returns (r: seq<Byte>)
    requires Encode(t).Some? && EncodeAll(t.children) == Some(children)
    requires t.key == key && t.kind == kind && t.value == value && valueLength == ValueLength(kind, value)
    ensures Encode(t) == Some(r)
  {
    var built := BuildBlock(key, kind, value, valueLength, children);
    r := built.value;
  }

  method BuildVersionResource(v: Version) returns (r: seq<Byte>)
    ensures Encode(VersionTree(v)) == Some(r)
  {
    StringTableFits(v);
    VarFileInfoFits(LANGUAGE, CODE_PAGE);
    NeverOverflows(v);
    EncodeOne(StringTable(v));
    EncodeOne(Translation(LANGUAGE, CODE_PAGE));
    EncodeTwo(StringFileInfo(v), VarFileInfo(LANGUAGE, CODE_PAGE));
    assert EncodeAll([]) == Some([]);
    var fixedFileInfo := BuildFixedFileInfo(v);
    var strings := Strings(v);
    var stringTable := BuildNode(StringTable(v), Wide(STRING_TABLE), 1, [], 0, strings);
    var stringFileInfo := BuildNode(StringFileInfo(v), Wide(STRING_FILE_INFO), 1, [], 0, [stringTable]);
    var translationValue := LE16(LANGUAGE) + LE16(CODE_PAGE);
    var varInfo := BuildNode(Translation(LANGUAGE, CODE_PAGE), Wide(TRANSLATION), 0, translationValue,
                             |translationValue|, []);
    var varFileInfo := BuildNode(VarFileInfo(LANGUAGE, CODE_PAGE), Wide(VAR_FILE_INFO), 1, [], 0, [varInfo]);
    r := BuildNode(VersionTree(v), Wide(VERSION_INFO), 0, fixedFileInfo, |fixedFileInfo|,
                   [stringFileInfo, varFileInfo]);
  }

  // ---------------------------------------------------------------------------
  // Reading it back.

  predicate IsAscii(s: string) {
    forall i :: 0 <= i < |s| ==> 0 < s[i] as int < 0x80
  }

  lemma {:induction false} AsciiWellFormed(u: Utf16)
    requires forall i :: 0 <= i < |u| ==> 0 < u[i] < 0x80
    ensures WellFormed(u) && 0 !in u
  {
    if u != [] {
      AsciiWellFormed(u[1..]);
      assert u == [u[0]] + u[1..];
    }
  }

  lemma NodeReadable(t: Block, key: string)
    requires t.key == Wide(key) && IsAscii(key)
    requires t.kind == 1 ==> |t.value| % 2 == 0
    requires forall i :: 0 <= i < |t.children| ==> Readable(t.children[i])
    ensures Readable(t)
  {
    AsciiWellFormed(t.key);
  }

  lemma FirstNamesAscii(v: Version)
    ensures forall i :: 0 <= i < 4 ==> IsAscii(Entries(v)[i].0)
  {
    assert IsAscii("CompanyName") && IsAscii("FileDescription");
    assert IsAscii("FileVersion") && IsAscii("InternalName");
  }

  lemma LastNamesAscii(v: Version)
    ensures forall i :: 4 <= i < 8 ==> IsAscii(Entries(v)[i].0)
  {
    assert IsAscii("LegalCopyright") && IsAscii("OriginalFilename");
    assert IsAscii("ProductName") && IsAscii("ProductVersion");
  }

  lemma StringsReadable(v: Version)
    ensures forall i :: 0 <= i < 8 ==> Readable(StringBlocks(v)[i])
  {
    FirstNamesAscii(v);
    LastNamesAscii(v);
    forall i | 0 <= i < 8
      ensures Readable(StringBlocks(v)[i])
    {
      NodeReadable(StringBlocks(v)[i], Entries(v)[i].0);
    }
  }

  lemma KeysAreAscii()
    ensures IsAscii(STRING_TABLE) && IsAscii(STRING_FILE_INFO) && IsAscii(TRANSLATION)
    ensures IsAscii(VAR_FILE_INFO) && IsAscii(VERSION_INFO)
  {}

  lemma StringFileInfoReadable(v: Version)
    ensures Readable(StringFileInfo(v))
  {
    StringsReadable(v);
    KeysAreAscii();
    NodeReadable(StringTable(v), STRING_TABLE);
    NodeReadable(StringFileInfo(v), STRING_FILE_INFO);
  }

  lemma VarFileInfoReadable(language: UInt16, codePage: UInt16)
    ensures Readable(VarFileInfo(language, codePage))
  {
    KeysAreAscii();
    NodeReadable(Translation(language, codePage), TRANSLATION);
    NodeReadable(VarFileInfo(language, codePage), VAR_FILE_INFO);
  }

  lemma TreeReadable(v: Version)
    ensures Readable(VersionTree(v))
  {
    KeysAreAscii();
    StringFileInfoReadable(v);
    VarFileInfoReadable(LANGUAGE, CODE_PAGE);
    NodeReadable(VersionTree(v), VERSION_INFO);
  }

  /** For every version number the resource reads back as the intended tree, and the fixed file
      information in it carries that version number. */
  lemma VersionRecovered(v: Version, bytes: seq<Byte>)
    requires Encode(VersionTree(v)) == Some(bytes)
    ensures ReadBlock(bytes, 0, |bytes|) == Some((VersionTree(v), |bytes|))
    ensures FileVersion(VersionTree(v).value) == Some(v)
  {
    TreeReadable(v);
    RoundTrip(VersionTree(v));
    FixedFileInfoReads(v);
  }
}
