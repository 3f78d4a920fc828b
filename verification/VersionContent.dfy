/** What the version resource says, read back from its bytes: the texts of the string table by their keys, the
    version numbers in three places, and the translation. */
module VersionContent {
  import opened Bytes
  import opened Options
  import opened VersionBlock
  import opened VersionExact
  import opened VersionInfo
  import opened VersionReader

  // ---------------------------------------------------------------------------
  // Looking into a block tree.

  predicate KeyIs(key: Utf16, s: string) {
    |key| == |s| && forall i :: 0 <= i < |s| ==> key[i] == s[i] as int
  }

  /** The first child with the key. */
  function Child(ts: seq<Block>, key: string): Option<Block> {
    if ts == [] then None else if KeyIs(ts[0].key, key) then Some(ts[0]) else Child(ts[1..], key)
  }

  /** The block under a path of keys. */
  function Under(t: Block, path: seq<string>): Option<Block>
    decreases |path|
  {
    if path == [] then Some(t)
    else
      match Child(t.children, path[0])
      case None => None
      case Some(child) => Under(child, path[1..])
  }

  /** A text value: one unit for every character, and a NUL. */
  predicate Holds(b: Block, text: string) {
    && b.kind == 1 && |b.value| == 2 * |text| + 2 && Read16(b.value, 2 * |text|) == 0
    && forall i :: 0 <= i < |text| ==> Read16(b.value, 2 * i) == text[i] as int
  }

  /** The string table has the text under the key. */
  predicate TableHolds(t: Block, key: string, text: string) {
    var b := Under(t, ["StringFileInfo", "040904B0", key]);
    b.Some? && Holds(b.value, text)
  }

  /** The numbers of a text, each as decimal digits, with dots between them. */
  function ReadNumbers(s: string): (r: Option<seq<nat>>)
    ensures r.Some? ==> r.value != []
  {
    if s == "" then Some([0])
    else
      match ReadNumbers(s[..|s| - 1])
      case None => None
      case Some(ns) =>
        var c := s[|s| - 1];
        if c == '.' then Some(ns + [0])
        else if '0' <= c <= '9' then Some(PutDigit(ns, c as int - '0' as int))
        else None
  }

  /** The last number, with one more digit. */
  function PutDigit(ns: seq<nat>, d: nat): (r: seq<nat>)
    requires ns != []
    ensures r != []
  {
    ns[..|ns| - 1] + [10 * ns[|ns| - 1] + d]
  }

  /** No number is left out or starts with a zero it could do without. */
  predicate Plain(s: string) {
    s != "" && s[0] != '.' && s[|s| - 1] != '.' && forall i :: 0 <= i < |s| - 1 ==> PlainAt(s, i)
  }

  predicate PlainAt(s: string, i: nat)
    requires i + 1 < |s|
  {
    && !(s[i] == '.' && s[i + 1] == '.')
    && (s[i] == '0' && (i == 0 || s[i - 1] == '.') ==> s[i + 1] == '.')
  }

  /** The string table says the version under the key. */
  ghost predicate TableSays(t: Block, key: string, v: Version) {
    exists text :: TableHolds(t, key, text) && Plain(text) &&
      ReadNumbers(text) == Some([v.major, v.minor, v.patch, v.build])
  }

  /** The version in two words of the fixed file information. */
  predicate WordsSay(value: seq<Byte>, at: nat, v: Version) {
    at + 8 <= |value| && Read32(value, at) == 0x1_0000 * v.major + v.minor &&
    Read32(value, at + 4) == 0x1_0000 * v.patch + v.build
  }

  // ---------------------------------------------------------------------------
  // Decimal numbers.

  lemma DotReads(s: string, ns: seq<nat>)
    requires ReadNumbers(s) == Some(ns)
    ensures ReadNumbers(s + ".") == Some(ns + [0])
  {
    assert (s + ".")[..|s + "."| - 1] == s;
  }

  lemma DigitReads(s: string, ns: seq<nat>, m: nat, c: char)
    requires ReadNumbers(s) == Some(ns + [m]) && '0' <= c <= '9'
    ensures ReadNumbers(s + [c]) == Some(ns + [10 * m + (c as int - '0' as int)])
  {
    assert (s + [c])[..|s + [c]| - 1] == s;
    assert (ns + [m])[..|ns|] == ns;
  }

  lemma {:induction false} DecimalReads(s: string, ns: seq<nat>, n: nat)
    requires ReadNumbers(s) == Some(ns + [0])
    ensures ReadNumbers(s + Decimal(n)) == Some(ns + [n])
  {
    var c := ('0' as int + n % 10) as char;
    if n < 10 {
      DigitReads(s, ns, 0, c);
    } else {
      DecimalReads(s, ns, n / 10);
      DigitReads(s + Decimal(n / 10), ns, n / 10, c);
      DecimalEnds(s, n, c);
    }
  }

  lemma DecimalEnds(s: string, n: nat, c: char)
    requires n >= 10 && c == ('0' as int + n % 10) as char
    ensures s + Decimal(n) == s + Decimal(n / 10) + [c]
  {}

  /** A number and the dot behind it. */
  lemma PartReads(s: string, ns: seq<nat>, n: nat)
    requires ReadNumbers(s) == Some(ns + [0])
    ensures ReadNumbers(s + Decimal(n) + ".") == Some(ns + [n] + [0])
  {
    DecimalReads(s, ns, n);
    DotReads(s + Decimal(n), ns + [n]);
  }

  lemma OnePart(a: nat)
    ensures ReadNumbers(Decimal(a) + ".") == Some([a] + [0])
  {
    var none: seq<nat> := [];
    assert none + [0] == [0] && none + [a] == [a] && "" + Decimal(a) == Decimal(a);
    PartReads("", none, a);
  }

  lemma TwoParts(a: nat, b: nat)
    ensures ReadNumbers(Decimal(a) + "." + Decimal(b) + ".") == Some([a, b] + [0])
  {
    OnePart(a);
    PartReads(Decimal(a) + ".", [a], b);
    assert [a] + [b] == [a, b];
  }

  lemma ThreeParts(a: nat, b: nat, c: nat)
    ensures ReadNumbers(Decimal(a) + "." + Decimal(b) + "." + Decimal(c) + ".") == Some([a, b, c] + [0])
  {
    TwoParts(a, b);
    PartReads(Decimal(a) + "." + Decimal(b) + ".", [a, b], c);
    assert [a, b] + [c] == [a, b, c];
  }

  lemma DottedReads(v: Version)
    ensures ReadNumbers(Dotted(v)) == Some([v.major, v.minor, v.patch, v.build])
  {
    ThreeParts(v.major, v.minor, v.patch);
    DecimalReads(Decimal(v.major) + "." + Decimal(v.minor) + "." + Decimal(v.patch) + ".",
                 [v.major, v.minor, v.patch], v.build);
    assert [v.major, v.minor, v.patch] + [v.build] == [v.major, v.minor, v.patch, v.build];
  }

  lemma {:induction false} DecimalIsPlain(n: nat)
    ensures Plain(Decimal(n)) && '.' !in Decimal(n)
    ensures Decimal(n)[0] == '0' ==> n == 0
  {
    if n >= 10 {
      DecimalIsPlain(n / 10);
    }
  }

  lemma PlainJoins(a: string, b: string)
    requires Plain(a) && Plain(b)
    ensures Plain(a + "." + b)
  {
    var s := a + "." + b;
    assert s[|s| - 1] == b[|b| - 1];
    forall i | 0 <= i < |s| - 1
      ensures PlainAt(s, i)
    {
      PlainJoinsAt(a, b, i);
    }
  }

  lemma PlainJoinsAt(a: string, b: string, i: nat)
    requires Plain(a) && Plain(b) && i < |a| + |b|
    ensures PlainAt(a + "." + b, i)
  {
    var s := a + "." + b;
    if i + 1 < |a| {
      assert PlainAt(a, i);
    } else if i > |a| {
      assert PlainAt(b, i - |a| - 1);
      assert s[i] == b[i - |a| - 1] && s[i + 1] == b[i - |a|];
      assert i - 1 > |a| ==> s[i - 1] == b[i - |a| - 2];
    } else {
      assert s[|a|] == '.' && s[|a| + 1] == b[0] && s[|a| - 1] == a[|a| - 1];
    }
  }

  lemma DottedIsPlain(v: Version)
    ensures Plain(Dotted(v))
  {
    DecimalIsPlain(v.major);
    DecimalIsPlain(v.minor);
    DecimalIsPlain(v.patch);
    DecimalIsPlain(v.build);
    PlainJoins(Decimal(v.major), Decimal(v.minor));
    PlainJoins(Decimal(v.major) + "." + Decimal(v.minor), Decimal(v.patch));
    PlainJoins(Decimal(v.major) + "." + Decimal(v.minor) + "." + Decimal(v.patch), Decimal(v.build));
  }

  // ---------------------------------------------------------------------------
  // The tree.

  lemma WideKeyIs(s: string, key: string)
    requires IsAscii(s) && IsAscii(key)
    ensures KeyIs(Wide(s), key) <==> s == key
  {}

  lemma {:induction false} ChildAt(ts: seq<Block>, key: string, i: nat)
    requires i < |ts| && KeyIs(ts[i].key, key) && forall j :: 0 <= j < i ==> !KeyIs(ts[j].key, key)
    ensures Child(ts, key) == Some(ts[i])
  {
    if i > 0 {
      ChildAt(ts[1..], key, i - 1);
    }
  }

  lemma TextBytes(key: string, text: string)
    requires IsAscii(text)
    ensures StringBlock(Wide(key), Wide(text)).value == Units(Wide(text) + [0])
  {
    AsciiWellFormed(Wide(text));
    SanitizeWithTail(Wide(text), 0);
  }

  lemma UnitsRead(units: Utf16, i: nat)
    requires i < |units|
    ensures 2 * i + 2 <= |Units(units)| && Read16(Units(units), 2 * i) == units[i]
  {
    UnitAt(units, i);
  }

  lemma TextHolds(key: string, text: string)
    requires IsAscii(text)
    ensures Holds(StringBlock(Wide(key), Wide(text)), text)
  {
    TextBytes(key, text);
    forall i | 0 <= i <= |text|
      ensures Read16(Units(Wide(text) + [0]), 2 * i) == (Wide(text) + [0])[i]
    {
      UnitsRead(Wide(text) + [0], i);
    }
  }

  /** Where each name stands: their first letters and lengths tell them apart. */
  lemma NameAt(v: Version, i: nat)
    requires i < 8
    ensures Child(StringBlocks(v), Entries(v)[i].0) == Some(StringBlocks(v)[i])
  {
    NamesAscii(v);
    forall j | 0 <= j < i
      ensures !KeyIs(StringBlocks(v)[j].key, Entries(v)[i].0)
    {
      NamesDiffer(v, j, i);
      WideKeyIs(Entries(v)[j].0, Entries(v)[i].0);
    }
    WideKeyIs(Entries(v)[i].0, Entries(v)[i].0);
    ChildAt(StringBlocks(v), Entries(v)[i].0, i);
  }

  lemma NamesAscii(v: Version)
    ensures forall i :: 0 <= i < 8 ==> IsAscii(Entries(v)[i].0)
  {
    FirstNamesAscii(v);
    LastNamesAscii(v);
  }

  lemma NamesDiffer(v: Version, j: nat, i: nat)
    requires j < i < 8
    ensures Entries(v)[j].0 != Entries(v)[i].0
  {
    var lengths, letters := [11, 15, 11, 12, 14, 16, 11, 14], "CFFILOPP";
    assert |Entries(v)[j].0| == lengths[j] && |Entries(v)[i].0| == lengths[i];
    assert Entries(v)[j].0[0] == letters[j] && Entries(v)[i].0[0] == letters[i];
  }

  lemma TableFound(v: Version, key: string)
    ensures Under(VersionTree(v), ["StringFileInfo", "040904B0", key]) == Child(StringBlocks(v), key)
  {
    KeysAreAscii();
    WideKeyIs(STRING_FILE_INFO, "StringFileInfo");
    WideKeyIs(STRING_TABLE, "040904B0");
    var path := ["StringFileInfo", "040904B0", key];
    assert path[1..] == ["040904B0", key] && ["040904B0", key][1..] == [key] && [key][1..] == [];
    assert Child(VersionTree(v).children, "StringFileInfo") == Some(StringFileInfo(v));
    assert Child(StringFileInfo(v).children, "040904B0") == Some(StringTable(v));
    assert Under(VersionTree(v), path) == Under(StringFileInfo(v), ["040904B0", key]);
    assert Under(StringFileInfo(v), ["040904B0", key]) == Under(StringTable(v), [key]);
    match Child(StringTable(v).children, key)
    case None =>
    case Some(b) => assert Under(b, []) == Some(b);
  }

  lemma EntryHeld(v: Version, i: nat)
    requires i < 8 && IsAscii(Entries(v)[i].1)
    ensures TableHolds(VersionTree(v), Entries(v)[i].0, Entries(v)[i].1)
  {
    TableFound(v, Entries(v)[i].0);
    NameAt(v, i);
    TextHolds(Entries(v)[i].0, Entries(v)[i].1);
  }

  /** The six texts that do not depend on the version. */
  lemma CompanyTexts(v: Version)
    ensures TableHolds(VersionTree(v), "CompanyName", "kernullist")
    ensures TableHolds(VersionTree(v), "FileDescription", "Kernforge terminal coding forge")
    ensures TableHolds(VersionTree(v), "LegalCopyright", "kernullist")
  {
    EntryHeld(v, 0);
    EntryHeld(v, 1);
    EntryHeld(v, 4);
  }

  lemma ProductTexts(v: Version)
    ensures TableHolds(VersionTree(v), "InternalName", "kernforge.exe")
    ensures TableHolds(VersionTree(v), "OriginalFilename", "kernforge.exe")
    ensures TableHolds(VersionTree(v), "ProductName", "Kernforge")
  {
    EntryHeld(v, 3);
    EntryHeld(v, 5);
    EntryHeld(v, 6);
  }

  lemma VersionTexts(v: Version)
    ensures TableSays(VersionTree(v), "FileVersion", v) && TableSays(VersionTree(v), "ProductVersion", v)
  {
    DottedReads(v);
    DottedIsPlain(v);
    EntryHeld(v, 2);
    EntryHeld(v, 7);
  }

  /** The translation, and the words of the fixed file information. */
  lemma TranslationFound(v: Version)
    ensures var b := Under(VersionTree(v), ["VarFileInfo", "Translation"]);
            b.Some? && |b.value.value| == 4 && Read16(b.value.value, 0) == 0x0409 && Read16(b.value.value, 2) == 1200
  {
    KeysAreAscii();
    WideKeyIs(STRING_FILE_INFO, "VarFileInfo");
    WideKeyIs(VAR_FILE_INFO, "VarFileInfo");
    WideKeyIs(TRANSLATION, "Translation");
    var path, t := ["VarFileInfo", "Translation"], Translation(LANGUAGE, CODE_PAGE);
    assert path[1..] == ["Translation"] && ["Translation"][1..] == [];
    assert |STRING_FILE_INFO| != |"VarFileInfo"|;
    ChildAt(VersionTree(v).children, "VarFileInfo", 1);
    assert Child([t], "Translation") == Some(t);
    assert Under(t, []) == Some(t);
    assert t.value[0..2] == LE16(LANGUAGE) && t.value[2..4] == LE16(CODE_PAGE);
    Reads16(t.value, 0, LANGUAGE);
    Reads16(t.value, 2, CODE_PAGE);
  }

  lemma FixedInfoSays(v: Version)
    ensures var value := VersionTree(v).value;
      && |value| == 52 && value[..4] == [0xBD, 0x04, 0xEF, 0xFE] && Read32(value, 4) == 0x0001_0000
      && WordsSay(value, 8, v) && WordsSay(value, 16, v)
      && Read32(value, 24) == 0x3F && Read32(value, 28) == 0 && Read32(value, 32) == 0x0004_0004
      && Read32(value, 36) == 1 && Read32(value, 40) == 0 && Read32(value, 44) == 0 && Read32(value, 48) == 0
  {
    var f := FixedFields(v);
    WordAt(f, 0);
    WordAt(f, 1);
    WordAt(f, 2);
    WordAt(f, 3);
    WordAt(f, 4);
    WordAt(f, 5);
    FlagWords(f);
    SignatureBytes(Words(f));
  }

  lemma FlagWords(f: seq<UInt32>)
    requires |f| == 13
    ensures var value := Words(f);
      && Read32(value, 24) == f[6] && Read32(value, 28) == f[7] && Read32(value, 32) == f[8]
      && Read32(value, 36) == f[9] && Read32(value, 40) == f[10] && Read32(value, 44) == f[11]
      && Read32(value, 48) == f[12]
  {
    WordAt(f, 6);
    WordAt(f, 7);
    WordAt(f, 8);
    WordAt(f, 9);
    WordAt(f, 10);
    WordAt(f, 11);
    WordAt(f, 12);
  }

  lemma SignatureBytes(value: seq<Byte>)
    requires |value| >= 4 && Read32(value, 0) == 0xFEEF04BD
    ensures value[..4] == [0xBD, 0x04, 0xEF, 0xFE]
  {}

  /** Read back from its bytes, the resource written for a version is a VS_VERSION_INFO block whose string
      table says this version twice and holds the six fixed texts, whose fixed file information carries it
      twice among its thirteen words, and whose translation is US English in Unicode. */
  lemma ResourceMeans(v: Version, bytes: seq<Byte>)
    requires Encode(VersionTree(v)) == Some(bytes)
    ensures var r := ReadBlock(bytes, 0, |bytes|);
      r.Some? && r.value.1 == |bytes| &&
      var t := r.value.0;
      && KeyIs(t.key, "VS_VERSION_INFO")
      && TableSays(t, "FileVersion", v) && TableSays(t, "ProductVersion", v)
      && TableHolds(t, "CompanyName", "kernullist")
      && TableHolds(t, "FileDescription", "Kernforge terminal coding forge")
      && TableHolds(t, "InternalName", "kernforge.exe") && TableHolds(t, "LegalCopyright", "kernullist")
      && TableHolds(t, "OriginalFilename", "kernforge.exe") && TableHolds(t, "ProductName", "Kernforge")
      && |t.value| == 52 && t.value[..4] == [0xBD, 0x04, 0xEF, 0xFE] && Read32(t.value, 4) == 0x0001_0000
      && WordsSay(t.value, 8, v) && WordsSay(t.value, 16, v)
      && Read32(t.value, 24) == 0x3F && Read32(t.value, 28) == 0 && Read32(t.value, 32) == 0x0004_0004
      && Read32(t.value, 36) == 1 && Read32(t.value, 40) == 0 && Read32(t.value, 44) == 0 && Read32(t.value, 48) == 0
      && var b := Under(t, ["VarFileInfo", "Translation"]);
         b.Some? && |b.value.value| == 4 && Read16(b.value.value, 0) == 0x0409 && Read16(b.value.value, 2) == 1200
  {
    VersionRecovered(v, bytes);
    KeysAreAscii();
    WideKeyIs(VERSION_INFO, "VS_VERSION_INFO");
    VersionTexts(v);
    CompanyTexts(v);
    ProductTexts(v);
    FixedInfoSays(v);
    TranslationFound(v);
  }
}
