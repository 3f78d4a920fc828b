/** What the loader's prompt text is made of, by the files of the machine: which directories are searched, which
    document each offers, and how the kept ones are laid out. */
module AgentsMdLaws {
  import opened AgentsMd
  import opened Bytes
  import opened Options
  import opened Sequences
  import opened Text

  // ---------------------------------------------------------------------------
  // The directories.

  /** The same names, with or without regard to case. */
  ghost predicate SameNames(host: Host, a: Path, b: Path, folded: bool) {
    |a| == |b| && forall i :: 0 <= i < |a| ==> if folded then EqualFold(host.fold, a[i], b[i]) else a[i] == b[i]
  }

  /** No directory from `cwd` up is the root; above `cwd` case counts except on Windows, at `cwd` it never does. */
  ghost predicate Outside(host: Host, root: Path, cwd: Path) {
    forall n :: 0 <= n <= |cwd| ==> !SameNames(host, cwd[..n], root, n == |cwd| || host.windows)
  }

  lemma OutsideMeans(host: Host, root: Path, cwd: Path)
    ensures Outside(host, root, cwd) <==> !host.PathContains(root, cwd)
  {
    if host.PathContains(root, cwd) {
      assert SameNames(host, cwd[..|root|], root, |root| == |cwd| || host.windows);
    }
    if n :| 0 <= n <= |cwd| && SameNames(host, cwd[..n], root, n == |cwd| || host.windows) {
      forall i | 0 <= i < |root|
        ensures if n == |cwd| || host.windows then EqualFold(host.fold, root[i], cwd[i]) else root[i] == cwd[i]
      {
        assert cwd[..n][i] == cwd[i];
      }
    }
  }

  /** Without a working directory nothing is searched, outside a root only the working directory, and below
      one every directory from the root's depth down. */
  lemma SearchDirsMean(host: Host, root: Option<Path>, cwd: Path)
    ensures host.SearchDirs(root, None) == []
    ensures root == None || Outside(host, root.value, cwd) ==> host.SearchDirs(root, Some(cwd)) == [cwd]
    ensures root != None && !Outside(host, root.value, cwd) ==>
              var dirs, depth := host.SearchDirs(root, Some(cwd)), |root.value|;
              |dirs| + depth == |cwd| + 1 && forall i :: 0 <= i < |dirs| ==> dirs[i] == cwd[..depth + i]
  {
    if root.Some? {
      OutsideMeans(host, root.value, cwd);
    }
  }

  // ---------------------------------------------------------------------------
  // The documents.

  /** `doc` is what the first regular file among the names holds. */
  ghost predicate HoldsDocument(host: Host, dir: Path, names: seq<string>, doc: seq<Byte>) {
    exists i :: 0 <= i < |names| && host.file(dir, names[i]) == Readable(doc)
                && forall j :: 0 <= j < i ==> host.file(dir, names[j]) == NotRegular
  }

  lemma DocumentMeans(host: Host, dir: Path, names: seq<string>, doc: seq<Byte>)
    ensures host.Document(dir, names) == Some(doc) <==> HoldsDocument(host, dir, names, doc)
  {
    var name := host.FirstRegular(dir, names);
    if name.Some? {
      var n :| 0 <= n < |names| && host.IsFirstRegular(dir, names, n) && name.value == names[n];
      if HoldsDocument(host, dir, names, doc) {
        var i :| 0 <= i < |names| && host.file(dir, names[i]) == Readable(doc)
        && forall j :: 0 <= j < i ==> host.file(dir, names[j]) == NotRegular;
        assert host.IsRegular(dir, names[i]);
      }
    }
  }

  /** The first `left` bytes of a document, or all of it. */
  ghost predicate IsStart(doc: seq<Byte>, left: int, data: seq<Byte>) {
    left > 0 && data == if |doc| <= left then doc else doc[..left]
  }

  /** What is kept of a directory's document when `left` bytes may still be spent. */
  ghost predicate StaysOf(host: Host, dir: Path, names: seq<string>, left: int, data: seq<Byte>) {
    !AllSpace(host.decode(data)) && exists doc :: HoldsDocument(host, dir, names, doc) && IsStart(doc, left, data)
  }

  ghost predicate Stays(host: Host, names: seq<string>, dirs: seq<Path>, maxBytes: int, kept: seq<Kept>, i: nat,
                        data: seq<Byte>)
    requires i < |dirs|
  {
    Keeps(kept, i, data) <==> StaysOf(host, dirs[i], names, maxBytes - SpentBefore(kept, i), data)
  }

  lemma WorthMeans(host: Host, names: seq<string>, dirs: seq<Path>, i: nat, left: int, data: seq<Byte>)
    requires i < |dirs| && left > 0
    ensures var walk := host.WalkOver(names, dirs);
            walk.Worth(i, left) && data == Take(walk.offers[i].value, left) <==>
            StaysOf(host, dirs[i], names, left, data)
  {
    var offer := host.Document(dirs[i], names);
    BlankIffAllSpace(host.decode(data));
    if offer.Some? && data == Take(offer.value, left) {
      DocumentMeans(host, dirs[i], names, offer.value);
      assert IsStart(offer.value, left, data);
    }
    if doc :| HoldsDocument(host, dirs[i], names, doc) && IsStart(doc, left, data) {
      DocumentMeans(host, dirs[i], names, doc);
    }
  }

  /** A directory's document is kept, cut to what the directories above it left, unless that is blank. */
  lemma KeptMeans(host: Host, names: seq<string>, dirs: seq<Path>, maxBytes: int, i: nat, data: seq<Byte>)
    requires i < |dirs|
    ensures Stays(host, names, dirs, maxBytes, host.WalkOver(names, dirs).Load(0, maxBytes), i, data)
  {
    var walk := host.WalkOver(names, dirs);
    var kept := walk.Load(0, maxBytes);
    var left := maxBytes - SpentBefore(kept, i);
    DirectoryDecided(walk, 0, maxBytes, i);
    if left > 0 {
      WorthMeans(host, names, dirs, i, left, data);
    }
  }

  // ---------------------------------------------------------------------------
  // The text.

  ghost predicate StandsAt(text: string, part: string, at: nat) {
    at + |part| <= |text| && text[at..at + |part|] == part
  }

  /** Where the `i`-th part begins when two characters stand between each two. */
  function PlaceOf(parts: seq<string>, i: nat): nat
    requires i < |parts|
  {
    if i == 0 then 0 else PlaceOf(parts, i - 1) + |parts[i - 1]| + 2
  }

  /** The parts stand in their order, one empty line between each two, and nothing else is there. */
  ghost predicate LaidOut(text: string, parts: seq<string>) {
    && (if parts == [] then text == "" else PlaceOf(parts, |parts| - 1) + |parts[|parts| - 1]| == |text|)
    && PartsStand(text, parts) && GapsStand(text, parts)
  }

  ghost predicate PartsStand(text: string, parts: seq<string>) {
    forall i :: 0 <= i < |parts| ==> StandsAt(text, parts[i], PlaceOf(parts, i))
  }

  ghost predicate GapsStand(text: string, parts: seq<string>) {
    forall i :: 0 <= i < |parts| - 1 ==> StandsAt(text, "\n\n", PlaceOf(parts, i) + |parts[i]|)
  }

  lemma {:induction false} PlaceBehind(parts: seq<string>, i: nat)
    requires 0 < i < |parts|
    ensures PlaceOf(parts, i) == |parts[0]| + 2 + PlaceOf(parts[1..], i - 1)
  {
    if i > 1 {
      PlaceBehind(parts, i - 1);
    }
  }

  lemma StandsBehind(front: string, text: string, part: string, at: nat)
    requires StandsAt(text, part, at)
    ensures StandsAt(front + text, part, |front| + at)
  {
    assert (front + text)[|front| + at..|front| + at + |part|] == text[at..at + |part|];
  }

  lemma {:induction false} JoinIsLaidOut(parts: seq<string>)
    ensures LaidOut(Join(parts, "\n\n"), parts)
  {
    if |parts| > 1 {
      JoinIsLaidOut(parts[1..]);
      PartsBehind(parts, Join(parts[1..], "\n\n"));
      GapsBehind(parts, Join(parts[1..], "\n\n"));
      PlaceBehind(parts, |parts| - 1);
    }
  }

  lemma PartBehind(parts: seq<string>, tail: string, i: nat)
    requires 0 < i < |parts| && StandsAt(tail, parts[1..][i - 1], PlaceOf(parts[1..], i - 1))
    ensures StandsAt((parts[0] + "\n\n") + tail, parts[i], PlaceOf(parts, i))
  {
    PlaceBehind(parts, i);
    StandsBehind(parts[0] + "\n\n", tail, parts[1..][i - 1], PlaceOf(parts[1..], i - 1));
  }

  lemma GapBehind(parts: seq<string>, tail: string, i: nat)
    requires 0 < i < |parts| && StandsAt(tail, "\n\n", PlaceOf(parts[1..], i - 1) + |parts[1..][i - 1]|)
    ensures StandsAt((parts[0] + "\n\n") + tail, "\n\n", PlaceOf(parts, i) + |parts[i]|)
  {
    PlaceBehind(parts, i);
    StandsBehind(parts[0] + "\n\n", tail, "\n\n", PlaceOf(parts[1..], i - 1) + |parts[1..][i - 1]|);
  }

  lemma FirstStands(part: string, tail: string)
    ensures StandsAt((part + "\n\n") + tail, part, 0) && StandsAt((part + "\n\n") + tail, "\n\n", |part|)
  {
    assert ((part + "\n\n") + tail)[|part|..|part| + 2] == "\n\n";
  }

  lemma PartsBehind(parts: seq<string>, tail: string)
    requires parts != [] && PartsStand(tail, parts[1..])
    ensures PartsStand((parts[0] + "\n\n") + tail, parts)
  {
    FirstStands(parts[0], tail);
    forall i | 0 <= i < |parts|
      ensures StandsAt((parts[0] + "\n\n") + tail, parts[i], PlaceOf(parts, i))
    {
      if i > 0 {
        PartBehind(parts, tail, i);
      }
    }
  }

  lemma GapsBehind(parts: seq<string>, tail: string)
    requires parts != [] && GapsStand(tail, parts[1..])
    ensures GapsStand((parts[0] + "\n\n") + tail, parts)
  {
    FirstStands(parts[0], tail);
    forall i | 0 <= i < |parts| - 1
      ensures StandsAt((parts[0] + "\n\n") + tail, "\n\n", PlaceOf(parts, i) + |parts[i]|)
    {
      if i > 0 {
        GapBehind(parts, tail, i);
      }
    }
  }

  /** The prompt text: the kept documents of the searched directories in their order, as they decode, one empty
      line between each two. */
  lemma LoadedMeans(host: Host, names: seq<string>, root: Option<Path>, cwd: Option<Path>, maxBytes: int)
    returns (kept: seq<Kept>)
    ensures var dirs := host.SearchDirs(root, cwd);
            && InOrder(kept, 0, |dirs|) && Total(kept) <= (if maxBytes > 0 then maxBytes else 0)
            && forall i, data :: 0 <= i < |dirs| ==> Stays(host, names, dirs, maxBytes, kept, i, data)
    ensures exists texts :: Decodes(host, kept, texts) && LaidOut(host.Loaded(names, root, cwd, maxBytes), texts)
  {
    var dirs := host.SearchDirs(root, cwd);
    var walk := host.WalkOver(names, dirs);
    kept := walk.Load(0, maxBytes);
    LoadInOrder(walk, 0, maxBytes);
    LoadWithinBudget(walk, 0, if maxBytes > 0 then maxBytes else 0);
    forall i, data | 0 <= i < |dirs|
      ensures Stays(host, names, dirs, maxBytes, kept, i, data)
    {
      KeptMeans(host, names, dirs, maxBytes, i, data);
    }
    JoinIsLaidOut(host.Texts(kept));
    assert Decodes(host, kept, host.Texts(kept));
  }

  ghost predicate Decodes(host: Host, kept: seq<Kept>, texts: seq<string>) {
    |texts| == |kept| && forall i :: 0 <= i < |kept| ==> texts[i] == host.decode(kept[i].data)
  }
}
