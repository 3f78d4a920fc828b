/** `loadProjectAgentsMD`: the instruction files between the project root and the working directory, cut to
    a budget of bytes. */
module AgentsMd {
  import opened Bytes
  import opened Options
  import opened Sequences
  import opened Text

  /** The components of a clean, absolute, symlink-free path. */
  type Path = seq<string>

  datatype FileState = NotRegular | Unreadable | Readable(data: seq<Byte>)

  /** The machine: how file names compare, what is stored where, and `strings.ToValidUTF8`. */
  datatype Host = Host(windows: bool, fold: char -> char, file: (Path, string) -> FileState,
                       decode: seq<Byte> -> string) {

    /** How `filepath.Rel` compares two components. */
    predicate SameName(a: string, b: string) {
      if windows then EqualFold(fold, a, b) else a == b
    }

    /** `samePath`, which ignores case on every platform. */
    predicate SamePath(a: Path, b: Path) {
      |a| == |b| && forall i :: 0 <= i < |a| ==> EqualFold(fold, a[i], b[i])
    }

    /** `pathContains`: the same path, or a relative path down from `root` that does not climb. */
    predicate PathContains(root: Path, child: Path) {
      || SamePath(root, child)
      || (|root| <= |child| && forall i :: 0 <= i < |root| ==> SameName(root[i], child[i]))
    }

    /** The directories from `root` down to `cwd`; just `cwd` when there is no root above it. */
    function SearchDirs(root: Option<Path>, cwd: Option<Path>): seq<Path> {
      if cwd.None? then []
      else if root.None? || !PathContains(root.value, cwd.value) then [cwd.value]
      else seq(|cwd.value| - |root.value| + 1,
               i requires 0 <= i <= |cwd.value| - |root.value| => cwd.value[..|root.value| + i])
    }

    predicate IsRegular(dir: Path, name: string) {
      file(dir, name) != NotRegular
    }

    /** The first candidate that is a regular file. */
    function FirstRegular(dir: Path, names: seq<string>): (r: Option<string>)
      ensures r == None <==> forall i :: 0 <= i < |names| ==> !IsRegular(dir, names[i])
      ensures r.Some? ==> exists i :: 0 <= i < |names| && IsFirstRegular(dir, names, i) && r.value == names[i]
    {
      if names == [] then None
      else if IsRegular(dir, names[0]) then assert IsFirstRegular(dir, names, 0); Some(names[0])
      else
        var r := FirstRegular(dir, names[1..]);
        assert r.Some? ==> exists i :: 0 <= i < |names| && IsFirstRegular(dir, names, i) && r.value == names[i] by {
          if r.Some? {
            var i :| 0 <= i < |names[1..]| && IsFirstRegular(dir, names[1..], i) && r.value == names[1..][i];
            assert IsFirstRegular(dir, names, i + 1);
          }
        }
        assert r == None ==> forall i :: 0 < i < |names| ==> names[i] == names[1..][i - 1];
        r
    }

    ghost predicate IsFirstRegular(dir: Path, names: seq<string>, i: nat)
      requires i < |names|
    {
      IsRegular(dir, names[i]) && forall j :: 0 <= j < i ==> !IsRegular(dir, names[j])
    }

    /** The bytes a directory offers. A regular file that cannot be read hides the later candidates. */
    function Document(dir: Path, names: seq<string>): Option<seq<Byte>> {
      var name := FirstRegular(dir, names);
      if name.Some? && file(dir, name.value).Readable? then Some(file(dir, name.value).data) else None
    }

    predicate Shows(data: seq<Byte>) { !IsBlank(decode(data)) }

    /** What is kept of a document, nothing when the rest of the budget shows nothing of it. */
    function WithinBudget(document: Option<seq<Byte>>, remaining: int): Option<seq<Byte>>
      requires remaining > 0
    {
      if document.Some? && Shows(Take(document.value, remaining)) then Some(Take(document.value, remaining)) else None
    }

    /** What every directory on the way offers. */
    function Offers(names: seq<string>, dirs: seq<Path>): seq<Option<seq<Byte>>> {
      seq(|dirs|, i requires 0 <= i < |dirs| => Document(dirs[i], names))
    }

    function WalkOver(names: seq<string>, dirs: seq<Path>): Walk {
      Walk(Offers(names, dirs), Shows)
    }

    function Texts(kept: seq<Kept>): seq<string> {
      seq(|kept|, i requires 0 <= i < |kept| => decode(kept[i].data))
    }

    /** The prompt text, from the documents kept. */
    function Loaded(names: seq<string>, root: Option<Path>, cwd: Option<Path>, maxBytes: int): string {
      Join(Texts(WalkOver(names, SearchDirs(root, cwd)).Load(0, maxBytes)), "\n\n")
    }
  }

  /** A kept document: the place of its directory in the list, and the bytes kept of it. */
  datatype Kept = Kept(at: nat, data: seq<Byte>)

  /** The budgeted walk: what each directory offers, and which texts are not blank. */
  datatype Walk = Walk(offers: seq<Option<seq<Byte>>>, shows: seq<Byte> -> bool) {

    /** The documents kept from the `i`-th directory on. */
    function Load(i: nat, remaining: int): seq<Kept>
      requires i <= |offers|
      decreases |offers| - i
    {
      if i == |offers| || remaining <= 0 then []
      else if !Worth(i, remaining) then Load(i + 1, remaining)
      else [Kept(i, Take(offers[i].value, remaining))] + Load(i + 1, remaining - |Take(offers[i].value, remaining)|)
    }

    /** The directory offers a document that still shows something within the budget. */
    predicate Worth(i: nat, remaining: int)
      requires i < |offers| && remaining > 0
    {
      offers[i].Some? && shows(Take(offers[i].value, remaining))
    }
  }

  // ---------------------------------------------------------------------------
  // The methods.

  method AgentsMDSearchDirs(host: Host, root: Option<Path>, cwd: Option<Path>) returns (dirs: seq<Path>)
    ensures dirs == host.SearchDirs(root, cwd)
  {
    if cwd.None? {
      return [];
    }
    var here := cwd.value;
    if root.None? {
      return [here];
    }
    var top := root.value;
    if !host.PathContains(top, here) {
      return [here];
    }
    var reversed := [];
    var cursor := here;
    ReachesRoot(host, top, here);
    while true
      invariant |top| <= |cursor| <= |here| && cursor == here[..|cursor|]
      invariant |reversed| == |here| - |cursor|
      invariant forall k :: 0 <= k < |reversed| ==> reversed[k] == here[..|here| - k]
      decreases |cursor|
    {
      reversed := reversed + [cursor];
      if host.SamePath(cursor, top) {
        break;
      }
      var parent := if cursor == [] then cursor else cursor[..|cursor| - 1];
      if parent == cursor {
        break;
      }
      cursor := parent;
    }
    dirs := [];
    var i := |reversed|;
    while i > 0
      invariant 0 <= i <= |reversed| && |dirs| == |reversed| - i
      invariant forall k :: 0 <= k < |dirs| ==> dirs[k] == reversed[|reversed| - 1 - k]
    {
      i := i - 1;
      dirs := dirs + [reversed[i]];
    }
  }

  /** The ancestor of a contained directory at the depth of the root is the root. */
  lemma ReachesRoot(host: Host, top: Path, here: Path)
    requires host.PathContains(top, here)
    ensures |top| <= |here| && host.SamePath(here[..|top|], top)
  {
    forall i | 0 <= i < |top|
      ensures EqualFold(host.fold, here[i], top[i])
    {
      assert host.SameName(top[i], here[i]) || EqualFold(host.fold, top[i], here[i]);
    }
  }

  method FirstAgentsMDPath(host: Host, dir: Path, names: seq<string>) returns (name: Option<string>)
    ensures name == host.FirstRegular(dir, names)
  {
    for i := 0 to |names|
      invariant host.FirstRegular(dir, names[i..]) == host.FirstRegular(dir, names)
    {
      assert names[i..][0] == names[i] && names[i..][1..] == names[i + 1..];
      if host.IsRegular(dir, names[i]) {
        return Some(names[i]);
      }
    }
    return None;
  }

  /** The body of the loop: the first candidate is read and cut to what is left of the budget. */
  method ReadDocument(host: Host, dir: Path, names: seq<string>, remaining: int) returns (data: Option<seq<Byte>>)
    requires remaining > 0
    ensures data == host.WithinBudget(host.Document(dir, names), remaining)
  {
    var path := FirstAgentsMDPath(host, dir, names);
    if path.None? {
      return None;
    }
    var read := host.file(dir, path.value);
    if !read.Readable? {
      return None;
    }
    var cut := Take(read.data, remaining);
    if IsBlank(host.decode(cut)) {
      return None;
    }
    return Some(cut);
  }

  method LoadProjectAgentsMD(host: Host, root: Option<Path>, cwd: Option<Path>, maxBytes: int, names: seq<string>)
    returns (text: string)
    ensures text == host.Loaded(names, root, cwd, maxBytes)
  {
    if maxBytes <= 0 {
      return "";
    }
    var searchDirs := AgentsMDSearchDirs(host, root, cwd);
    if |searchDirs| == 0 {
      return "";
    }
    var remaining := maxBytes;
    var parts := [];
    ghost var kept := [];
    ghost var walk := host.WalkOver(names, searchDirs);
    ghost var all := walk.Load(0, maxBytes);
    for i := 0 to |searchDirs|
      invariant parts == host.Texts(kept)
      invariant kept + walk.Load(i, remaining) == all
    {
      if remaining <= 0 {
        break;
      }
      var read := ReadDocument(host, searchDirs[i], names, remaining);
      if read.None? {
        continue;
      }
      var data := read.value;
      parts := parts + [host.decode(data)];
      remaining := remaining - |data|;
      KeptMoves(kept, Kept(i, data), walk.Load(i + 1, remaining));
      kept := kept + [Kept(i, data)];
    }
    assert kept == all;
    text := Join(parts, "\n\n");
  }

  lemma KeptMoves(kept: seq<Kept>, k: Kept, rest: seq<Kept>)
    ensures kept + ([k] + rest) == (kept + [k]) + rest
  {}

  // ---------------------------------------------------------------------------
  // Laws.

  /** The walk runs from the root down, each directory the parent of the next, and ends at `cwd`. */
  lemma SearchDirsDescend(host: Host, root: Path, cwd: Path)
    requires host.PathContains(root, cwd)
    ensures var dirs := host.SearchDirs(Some(root), Some(cwd));
            && dirs != [] && host.SamePath(dirs[0], root) && dirs[|dirs| - 1] == cwd
            && forall i :: 0 < i < |dirs| ==> |dirs[i]| > 0 && dirs[i][..|dirs[i]| - 1] == dirs[i - 1]
  {
    assert cwd[..|cwd|] == cwd;
    forall i | 0 <= i < |root|
      ensures EqualFold(host.fold, cwd[i], root[i])
    {}
  }

  function Total(kept: seq<Kept>): nat {
    if kept == [] then 0 else |kept[0].data| + Total(kept[1..])
  }

  /** The bytes kept from directories before the `i`-th. */
  function SpentBefore(kept: seq<Kept>, i: nat): nat {
    if kept == [] then 0
    else (if kept[0].at < i then |kept[0].data| else 0) + SpentBefore(kept[1..], i)
  }

  ghost predicate Keeps(kept: seq<Kept>, i: nat, data: seq<Byte>) { Kept(i, data) in kept }

  /** What is decided about one directory, given what is left of the budget when it is reached. */
  ghost predicate Decided(walk: Walk, kept: seq<Kept>, i: nat, left: int)
    requires i < |walk.offers|
  {
    forall data :: Keeps(kept, i, data) <==>
      left > 0 && walk.Worth(i, left) && data == Take(walk.offers[i].value, left)
  }

  ghost predicate InOrder(kept: seq<Kept>, from: nat, to: nat) {
    && (forall j :: 0 <= j < |kept| ==> from <= kept[j].at < to)
    && forall j, k :: 0 <= j < k < |kept| ==> kept[j].at < kept[k].at
  }

  lemma {:induction false} LoadInOrder(walk: Walk, i: nat, remaining: int)
    requires i <= |walk.offers|
    ensures InOrder(walk.Load(i, remaining), i, |walk.offers|)
    decreases |walk.offers| - i
  {
    if i < |walk.offers| && remaining > 0 {
      if walk.Worth(i, remaining) {
        LoadInOrder(walk, i + 1, remaining - |Take(walk.offers[i].value, remaining)|);
      } else {
        LoadInOrder(walk, i + 1, remaining);
      }
    }
  }

  /** The kept bytes never exceed the budget. */
  lemma {:induction false} LoadWithinBudget(walk: Walk, i: nat, remaining: nat)
    requires i <= |walk.offers|
    ensures Total(walk.Load(i, remaining)) <= remaining
    decreases |walk.offers| - i
  {
    if i < |walk.offers| && remaining > 0 {
      if walk.Worth(i, remaining) {
        var data := Take(walk.offers[i].value, remaining);
        LoadWithinBudget(walk, i + 1, remaining - |data|);
        TotalSplits(Kept(i, data), walk.Load(i + 1, remaining - |data|));
      } else {
        LoadWithinBudget(walk, i + 1, remaining);
      }
    }
  }

  lemma TotalSplits(k: Kept, rest: seq<Kept>)
    ensures Total([k] + rest) == |k.data| + Total(rest)
  {
    assert ([k] + rest)[1..] == rest;
  }

  lemma SpentSplits(k: Kept, rest: seq<Kept>, i: nat)
    ensures SpentBefore([k] + rest, i) == (if k.at < i then |k.data| else 0) + SpentBefore(rest, i)
  {
    assert ([k] + rest)[1..] == rest;
  }

  lemma {:induction false} NothingBefore(kept: seq<Kept>, i: nat)
    requires forall j :: 0 <= j < |kept| ==> kept[j].at >= i
    ensures SpentBefore(kept, i) == 0
  {
    if kept != [] {
      NothingBefore(kept[1..], i);
    }
  }

  lemma DecidedFurther(walk: Walk, k: Kept, rest: seq<Kept>, i: nat, left: int)
    requires i < |walk.offers| && k.at != i && Decided(walk, rest, i, left)
    ensures Decided(walk, [k] + rest, i, left)
  {
    assert forall d :: Keeps([k] + rest, i, d) <==> Keeps(rest, i, d);
  }

  lemma DecidedHere(walk: Walk, k: Kept, rest: seq<Kept>, left: nat)
    requires k.at < |walk.offers| && left > 0 && walk.Worth(k.at, left) && k.data == Take(walk.offers[k.at].value, left)
    requires forall j :: 0 <= j < |rest| ==> rest[j].at > k.at
    ensures Decided(walk, [k] + rest, k.at, left)
  {
    assert forall d :: Keeps([k] + rest, k.at, d) <==> d == k.data;
  }

  /** What becomes of a directory is decided by its document and by what the directories above it left. */
  lemma {:induction false} DirectoryDecided(walk: Walk, from: nat, remaining: int, i: nat)
    requires from <= i < |walk.offers|
    ensures var kept := walk.Load(from, remaining); Decided(walk, kept, i, remaining - SpentBefore(kept, i))
    decreases |walk.offers| - from
  {
    if remaining > 0 {
      if walk.Worth(from, remaining) {
        var k := Kept(from, Take(walk.offers[from].value, remaining));
        var left := remaining - |k.data|;
        var rest := walk.Load(from + 1, left);
        LoadInOrder(walk, from + 1, left);
        SpentSplits(k, rest, i);
        if i == from {
          NothingBefore(rest, i);
          DecidedHere(walk, k, rest, remaining);
        } else {
          DirectoryDecided(walk, from + 1, left, i);
          DecidedFurther(walk, k, rest, i, left - SpentBefore(rest, i));
        }
      } else {
        LoadInOrder(walk, from + 1, remaining);
        if i == from {
          NothingBefore(walk.Load(from + 1, remaining), i);
        } else {
          DirectoryDecided(walk, from + 1, remaining, i);
        }
      }
    }
  }

  ghost predicate IsCut(walk: Walk, k: Kept) {
    k.at < |walk.offers| && walk.offers[k.at].Some? && k.data != walk.offers[k.at].value
  }

  /** Every document but the last is whole, and a last one that is not spends the budget to the byte. */
  ghost predicate CutOnlyAtEnd(walk: Walk, kept: seq<Kept>, budget: nat) {
    forall j :: 0 <= j < |kept| && IsCut(walk, kept[j]) ==> j == |kept| - 1 && Total(kept) == budget
  }

  lemma CutFurther(walk: Walk, k: Kept, rest: seq<Kept>, budget: nat)
    requires !IsCut(walk, k) && CutOnlyAtEnd(walk, rest, budget)
    ensures CutOnlyAtEnd(walk, [k] + rest, |k.data| + budget)
  {
    TotalSplits(k, rest);
    forall j | 0 <= j < |[k] + rest| && IsCut(walk, ([k] + rest)[j])
      ensures j == |rest| && Total(rest) == budget
    {
      assert ([k] + rest)[j] == rest[j - 1];
    }
  }

  lemma {:induction false} OnlyLastIsCut(walk: Walk, i: nat, remaining: nat)
    requires i <= |walk.offers|
    ensures CutOnlyAtEnd(walk, walk.Load(i, remaining), remaining)
    decreases |walk.offers| - i
  {
    if i < |walk.offers| && remaining > 0 {
      if walk.Worth(i, remaining) {
        var k := Kept(i, Take(walk.offers[i].value, remaining));
        var rest := walk.Load(i + 1, remaining - |k.data|);
        if IsCut(walk, k) {
          TotalSplits(k, rest);
        } else {
          OnlyLastIsCut(walk, i + 1, remaining - |k.data|);
          CutFurther(walk, k, rest, remaining - |k.data|);
        }
      } else {
        OnlyLastIsCut(walk, i + 1, remaining);
      }
    }
  }

  /** The loader's documents: ordered from the root down, each directory decided by its document and the
      budget the directories above it left, the budget respected, and at most the last document cut. */
  lemma LoadMeans(walk: Walk, maxBytes: nat)
    ensures var kept := walk.Load(0, maxBytes);
            && InOrder(kept, 0, |walk.offers|) && Total(kept) <= maxBytes
            && (forall i :: 0 <= i < |walk.offers| ==> Decided(walk, kept, i, maxBytes - SpentBefore(kept, i)))
            && CutOnlyAtEnd(walk, kept, maxBytes)
  {
    LoadInOrder(walk, 0, maxBytes);
    LoadWithinBudget(walk, 0, maxBytes);
    OnlyLastIsCut(walk, 0, maxBytes);
    forall i | 0 <= i < |walk.offers|
      ensures Decided(walk, walk.Load(0, maxBytes), i, maxBytes - SpentBefore(walk.Load(0, maxBytes), i))
    {
      DirectoryDecided(walk, 0, maxBytes, i);
    }
  }
}
