/** The build contexts that come out, in terms of the records that go in: which ids there are, and for every
    field of a context which record it comes from. */
module BuildContextOutput {
  import opened BuildContextLaws
  import opened BuildContexts
  import opened SemanticIndex
  import opened Sequences
  import opened Text

  // ---------------------------------------------------------------------------
  // The inputs.

  /** A record that contributes a context. */
  datatype Input =
    | FromProject(project: SolutionProject)
    | FromTarget(target: UnrealTarget)
    | FromModule(unrealModule: UnrealModule)
    | FromMsBuild(context: BuildContextRecord)
    | FromCommand(command: CompilationCommandRecord)
  {
    /** The id the context is filed under. A record without a name, or an MSBuild context without id, name
        or kind, contributes nothing. */
    predicate FiledUnder(host: Host, id: string) {
      match this
      case FromProject(p) => Trim(p.name) != "" && id == "buildctx:project:" + Trim(p.name)
      case FromTarget(t) => Trim(t.name) != "" && id == "buildctx:target:" + Trim(t.name)
      case FromModule(m) => Trim(m.name) != "" && id == "buildctx:module:" + Trim(m.name)
      case FromMsBuild(c) => Trim(c.id) == id != "" && Trim(c.name) != "" && Trim(c.kind) != ""
      case FromCommand(r) => id == Trim(CommandID(host, r))
    }

    /** What the context lists. */
    function Entries(f: ListField): seq<string> {
      match (this, f)
      case (FromProject(p), Files) => p.entryFiles + if Trim(p.path) != "" then [p.path] else []
      case (FromTarget(t), Files) => [t.path]
      case (FromModule(m), Files) => if Trim(m.path) != "" then [m.path] else []
      case (FromMsBuild(c), Files) => c.files
      case (FromMsBuild(c), IncludePaths) => c.includePaths
      case (FromMsBuild(c), Defines) => c.defines
      case (FromMsBuild(c), ForceIncludes) => c.forceIncludes
      case (FromCommand(r), Files) => [r.file]
      case (FromCommand(r), IncludePaths) => r.includePaths
      case (FromCommand(r), Defines) => r.defines
      case (FromCommand(r), ForceIncludes) => r.forceIncludes
      case _ => []
    }

    /** What the context says in its other fields. */
    function Says(host: Host, f: Field): string {
      match this
      case FromProject(p) =>
        if f == Directory then host.ToSlash(Trim(p.directory))
        else if f == Project then Trim(p.name)
        else if f == Source then Trim(p.path)
        else if f == SourceAdapter then "solution"
        else ""
      case FromTarget(t) =>
        if f == Directory then host.ToSlash(Trim(host.ToSlash(host.dirOf(t.path))))
        else if f == Target then Trim(t.name)
        else if f == Source then Trim(t.path)
        else if f == SourceAdapter then "unreal_target"
        else ""
      case FromModule(m) =>
        if f == Directory then host.ToSlash(Trim(host.ToSlash(host.dirOf(m.path))))
        else if f == ModuleName then Trim(m.name)
        else if f == Plugin then Trim(m.plugin)
        else if f == Source then Trim(m.path)
        else if f == SourceAdapter then "unreal_build_cs"
        else ""
      case FromMsBuild(c) =>
        if f == Directory then host.ToSlash(Trim(c.directory))
        else if f == Project then Trim(c.project)
        else if f == Target then Trim(c.target)
        else if f == ModuleName then Trim(c.moduleName)
        else if f == Plugin then Trim(c.plugin)
        else if f == Compiler then Trim(c.compiler)
        else if f == Source then Trim(c.source)
        else Trim(c.sourceAdapter)
      case FromCommand(r) =>
        if f == Directory then host.ToSlash(Trim(r.directory))
        else if f == ModuleName then Trim(host.moduleForFile(r.file))
        else if f == Project && Trim(host.moduleForFile(r.file)) == "" then Trim(host.projectForFile(r.file))
        else if f == Compiler then Trim(r.compiler)
        else if f == Source then Trim(r.source)
        else if f != SourceAdapter then ""
        else if Trim(r.sourceAdapter) != "" then Trim(r.sourceAdapter)
        else "compile_commands"
    }

    function Confidence(): string {
      match this
      case FromProject(_) => "medium"
      case FromTarget(_) => "high"
      case FromModule(_) => "high"
      case FromMsBuild(c) => Trim(c.confidence)
      case FromCommand(r) => if Trim(r.confidence) != "" then Trim(r.confidence) else "high"
    }

    function Name(host: Host): string {
      match this
      case FromProject(p) => Trim(p.name)
      case FromTarget(t) => Trim(t.name)
      case FromModule(m) => Trim(m.name)
      case FromMsBuild(c) => Trim(c.name)
      case FromCommand(r) => Trim(CalledAfter(host, r) + " compile context")
    }

    function Kind(): string {
      match this
      case FromProject(_) => "solution_project"
      case FromTarget(_) => "unreal_target"
      case FromModule(_) => "unreal_module"
      case FromMsBuild(c) => Trim(c.kind)
      case FromCommand(_) => "compile_command"
    }
  }

  /** What a command's context is called after. */
  function CalledAfter(host: Host, r: CompilationCommandRecord): string {
    if Trim(host.moduleForFile(r.file)) != "" then host.moduleForFile(r.file)
    else if Trim(host.projectForFile(r.file)) != "" then host.projectForFile(r.file)
    else DirectoryOf(host, r)
  }

  /** The name of the directory a command without module and project is filed under. */
  function DirectoryOf(host: Host, r: CompilationCommandRecord): string {
    var own := Trim(host.baseOf(Trim(r.directory)));
    var name := if own == "" || own == "." then Trim(host.baseOf(Trim(host.dirOf(r.file)))) else own;
    if Trim(name) != "" then name else r.directory
  }

  function CommandID(host: Host, r: CompilationCommandRecord): string {
    if Trim(host.moduleForFile(r.file)) != "" then "buildctx:compile:module:" + host.moduleForFile(r.file)
    else if Trim(host.projectForFile(r.file)) != "" then "buildctx:compile:project:" + host.projectForFile(r.file)
    else "buildctx:compile:dir:" + host.sanitize(DirectoryOf(host, r))
  }

  function OfProject(p: SolutionProject): Input { FromProject(p) }

  function OfTarget(t: UnrealTarget): Input { FromTarget(t) }

  function OfModule(m: UnrealModule): Input { FromModule(m) }

  function OfMsBuild(c: BuildContextRecord): Input { FromMsBuild(c) }

  function OfCommand(r: CompilationCommandRecord): Input { FromCommand(r) }

  /** All inputs, in the order they are merged. */
  function Inputs(snapshot: ProjectSnapshot, msbuild: seq<BuildContextRecord>, commands: seq<CompilationCommandRecord>)
    : seq<Input>
  {
    Each(OfProject, snapshot.solutionProjects) + Each(OfTarget, snapshot.unrealTargets)
    + Each(OfModule, snapshot.unrealModules) + Each(OfMsBuild, msbuild) + Each(OfCommand, commands)
  }

  // ---------------------------------------------------------------------------
  // What an input contributes.

  function ContextOf(host: Host, x: Input): BuildContextRecord {
    match x
    case FromProject(p) => host.ProjectContext(p)
    case FromTarget(t) => host.TargetContext(t)
    case FromModule(m) => host.ModuleContext(m)
    case FromMsBuild(c) => c
    case FromCommand(r) => host.CommandContext(r)
  }

  /** Every input contributes its context. */
  ghost predicate Contribute(host: Host, all: seq<BuildContextRecord>, xs: seq<Input>) {
    |all| == |xs| && forall i :: 0 <= i < |xs| ==> all[i] == ContextOf(host, xs[i])
  }

  lemma ContributeTogether(host: Host, a: seq<BuildContextRecord>, xs: seq<Input>, b: seq<BuildContextRecord>,
                           ys: seq<Input>)
    requires Contribute(host, a, xs) && Contribute(host, b, ys)
    ensures Contribute(host, a + b, xs + ys)
  {}

  lemma InputsContribute(host: Host, snapshot: ProjectSnapshot, msbuild: seq<BuildContextRecord>,
                         commands: seq<CompilationCommandRecord>)
    ensures Contribute(host, Contributions(host, snapshot, msbuild, commands), Inputs(snapshot, msbuild, commands))
  {
    var projects := Each(host.ProjectContext, snapshot.solutionProjects);
    var ps := Each(OfProject, snapshot.solutionProjects);
    var targets, ts := Each(host.TargetContext, snapshot.unrealTargets), Each(OfTarget, snapshot.unrealTargets);
    var modules, ms := Each(host.ModuleContext, snapshot.unrealModules), Each(OfModule, snapshot.unrealModules);
    ContributeTogether(host, projects, ps, targets, ts);
    ContributeTogether(host, projects + targets, ps + ts, modules, ms);
    ContributeTogether(host, projects + targets + modules, ps + ts + ms, msbuild, Each(OfMsBuild, msbuild));
    ContributeTogether(host, projects + targets + modules + msbuild, ps + ts + ms + Each(OfMsBuild, msbuild),
                       Each(host.CommandContext, commands), Each(OfCommand, commands));
  }

  lemma EntriesMean(host: Host, x: Input, f: ListField)
    ensures f.Of(ContextOf(host, x)) == x.Entries(f)
  {}

  lemma WordIsTight(word: string)
    requires word != "" && 'a' <= word[0] <= 'z' && 'a' <= word[|word| - 1] <= 'z'
    ensures Trim(word) == word
  {
    TrimOfTight(word);
  }

  /** On Windows no backslash is left and slashes stand in their places; elsewhere a path stays as it is. */
  lemma SlashesMean(host: Host, s: string)
    ensures !host.windows ==> host.ToSlash(s) == s
    ensures host.windows ==> '\\' !in host.ToSlash(s) && |host.ToSlash(s)| == |s|
    ensures host.windows ==> forall i :: 0 <= i < |s| && host.ToSlash(s)[i] != s[i] ==>
              s[i] == '\\' && host.ToSlash(s)[i] == '/'
  {
    assert forall i :: 0 <= i < |host.ToSlash(s)| ==> host.ToSlash(s)[i] == '/' || host.ToSlash(s)[i] == s[i];
  }

  function Tidied(host: Host, f: Field, s: string): string {
    if f == Directory then host.ToSlash(Trim(s)) else Trim(s)
  }

  /** Tidying takes every field to itself, trimmed. */
  lemma CleanField(host: Host, c: BuildContextRecord, f: Field)
    ensures f.Of(host.Clean(c)) == Tidied(host, f, f.Of(c))
  {
    match f
    case Directory =>
    case Project =>
    case Target =>
    case ModuleName =>
    case Plugin =>
    case Compiler =>
    case Source =>
    case SourceAdapter =>
  }

  lemma ProjectSays(host: Host, p: SolutionProject, f: Field)
    ensures Tidied(host, f, f.Of(host.ProjectContext(p))) == FromProject(p).Says(host, f)
  {
    WordIsTight("solution");
    assert Trim("") == "";
    match f
    case Directory =>
    case Project =>
    case Target =>
    case ModuleName =>
    case Plugin =>
    case Compiler =>
    case Source =>
    case SourceAdapter =>
  }

  lemma TargetSays(host: Host, t: UnrealTarget, f: Field)
    ensures Tidied(host, f, f.Of(host.TargetContext(t))) == FromTarget(t).Says(host, f)
  {
    WordIsTight("unreal_target");
    assert Trim("") == "";
    match f
    case Directory =>
    case Project =>
    case Target =>
    case ModuleName =>
    case Plugin =>
    case Compiler =>
    case Source =>
    case SourceAdapter =>
  }

  lemma ModuleSays(host: Host, m: UnrealModule, f: Field)
    ensures Tidied(host, f, f.Of(host.ModuleContext(m))) == FromModule(m).Says(host, f)
  {
    WordIsTight("unreal_build_cs");
    assert Trim("") == "";
    match f
    case Directory =>
    case Project =>
    case Target =>
    case ModuleName =>
    case Plugin =>
    case Compiler =>
    case Source =>
    case SourceAdapter =>
  }

  lemma MsBuildSays(host: Host, c: BuildContextRecord, f: Field)
    ensures Tidied(host, f, f.Of(c)) == FromMsBuild(c).Says(host, f)
  {
    match f
    case Directory =>
    case Project =>
    case Target =>
    case ModuleName =>
    case Plugin =>
    case Compiler =>
    case Source =>
    case SourceAdapter =>
  }

  /** The fields a command's context takes over as they are. */
  lemma CommandFields(host: Host, r: CompilationCommandRecord)
    ensures var c := host.CommandContext(r);
      && c.directory == r.directory && c.compiler == r.compiler && c.source == r.source
      && c.target == "" && c.plugin == ""
      && c.sourceAdapter == FirstNonBlank(r.sourceAdapter, "compile_commands")
      && c.confidence == FirstNonBlank(r.confidence, "high")
      && c.moduleName == (if Trim(host.moduleForFile(r.file)) != "" then host.moduleForFile(r.file) else "")
      && c.project == if Trim(host.moduleForFile(r.file)) == "" && Trim(host.projectForFile(r.file)) != "" then
                        host.projectForFile(r.file) else ""
  {}

  lemma CommandSays(host: Host, r: CompilationCommandRecord, f: Field)
    ensures Tidied(host, f, f.Of(host.CommandContext(r))) == FromCommand(r).Says(host, f)
  {
    CommandFields(host, r);
    WordIsTight("compile_commands");
    assert Trim("") == "";
    match f
    case Directory =>
    case Project =>
    case Target =>
    case ModuleName =>
    case Plugin =>
    case Compiler =>
    case Source =>
    case SourceAdapter =>
  }

  lemma SaysMean(host: Host, x: Input, f: Field)
    ensures f.Of(host.Clean(ContextOf(host, x))) == x.Says(host, f)
  {
    CleanField(host, ContextOf(host, x), f);
    match x
    case FromProject(p) => ProjectSays(host, p, f);
    case FromTarget(t) => TargetSays(host, t, f);
    case FromModule(m) => ModuleSays(host, m, f);
    case FromMsBuild(c) => MsBuildSays(host, c, f);
    case FromCommand(r) => CommandSays(host, r, f);
  }

  lemma CleanName(host: Host, c: BuildContextRecord)
    ensures host.Clean(c).name == Trim(c.name)
  {}

  lemma CommandName(host: Host, r: CompilationCommandRecord)
    ensures host.CommandContext(r).name == CalledAfter(host, r) + " compile context"
  {}

  lemma NameMeans(host: Host, x: Input)
    ensures host.Clean(ContextOf(host, x)).name == x.Name(host)
  {
    CleanName(host, ContextOf(host, x));
    match x
    case FromProject(p) =>
    case FromTarget(t) =>
    case FromModule(m) =>
    case FromMsBuild(c) =>
    case FromCommand(r) => CommandName(host, r);
  }

  lemma KindMeans(host: Host, x: Input)
    ensures host.Clean(ContextOf(host, x)).kind == x.Kind()
  {
    match x
    case FromProject(p) => WordIsTight("solution_project");
    case FromTarget(t) => WordIsTight("unreal_target");
    case FromModule(m) => WordIsTight("unreal_module");
    case FromMsBuild(c) =>
    case FromCommand(r) => WordIsTight("compile_command");
  }

  lemma CleanConfidence(host: Host, c: BuildContextRecord)
    ensures host.Clean(c).confidence == Trim(c.confidence)
  {}

  lemma CommandConfidence(host: Host, r: CompilationCommandRecord)
    ensures Trim(host.CommandContext(r).confidence) == FromCommand(r).Confidence()
  {
    CommandFields(host, r);
    WordIsTight("high");
  }

  lemma ConfidenceMeans(host: Host, x: Input)
    ensures host.Clean(ContextOf(host, x)).confidence == x.Confidence()
  {
    CleanConfidence(host, ContextOf(host, x));
    match x
    case FromProject(p) => WordIsTight("medium");
    case FromTarget(t) => WordIsTight("high");
    case FromModule(m) => WordIsTight("high");
    case FromMsBuild(c) =>
    case FromCommand(r) => CommandConfidence(host, r);
  }

  lemma PrefixedTrims(prefix: string, s: string)
    requires prefix != "" && !IsSpace(prefix[0]) && !IsSpace(prefix[|prefix| - 1])
    ensures Trim(prefix + Trim(s)) == prefix + Trim(s) && !IsBlank(prefix + Trim(s))
  {
    var id := prefix + Trim(s);
    TrimIdempotent(s);
    assert id[0] == prefix[0];
    assert id[|id| - 1] == if Trim(s) == "" then prefix[|prefix| - 1] else Trim(s)[|Trim(s)| - 1];
    TrimOfTight(id);
  }

  lemma KindShows(host: Host, x: Input)
    requires !x.FromMsBuild?
    ensures !IsBlank(ContextOf(host, x).kind)
  {
    KindMeans(host, x);
    assert x.Kind() != "";
  }

  /** An input's context is accepted under an id exactly when the input is filed under it. */
  lemma FiledMeans(host: Host, x: Input, id: string)
    ensures Accepted(ContextOf(host, x)) && Trim(ContextOf(host, x).id) == id <==> x.FiledUnder(host, id)
  {
    match x
    case FromProject(p) =>
      PrefixedTrims(PROJECT_PREFIX, p.name);
      KindShows(host, x);
    case FromTarget(t) =>
      PrefixedTrims(TARGET_PREFIX, t.name);
      KindShows(host, x);
    case FromModule(m) =>
      PrefixedTrims(MODULE_PREFIX, m.name);
      KindShows(host, x);
    case FromMsBuild(c) =>
    case FromCommand(r) =>
      CommandIsAccepted(host, r);
      CommandIDMeans(host, r);
  }

  lemma CommandIDMeans(host: Host, r: CompilationCommandRecord)
    ensures host.CommandContext(r).id == CommandID(host, r)
  {}

  // ---------------------------------------------------------------------------
  // What comes out.

  ghost predicate SaidAt(host: Host, xs: seq<Input>, id: string, f: Field, v: string, i: nat) {
    && i < |xs| && xs[i].FiledUnder(host, id) && xs[i].Says(host, f) == v != ""
    && forall j :: 0 <= j < i && xs[j].FiledUnder(host, id) ==> xs[j].Says(host, f) == ""
  }

  /** The first input filed under the id that fills the field, or none does. */
  ghost predicate FirstSaid(host: Host, xs: seq<Input>, id: string, f: Field, v: string) {
    || (v == "" && forall i :: 0 <= i < |xs| && xs[i].FiledUnder(host, id) ==> xs[i].Says(host, f) == "")
    || exists i: nat :: SaidAt(host, xs, id, f, v, i)
  }

  /** The confidence is the word, in any case of its letters. */
  predicate Reads(host: Host, confidence: string, word: string) {
    Trim(Lower(host.lower, confidence)) == word
  }

  /** High stands above medium, medium above low, and low above everything else. */
  predicate AtMost(host: Host, confidence: string, v: string) {
    || Reads(host, v, "high")
    || (Reads(host, v, "medium") && !Reads(host, confidence, "high"))
    || (Reads(host, v, "low") && !Reads(host, confidence, "high") && !Reads(host, confidence, "medium"))
    || !(Reads(host, confidence, "high") || Reads(host, confidence, "medium") || Reads(host, confidence, "low"))
  }

  /** Blank, or not as high. */
  predicate Below(host: Host, confidence: string, v: string) {
    confidence != "" ==> !AtMost(host, v, confidence)
  }

  lemma AtMostIsRank(host: Host, confidence: string, v: string)
    ensures AtMost(host, confidence, v) <==> host.Rank(confidence) <= host.Rank(v)
  {}

  ghost predicate TrustedAt(host: Host, xs: seq<Input>, id: string, v: string, i: nat) {
    && i < |xs| && xs[i].FiledUnder(host, id) && xs[i].Confidence() == v != ""
    && (forall j: nat :: j < |xs| && xs[j].FiledUnder(host, id) ==> AtMost(host, xs[j].Confidence(), v))
    && forall j: nat :: j < i && xs[j].FiledUnder(host, id) ==> Below(host, xs[j].Confidence(), v)
  }

  /** The first of the highest-ranked confidences, or none is filled. */
  ghost predicate MostTrusted(host: Host, xs: seq<Input>, id: string, v: string) {
    || (v == "" && forall i :: 0 <= i < |xs| && xs[i].FiledUnder(host, id) ==> xs[i].Confidence() == "")
    || exists i: nat :: TrustedAt(host, xs, id, v, i)
  }

  /** Some input filed under the id lists the entry, white space aside. */
  ghost predicate SomeLists(host: Host, xs: seq<Input>, id: string, f: ListField, s: string) {
    exists x :: x in xs && x.FiledUnder(host, id) && TrimsTo(x.Entries(f), s)
  }

  ghost predicate SomeFiled(host: Host, xs: seq<Input>, id: string) {
    exists x :: x in xs && x.FiledUnder(host, id)
  }

  /** The accepted contributions to an id come from the inputs filed under it, in order. */
  ghost predicate GroupedFrom(host: Host, xs: seq<Input>, id: string, group: seq<BuildContextRecord>,
                              places: seq<nat>)
  {
    && |places| == |group| && Ascends(places)
    && (forall k :: 0 <= k < |places| ==>
          places[k] < |xs| && xs[places[k]].FiledUnder(host, id) &&
          group[k] == host.Clean(ContextOf(host, xs[places[k]])))
    && forall i: nat :: i < |xs| && xs[i].FiledUnder(host, id) ==> i in places
  }

  lemma GroupPlaces(host: Host, all: seq<BuildContextRecord>, xs: seq<Input>, id: string) returns (places: seq<nat>)
    requires Contribute(host, all, xs)
    ensures GroupedFrom(host, xs, id, Group(host, all, id), places)
  {
    var filing := Filing(host, id);
    places := Places(filing.Filed, all);
    PlacesMean(filing.Filed, all);
    forall i | 0 <= i < |xs|
      ensures filing.Filed(all[i]) == if xs[i].FiledUnder(host, id) then [host.Clean(ContextOf(host, xs[i]))] else []
    {
      FiledMeans(host, xs[i], id);
    }
  }

  /** Some entry of the group comes from an input filed under the id. */
  lemma InputHasPlace(host: Host, xs: seq<Input>, id: string, group: seq<BuildContextRecord>, places: seq<nat>, j: nat)
    returns (l: nat)
    requires GroupedFrom(host, xs, id, group, places) && j < |xs| && xs[j].FiledUnder(host, id)
    ensures l < |places| && places[l] == j && places[0] <= j
  {
    l :| 0 <= l < |places| && places[l] == j;
    assert places[0] <= places[l];
  }

  lemma AscendsBack(places: seq<nat>, l: nat, k: nat)
    requires Ascends(places) && l < |places| && k < |places| && places[l] < places[k]
    ensures l < k
  {}

  lemma FirstSaidByGroup(host: Host, xs: seq<Input>, id: string, group: seq<BuildContextRecord>, places: seq<nat>,
                         f: Field, v: string)
    requires GroupedFrom(host, xs, id, group, places) && IsFirstFilled(v, group, f)
    ensures FirstSaid(host, xs, id, f, v)
  {
    if v == "" {
      forall i | 0 <= i < |xs| && xs[i].FiledUnder(host, id)
        ensures xs[i].Says(host, f) == ""
      {
        var l := InputHasPlace(host, xs, id, group, places, i);
        SaysMean(host, xs[i], f);
      }
    } else {
      var k :| 0 <= k < |group| && FilledFirstAt(v, group, f, k);
      FirstPlaceSays(host, xs, id, group, places, f, v, k);
    }
  }

  lemma FirstPlaceSays(host: Host, xs: seq<Input>, id: string, group: seq<BuildContextRecord>, places: seq<nat>,
                       f: Field, v: string, k: nat)
    requires GroupedFrom(host, xs, id, group, places) && k < |group| && FilledFirstAt(v, group, f, k)
    ensures SaidAt(host, xs, id, f, v, places[k])
  {
    SaysMean(host, xs[places[k]], f);
    forall j | 0 <= j < places[k] && xs[j].FiledUnder(host, id)
      ensures xs[j].Says(host, f) == ""
    {
      var l := InputHasPlace(host, xs, id, group, places, j);
      SaysMean(host, xs[j], f);
      AscendsBack(places, l, k);
    }
  }

  lemma TrustedByGroup(host: Host, xs: seq<Input>, id: string, group: seq<BuildContextRecord>, places: seq<nat>,
                       v: string)
    requires GroupedFrom(host, xs, id, group, places) && IsStrongest(host, v, group)
    ensures MostTrusted(host, xs, id, v)
  {
    forall k | 0 <= k < |places|
      ensures group[k].confidence == xs[places[k]].Confidence()
    {
      ConfidenceMeans(host, xs[places[k]]);
    }
    if v == "" {
      forall i | 0 <= i < |xs| && xs[i].FiledUnder(host, id)
        ensures xs[i].Confidence() == ""
      {
        var k :| 0 <= k < |places| && places[k] == i;
      }
    } else {
      var k :| 0 <= k < |group| && StrongestAt(host, v, group, k);
      TrustedPlace(host, xs, id, group, places, v, k);
    }
  }

  lemma TrustedPlace(host: Host, xs: seq<Input>, id: string, group: seq<BuildContextRecord>, places: seq<nat>,
                     v: string, k: nat)
    requires GroupedFrom(host, xs, id, group, places) && k < |group| && StrongestAt(host, v, group, k)
    requires forall k :: 0 <= k < |places| ==> group[k].confidence == xs[places[k]].Confidence()
    ensures TrustedAt(host, xs, id, v, places[k])
  {
    forall j: nat | j < |xs| && xs[j].FiledUnder(host, id)
      ensures AtMost(host, xs[j].Confidence(), v) && (j < places[k] ==> Below(host, xs[j].Confidence(), v))
    {
      PlaceIsBeaten(host, xs, id, group, places, v, k, j);
    }
  }

  lemma PlaceIsBeaten(host: Host, xs: seq<Input>, id: string, group: seq<BuildContextRecord>, places: seq<nat>,
                      v: string, k: nat, j: nat)
    requires GroupedFrom(host, xs, id, group, places) && k < |group| && StrongestAt(host, v, group, k)
    requires j < |xs| && xs[j].FiledUnder(host, id)
    ensures AtMost(host, xs[j].Confidence(), v) && (j < places[k] ==> Below(host, xs[j].Confidence(), v))
  {
    var l := InputHasPlace(host, xs, id, group, places, j);
    ConfidenceMeans(host, xs[j]);
    StrongestBeats(host, v, group, k, l);
    if j < places[k] {
      AscendsBack(places, l, k);
    }
  }

  lemma StrongestBeats(host: Host, v: string, group: seq<BuildContextRecord>, k: nat, l: nat)
    requires k < |group| && StrongestAt(host, v, group, k) && l < |group|
    ensures AtMost(host, group[l].confidence, v) && (l < k ==> Below(host, group[l].confidence, v))
  {
    AtMostIsRank(host, group[l].confidence, v);
    AtMostIsRank(host, v, group[l].confidence);
  }

  lemma ListedByInputs(host: Host, all: seq<BuildContextRecord>, xs: seq<Input>, id: string, f: ListField, s: string)
    requires Contribute(host, all, xs)
    ensures Gives(all, id, f, s) <==> SomeLists(host, xs, id, f, s)
  {
    if c :| c in all && GivesTo(c, id, f, s) {
      var i :| 0 <= i < |all| && all[i] == c;
      FiledMeans(host, xs[i], id);
      EntriesMean(host, xs[i], f);
      assert xs[i] in xs && TrimsTo(xs[i].Entries(f), s);
    }
    if x :| x in xs && x.FiledUnder(host, id) && TrimsTo(x.Entries(f), s) {
      var i :| 0 <= i < |xs| && xs[i] == x;
      FiledMeans(host, x, id);
      EntriesMean(host, x, f);
      assert all[i] in all && GivesTo(all[i], id, f, s);
    }
  }

  /** The contexts that come out have exactly the ids under which some input is filed. */
  lemma IdsMean(host: Host, snapshot: ProjectSnapshot, msbuild: seq<BuildContextRecord>,
                commands: seq<CompilationCommandRecord>, contexts: seq<BuildContextRecord>, id: string)
    requires Lists(contexts, host.MergeAll(map[], Contributions(host, snapshot, msbuild, commands)))
    ensures (exists c :: c in contexts && c.id == id) <==> SomeFiled(host, Inputs(snapshot, msbuild, commands), id)
  {
    var all, xs := Contributions(host, snapshot, msbuild, commands), Inputs(snapshot, msbuild, commands);
    InputsContribute(host, snapshot, msbuild, commands);
    MergedMeans(host, all, id);
    FiledUnderOwnId(host, all);
    ListedIffMerged(contexts, host.MergeAll(map[], all), id);
    GroupedIff(host, all, xs, id);
  }

  lemma GroupedIff(host: Host, all: seq<BuildContextRecord>, xs: seq<Input>, id: string)
    requires Contribute(host, all, xs)
    ensures Group(host, all, id) != [] <==> SomeFiled(host, xs, id)
  {
    var places := GroupPlaces(host, all, xs, id);
    if places != [] {
      assert xs[places[0]] in xs;
    }
    if x :| x in xs && x.FiledUnder(host, id) {
      var i :| 0 <= i < |xs| && xs[i] == x;
      assert i in places;
    }
  }

  lemma ListedIffMerged(contexts: seq<BuildContextRecord>, m: map<string, BuildContextRecord>, id: string)
    requires Lists(contexts, m) && FiledByID(m)
    ensures (exists c :: c in contexts && c.id == id) <==> id in m
  {
    if id in m {
      assert m[id] in contexts;
    }
  }

  /** The first input filed under the id gives name and kind. */
  ghost predicate NamedAt(host: Host, xs: seq<Input>, c: BuildContextRecord, i: nat) {
    && i < |xs| && xs[i].FiledUnder(host, c.id) && c.name == xs[i].Name(host) && c.kind == xs[i].Kind()
    && forall j :: 0 <= j < i ==> !xs[j].FiledUnder(host, c.id)
  }

  lemma NamedByGroup(host: Host, xs: seq<Input>, c: BuildContextRecord, group: seq<BuildContextRecord>,
                     places: seq<nat>)
    requires GroupedFrom(host, xs, c.id, group, places) && group != []
    requires c.name == group[0].name && c.kind == group[0].kind
    ensures NamedAt(host, xs, c, places[0])
  {
    NameMeans(host, xs[places[0]]);
    KindMeans(host, xs[places[0]]);
    forall j | 0 <= j < places[0]
      ensures !xs[j].FiledUnder(host, c.id)
    {
      if xs[j].FiledUnder(host, c.id) {
        var _ := InputHasPlace(host, xs, c.id, group, places, j);
        assert false;
      }
    }
  }

  /** Every field of a context that comes out, in terms of the inputs filed under its id: the lists hold
      exactly what these list, the other fields are what the first that fills them says, the confidence is the
      first of the highest rank, and the very first gives name and kind. */
  lemma OutputMeans(host: Host, snapshot: ProjectSnapshot, msbuild: seq<BuildContextRecord>,
                    commands: seq<CompilationCommandRecord>, contexts: seq<BuildContextRecord>, c: BuildContextRecord)
    requires Lists(contexts, host.MergeAll(map[], Contributions(host, snapshot, msbuild, commands)))
    requires c in contexts
    ensures var xs := Inputs(snapshot, msbuild, commands);
      && (forall f: ListField, s :: s in f.Of(c) <==> s != "" && SomeLists(host, xs, c.id, f, s))
      && (forall f: Field :: FirstSaid(host, xs, c.id, f, f.Of(c)))
      && MostTrusted(host, xs, c.id, c.confidence) && exists i: nat :: NamedAt(host, xs, c, i)
  {
    var all, xs := Contributions(host, snapshot, msbuild, commands), Inputs(snapshot, msbuild, commands);
    InputsContribute(host, snapshot, msbuild, commands);
    MergedMeans(host, all, c.id);
    var group := Group(host, all, c.id);
    var places := GroupPlaces(host, all, xs, c.id);
    forall f: Field
      ensures FirstSaid(host, xs, c.id, f, f.Of(c))
    {
      FirstSaidByGroup(host, xs, c.id, group, places, f, f.Of(c));
    }
    TrustedByGroup(host, xs, c.id, group, places, c.confidence);
    NamedByGroup(host, xs, c, group, places);
    forall f: ListField, s
      ensures s in f.Of(c) <==> s != "" && SomeLists(host, xs, c.id, f, s)
    {
      UnionMeans(host, all, c.id, f);
      ListedByInputs(host, all, xs, c.id, f, s);
    }
  }

  // ---------------------------------------------------------------------------
  // In particular, for compile commands.

  /** The stored id of a command, and nothing else of it, is changed. */
  lemma StampIs(host: Host, r: CompilationCommandRecord)
    ensures host.Stamp(r) == r.(buildContextID := CommandID(host, r))
  {
    CommandIDMeans(host, r);
  }

  /** The command's entry is listed in the context, white space aside. */
  predicate Shows(entries: seq<string>, listed: seq<string>) {
    forall s | s in entries && Trim(s) != "" :: Trim(s) in listed
  }

  lemma CommandIsInput(snapshot: ProjectSnapshot, msbuild: seq<BuildContextRecord>,
                       commands: seq<CompilationCommandRecord>, r: CompilationCommandRecord)
    requires r in commands
    ensures FromCommand(r) in Inputs(snapshot, msbuild, commands)
  {
    var i :| 0 <= i < |commands| && commands[i] == r;
    var tail := Each(OfCommand, commands);
    assert tail[i] == FromCommand(r) && tail[i] in tail;
  }

  lemma InputShows(host: Host, xs: seq<Input>, x: Input, c: BuildContextRecord, f: ListField)
    requires x in xs && x.FiledUnder(host, c.id)
    requires forall s :: s in f.Of(c) <==> s != "" && SomeLists(host, xs, c.id, f, s)
    ensures Shows(x.Entries(f), f.Of(c))
  {
    forall s | s in x.Entries(f) && Trim(s) != ""
      ensures Trim(s) in f.Of(c)
    {
      TrimsToMember(x.Entries(f), Trim(s));
    }
  }

  lemma CommandIsFiled(host: Host, r: CompilationCommandRecord)
    ensures FromCommand(r).FiledUnder(host, Trim(host.Stamp(r).buildContextID))
  {
    StampIs(host, r);
  }

  lemma CommandLists(host: Host, snapshot: ProjectSnapshot, msbuild: seq<BuildContextRecord>,
                     commands: seq<CompilationCommandRecord>, contexts: seq<BuildContextRecord>,
                     r: CompilationCommandRecord, c: BuildContextRecord)
    requires Lists(contexts, host.MergeAll(map[], Contributions(host, snapshot, msbuild, commands)))
    requires r in commands && c in contexts && c.id == Trim(host.Stamp(r).buildContextID)
    ensures forall f: ListField :: Shows(FromCommand(r).Entries(f), f.Of(c))
  {
    OutputMeans(host, snapshot, msbuild, commands, contexts, c);
    CommandIsInput(snapshot, msbuild, commands, r);
    CommandIsFiled(host, r);
    forall f: ListField
      ensures Shows(FromCommand(r).Entries(f), f.Of(c))
    {
      InputShows(host, Inputs(snapshot, msbuild, commands), FromCommand(r), c, f);
    }
  }

  /** The context a command names lists its file, its include paths, its defines and its forced includes. */
  lemma CommandShows(host: Host, snapshot: ProjectSnapshot, msbuild: seq<BuildContextRecord>,
                     commands: seq<CompilationCommandRecord>, contexts: seq<BuildContextRecord>,
                     r: CompilationCommandRecord, c: BuildContextRecord)
    requires Lists(contexts, host.MergeAll(map[], Contributions(host, snapshot, msbuild, commands)))
    requires r in commands && c in contexts && c.id == Trim(host.Stamp(r).buildContextID)
    ensures Shows([r.file], c.files) && Shows(r.includePaths, c.includePaths)
    ensures Shows(r.defines, c.defines) && Shows(r.forceIncludes, c.forceIncludes)
  {
    CommandLists(host, snapshot, msbuild, commands, contexts, r, c);
    FourLists(r, c);
  }

  lemma FourLists(r: CompilationCommandRecord, c: BuildContextRecord)
    requires forall f: ListField :: Shows(FromCommand(r).Entries(f), f.Of(c))
    ensures Shows([r.file], c.files) && Shows(r.includePaths, c.includePaths)
    ensures Shows(r.defines, c.defines) && Shows(r.forceIncludes, c.forceIncludes)
  {
    assert Shows(FromCommand(r).Entries(Files), Files.Of(c));
    assert Shows(FromCommand(r).Entries(IncludePaths), IncludePaths.Of(c));
    assert Shows(FromCommand(r).Entries(Defines), Defines.Of(c));
    assert Shows(FromCommand(r).Entries(ForceIncludes), ForceIncludes.Of(c));
  }
}
