/** `buildSnapshotBuildContexts`: contexts from four sources and from the compile commands are merged by
    id, and every compile command is told, in place, which context it belongs to. */
module BuildContexts {
  import opened Text
  import opened SemanticIndex
  import opened Sequences
  import Sorting
  import RelevantMerge

  datatype SolutionProject = SolutionProject(name: string, path: string, directory: string, entryFiles: seq<string>)

  datatype UnrealTarget = UnrealTarget(name: string, path: string)

  datatype UnrealModule = UnrealModule(name: string, path: string, plugin: string)

  datatype ProjectSnapshot = ProjectSnapshot(
    solutionProjects: seq<SolutionProject>, unrealTargets: seq<UnrealTarget>, unrealModules: seq<UnrealModule>)

  datatype CompilationCommandRecord = CompilationCommandRecord(
    file: string, directory: string, compiler: string, includePaths: seq<string>, defines: seq<string>,
    forceIncludes: seq<string>, buildContextID: string, source: string, sourceAdapter: string, confidence: string)

  /** The platform and the snapshot lookups: the path separator, `filepath.Dir`, `filepath.Base`,
      `strings.ToLower` beyond ASCII, `sanitizeFileName`, `unrealModuleForFile`, `projectNameForFile`. */
  datatype Host = Host(windows: bool, dirOf: string -> string, baseOf: string -> string, lower: char -> char,
                       sanitize: string -> string, moduleForFile: string -> string, projectForFile: string -> string) {

    /** `filepath.ToSlash`. */
    function ToSlash(s: string): string {
      if windows then seq(|s|, i requires 0 <= i < |s| => if s[i] == '\\' then '/' else s[i]) else s
    }

    /** `runtimeEdgeConfidenceRank`. */
    function Rank(confidence: string): nat {
      var c := Trim(Lower(lower, confidence));
      if c == "high" then 3 else if c == "medium" then 2 else if c == "low" then 1 else 0
    }

    /** `strongestAnalysisConfidence`. */
    function Strongest(left: string, right: string): string {
      var l, r := Trim(left), Trim(right);
      if l == "" then r
      else if r == "" then l
      else if Rank(r) > Rank(l) then r
      else l
    }

    /** The first part of `mergeContext`: every field is tidied. */
    function Clean(c: BuildContextRecord): BuildContextRecord {
      BuildContextRecord(
        Trim(c.id), Trim(c.name), Trim(c.kind), ToSlash(Trim(c.directory)), Trim(c.project), Trim(c.target),
        Trim(c.moduleName), Trim(c.plugin), Trim(c.compiler), Uniques(c.files), Uniques(c.includePaths),
        Uniques(c.defines), Uniques(c.forceIncludes), Trim(c.source), Trim(c.sourceAdapter), Trim(c.confidence))
    }

    /** The last part of `mergeContext`: a tidied context joins the one that has its id already. */
    function Joined(existing: BuildContextRecord, c: BuildContextRecord): BuildContextRecord {
      BuildContextRecord(
        existing.id, existing.name, existing.kind,
        FirstNonBlank(existing.directory, c.directory), FirstNonBlank(existing.project, c.project),
        FirstNonBlank(existing.target, c.target), FirstNonBlank(existing.moduleName, c.moduleName),
        FirstNonBlank(existing.plugin, c.plugin), FirstNonBlank(existing.compiler, c.compiler),
        Uniques(existing.files + c.files), Uniques(existing.includePaths + c.includePaths),
        Uniques(existing.defines + c.defines), Uniques(existing.forceIncludes + c.forceIncludes),
        FirstNonBlank(existing.source, c.source), FirstNonBlank(existing.sourceAdapter, c.sourceAdapter),
        Strongest(existing.confidence, c.confidence))
    }

    function MergeContext(m: map<string, BuildContextRecord>, ctx: BuildContextRecord): map<string, BuildContextRecord>
    {
      var c := Clean(ctx);
      if !Accepted(ctx) then m
      else if c.id !in m then m[c.id := c]
      else m[c.id := Joined(m[c.id], c)]
    }

    function MergeAll(m: map<string, BuildContextRecord>, contexts: seq<BuildContextRecord>)
      : map<string, BuildContextRecord>
    {
      if contexts == [] then m
      else MergeContext(MergeAll(m, contexts[..|contexts| - 1]), contexts[|contexts| - 1])
    }

    // -------------------------------------------------------------------------
    // The contexts each source contributes.

    function ProjectContext(p: SolutionProject): BuildContextRecord {
      var files := p.entryFiles + if Trim(p.path) != "" then [p.path] else [];
      BuildContextRecord(PROJECT_PREFIX + Trim(p.name), p.name, "solution_project", p.directory, p.name, "", "", "", "",
                         files, [], [], [], p.path, "solution", "medium")
    }

    function TargetContext(t: UnrealTarget): BuildContextRecord {
      BuildContextRecord(TARGET_PREFIX + Trim(t.name), t.name, "unreal_target", ToSlash(dirOf(t.path)), "", t.name, "",
                         "", "", [t.path], [], [], [], t.path, "unreal_target", "high")
    }

    function ModuleContext(m: UnrealModule): BuildContextRecord {
      var files := if Trim(m.path) != "" then [m.path] else [];
      BuildContextRecord(MODULE_PREFIX + Trim(m.name), m.name, "unreal_module", ToSlash(dirOf(m.path)), "", "", m.name,
                         m.plugin, "", files, [], [], [], m.path, "unreal_build_cs", "high")
    }

    /** The directory a command without module and project is filed under. */
    function DirectoryName(record: CompilationCommandRecord): string {
      var dirName := Trim(baseOf(Trim(record.directory)));
      var name := if dirName == "" || dirName == "." then Trim(baseOf(Trim(dirOf(record.file)))) else dirName;
      FirstNonBlank(name, record.directory)
    }

    function CommandContext(record: CompilationCommandRecord): BuildContextRecord {
      var moduleName := moduleForFile(record.file);
      var projectName := projectForFile(record.file);
      var adapter := FirstNonBlank(record.sourceAdapter, "compile_commands");
      var confidence := FirstNonBlank(record.confidence, "high");
      if Trim(moduleName) != "" then
        BuildContextRecord(COMPILE_MODULE_PREFIX + moduleName, moduleName + NAME_SUFFIX, "compile_command",
                           record.directory, "", "", moduleName, "", record.compiler, [record.file],
                           record.includePaths, record.defines, record.forceIncludes, record.source, adapter,
                           confidence)
      else if Trim(projectName) != "" then
        BuildContextRecord(COMPILE_PROJECT_PREFIX + projectName, projectName + NAME_SUFFIX, "compile_command",
                           record.directory, projectName, "", "", "", record.compiler, [record.file],
                           record.includePaths, record.defines, record.forceIncludes, record.source, adapter,
                           confidence)
      else
        BuildContextRecord(COMPILE_DIR_PREFIX + sanitize(DirectoryName(record)), DirectoryName(record) + NAME_SUFFIX,
                           "compile_command", record.directory, "", "", "", "", record.compiler, [record.file],
                           record.includePaths, record.defines, record.forceIncludes, record.source, adapter,
                           confidence)
    }

    function Stamp(record: CompilationCommandRecord): CompilationCommandRecord {
      record.(buildContextID := CommandContext(record).id)
    }
  }

  const PROJECT_PREFIX := "buildctx:project:"
  const TARGET_PREFIX := "buildctx:target:"
  const MODULE_PREFIX := "buildctx:module:"
  const COMPILE_MODULE_PREFIX := "buildctx:compile:module:"
  const COMPILE_PROJECT_PREFIX := "buildctx:compile:project:"
  const COMPILE_DIR_PREFIX := "buildctx:compile:dir:"
  const NAME_SUFFIX := " compile context"

  /** `mergeContext` drops a context with a blank id, name or kind. */
  predicate Accepted(c: BuildContextRecord) {
    !IsBlank(c.id) && !IsBlank(c.name) && !IsBlank(c.kind)
  }

  /** Everything `mergeContext` is called with, in order. */
  function Contributions(host: Host, snapshot: ProjectSnapshot, msbuild: seq<BuildContextRecord>,
                         commands: seq<CompilationCommandRecord>): seq<BuildContextRecord> {
    Each(host.ProjectContext, snapshot.solutionProjects) + Each(host.TargetContext, snapshot.unrealTargets)
    + Each(host.ModuleContext, snapshot.unrealModules) + msbuild + Each(host.CommandContext, commands)
  }

  /** The contexts of a map, listed by ascending id. */
  ghost predicate Lists(contexts: seq<BuildContextRecord>, m: map<string, BuildContextRecord>) {
    && Sorting.StrictlyAscending(contexts, RelevantMerge.ContextKey)
    && forall c :: c in contexts <==> c.id in m && m[c.id] == c
  }

  lemma {:induction false} MergeAllConcat(host: Host, m: map<string, BuildContextRecord>, a: seq<BuildContextRecord>,
                                          b: seq<BuildContextRecord>)
    ensures host.MergeAll(m, a + b) == host.MergeAll(host.MergeAll(m, a), b)
  {
    if b == [] {
      assert a + b == a;
    } else {
      assert (a + b)[..|a + b| - 1] == a + b[..|b| - 1];
      MergeAllConcat(host, m, a, b[..|b| - 1]);
    }
  }

  lemma MergeOneMore(host: Host, m: map<string, BuildContextRecord>, contexts: seq<BuildContextRecord>, i: nat)
    requires i < |contexts|
    ensures host.MergeAll(m, contexts[..i + 1]) == host.MergeContext(host.MergeAll(m, contexts[..i]), contexts[i])
  {
    assert contexts[..i + 1][..i] == contexts[..i];
  }

  lemma FiveRounds(host: Host, a: seq<BuildContextRecord>, b: seq<BuildContextRecord>, c: seq<BuildContextRecord>,
                   d: seq<BuildContextRecord>, e: seq<BuildContextRecord>)
    ensures host.MergeAll(map[], a + b + c + d + e)
         == host.MergeAll(host.MergeAll(host.MergeAll(host.MergeAll(host.MergeAll(map[], a), b), c), d), e)
  {
    MergeAllConcat(host, map[], a + b + c + d, e);
    MergeAllConcat(host, map[], a + b + c, d);
    MergeAllConcat(host, map[], a + b, c);
    MergeAllConcat(host, map[], a, b);
  }

  // ---------------------------------------------------------------------------
  // The method, with the state its closure captures as an object.

  class ContextMerger {
    const host: Host
    var contextByID: map<string, BuildContextRecord>

    constructor (host: Host)
      ensures this.host == host && contextByID == map[]
    {
      this.host := host;
      contextByID := map[];
    }

    /** The `mergeContext` closure. */
    method Merge(ctx: BuildContextRecord)
      modifies this
      ensures contextByID == host.MergeContext(old(contextByID), ctx)
    {
      var c := host.Clean(ctx);
      if c.id == "" || c.name == "" || c.kind == "" {
        return;
      }
      if c.id !in contextByID {
        contextByID := contextByID[c.id := c];
        return;
      }
      contextByID := contextByID[c.id := host.Joined(contextByID[c.id], c)];
    }

    method MergeEach<A>(items: seq<A>, context: A -> BuildContextRecord)
      modifies this
      ensures contextByID == host.MergeAll(old(contextByID), Each(context, items))
    {
      ghost var all := Each(context, items);
      for i := 0 to |items|
        invariant contextByID == host.MergeAll(old(contextByID), all[..i])
      {
        MergeOneMore(host, old(contextByID), all, i);
        Merge(context(items[i]));
      }
      assert all[..|items|] == all;
    }

    /** The body of the loop over the compile commands: the record is stamped where it stands. */
    method MergeCommand(compileCommands: array<CompilationCommandRecord>, index: nat)
      requires index < compileCommands.Length
      modifies this, compileCommands
      ensures compileCommands[..] == old(compileCommands[..])[index := host.Stamp(old(compileCommands[index]))]
      ensures contextByID == host.MergeContext(old(contextByID), host.CommandContext(old(compileCommands[index])))
    {
      var ctx := host.CommandContext(compileCommands[index]);
      compileCommands[index] := compileCommands[index].(buildContextID := ctx.id);
      Merge(ctx);
    }

    /** The loop over the compile commands, which stamps each one. */
    method MergeCommands(compileCommands: array<CompilationCommandRecord>)
      modifies this, compileCommands
      ensures compileCommands[..] == Each(host.Stamp, old(compileCommands[..]))
      ensures contextByID == host.MergeAll(old(contextByID), Each(host.CommandContext, old(compileCommands[..])))
    {
      ghost var before := compileCommands[..];
      ghost var all := Each(host.CommandContext, before);
      for index := 0 to compileCommands.Length
        invariant compileCommands[..] == HalfDone(host.Stamp, before, index)
        invariant contextByID == host.MergeAll(old(contextByID), all[..index])
      {
        HalfDoneNext(host.Stamp, before, index);
        MergeOneMore(host, old(contextByID), all, index);
        MergeCommand(compileCommands, index);
      }
      assert all[..|before|] == all;
    }
  }

  method BuildSnapshotBuildContexts(host: Host, snapshot: ProjectSnapshot,
                                    compileCommands: array<CompilationCommandRecord>,
                                    msbuildContexts: seq<BuildContextRecord>)
    returns (contexts: seq<BuildContextRecord>)
    modifies compileCommands
    ensures compileCommands[..] == Each(host.Stamp, old(compileCommands[..]))
    ensures Lists(contexts,
                  host.MergeAll(map[], Contributions(host, snapshot, msbuildContexts, old(compileCommands[..]))))
  {
    var merger := new ContextMerger(host);
    merger.MergeEach(snapshot.solutionProjects, host.ProjectContext);
    merger.MergeEach(snapshot.unrealTargets, host.TargetContext);
    merger.MergeEach(snapshot.unrealModules, host.ModuleContext);
    merger.MergeEach(msbuildContexts, c => c);
    assert Each(c => c, msbuildContexts) == msbuildContexts;
    merger.MergeCommands(compileCommands);
    FiveRounds(host, Each(host.ProjectContext, snapshot.solutionProjects),
               Each(host.TargetContext, snapshot.unrealTargets),
               Each(host.ModuleContext, snapshot.unrealModules), msbuildContexts,
               Each(host.CommandContext, old(compileCommands[..])));
    FiledUnderOwnId(host, Contributions(host, snapshot, msbuildContexts, old(compileCommands[..])));
    contexts := ListByID(merger.contextByID);
  }

  ghost predicate FiledByID(m: map<string, BuildContextRecord>) {
    forall id :: id in m ==> m[id].id == id
  }

  lemma {:induction false} FiledUnderOwnId(host: Host, contexts: seq<BuildContextRecord>)
    ensures FiledByID(host.MergeAll(map[], contexts))
  {
    if contexts != [] {
      FiledUnderOwnId(host, contexts[..|contexts| - 1]);
    }
  }

  /** The map's values in some order, then sorted. */
  method ListByID(m: map<string, BuildContextRecord>) returns (contexts: seq<BuildContextRecord>)
    requires FiledByID(m)
    ensures Lists(contexts, m)
  {
    var listed: seq<BuildContextRecord> := [];
    var left := m.Keys;
    while left != {}
      invariant left <= m.Keys
      invariant forall c :: c in listed <==> c.id in m.Keys - left && m[c.id] == c
      invariant Sorting.KeysDiffer(listed, RelevantMerge.ContextKey)
    {
      var id :| id in left;
      AddedKeyIsNew(listed, m[id]);
      listed := listed + [m[id]];
      left := left - {id};
    }
    contexts := Sorting.SortByKey(listed, RelevantMerge.ContextKey);
    Sorting.SortedDistinctIsStrict(listed, contexts, RelevantMerge.ContextKey);
    SameElements(contexts, listed);
  }

  lemma AddedKeyIsNew(listed: seq<BuildContextRecord>, c: BuildContextRecord)
    requires Sorting.KeysDiffer(listed, RelevantMerge.ContextKey)
    requires forall d :: d in listed ==> d.id != c.id
    ensures Sorting.KeysDiffer(listed + [c], RelevantMerge.ContextKey)
  {}
}
