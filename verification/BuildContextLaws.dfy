/** What the merged build contexts are, contribution by contribution, and when a compile command ends up
    naming one of them. */
module BuildContextLaws {
  import opened Text
  import opened SemanticIndex
  import opened BuildContexts
  import opened Sequences

  /** The fields the first filled contribution decides. */
  datatype Field = Directory | Project | Target | ModuleName | Plugin | Compiler | Source | SourceAdapter {
    function Of(c: BuildContextRecord): string {
      match this
      case Directory => c.directory
      case Project => c.project
      case Target => c.target
      case ModuleName => c.moduleName
      case Plugin => c.plugin
      case Compiler => c.compiler
      case Source => c.source
      case SourceAdapter => c.sourceAdapter
    }
  }

  /** The fields to which every contribution adds. */
  datatype ListField = Files | IncludePaths | Defines | ForceIncludes {
    function Of(c: BuildContextRecord): seq<string> {
      match this
      case Files => c.files
      case IncludePaths => c.includePaths
      case Defines => c.defines
      case ForceIncludes => c.forceIncludes
    }
  }

  /** Filing by one id: a contribution to it is accepted and tidied, any other is passed over. */
  datatype Filing = Filing(host: Host, id: string) {
    function Filed(c: BuildContextRecord): seq<BuildContextRecord> {
      if Accepted(c) && Trim(c.id) == id then [host.Clean(c)] else []
    }
  }

  /** The accepted contributions to one id, tidied, in order. */
  function Group(host: Host, contexts: seq<BuildContextRecord>, id: string): seq<BuildContextRecord> {
    FlatMap(Filing(host, id).Filed, contexts)
  }

  // ---------------------------------------------------------------------------
  // The merged record, without the fold.

  /** The first filled value of the group, or nothing when none is. */
  ghost predicate IsFirstFilled(v: string, group: seq<BuildContextRecord>, f: Field) {
    || (v == "" && forall i :: 0 <= i < |group| ==> f.Of(group[i]) == "")
    || exists i :: 0 <= i < |group| && FilledFirstAt(v, group, f, i)
  }

  ghost predicate FilledFirstAt(v: string, group: seq<BuildContextRecord>, f: Field, i: nat)
    requires i < |group|
  {
    v != "" && f.Of(group[i]) == v && forall j :: 0 <= j < i ==> f.Of(group[j]) == ""
  }

  /** The confidence with the highest rank among the filled ones, the earliest of these. */
  ghost predicate IsStrongest(host: Host, v: string, group: seq<BuildContextRecord>) {
    || (v == "" && forall i :: 0 <= i < |group| ==> group[i].confidence == "")
    || exists i :: 0 <= i < |group| && StrongestAt(host, v, group, i)
  }

  ghost predicate StrongestAt(host: Host, v: string, group: seq<BuildContextRecord>, i: nat)
    requires i < |group|
  {
    && v != "" && group[i].confidence == v
    && (forall j :: 0 <= j < |group| ==> host.Rank(group[j].confidence) <= host.Rank(v))
    && forall j :: 0 <= j < i && group[j].confidence != "" ==> host.Rank(group[j].confidence) < host.Rank(v)
  }

  ghost predicate Combines(host: Host, r: BuildContextRecord, group: seq<BuildContextRecord>) {
    && group != [] && r.id == group[0].id && r.name == group[0].name && r.kind == group[0].kind
    && (forall f: Field :: IsFirstFilled(f.Of(r), group, f))
    && (forall f: ListField :: f.Of(r) == Uniques(FlatMap(f.Of, group)))
    && IsStrongest(host, r.confidence, group)
  }

  lemma FirstFilledIsUnique(v: string, w: string, group: seq<BuildContextRecord>, f: Field)
    requires IsFirstFilled(v, group, f) && IsFirstFilled(w, group, f)
    ensures v == w
  {
    if v != "" && w != "" {
      var i :| 0 <= i < |group| && FilledFirstAt(v, group, f, i);
      var j :| 0 <= j < |group| && FilledFirstAt(w, group, f, j);
      assert i <= j && j <= i;
    }
  }

  lemma StrongestIsUnique(host: Host, v: string, w: string, group: seq<BuildContextRecord>)
    requires IsStrongest(host, v, group) && IsStrongest(host, w, group)
    ensures v == w
  {
    if v != "" && w != "" {
      var i :| 0 <= i < |group| && StrongestAt(host, v, group, i);
      var j :| 0 <= j < |group| && StrongestAt(host, w, group, j);
      assert i <= j && j <= i;
    }
  }

  lemma SameFields(a: BuildContextRecord, b: BuildContextRecord)
    requires a.id == b.id && a.name == b.name && a.kind == b.kind && a.confidence == b.confidence
    requires forall f: Field :: f.Of(a) == f.Of(b)
    requires forall f: ListField :: f.Of(a) == f.Of(b)
    ensures a == b
  {
    assert Directory.Of(a) == Directory.Of(b) && Project.Of(a) == Project.Of(b) && Target.Of(a) == Target.Of(b);
    assert ModuleName.Of(a) == ModuleName.Of(b) && Plugin.Of(a) == Plugin.Of(b);
    assert Compiler.Of(a) == Compiler.Of(b) && Source.Of(a) == Source.Of(b);
    assert SourceAdapter.Of(a) == SourceAdapter.Of(b);
    assert Files.Of(a) == Files.Of(b) && IncludePaths.Of(a) == IncludePaths.Of(b);
    assert Defines.Of(a) == Defines.Of(b) && ForceIncludes.Of(a) == ForceIncludes.Of(b);
  }

  /** The group decides every field of the merged record. */
  lemma CombinesIsUnique(host: Host, a: BuildContextRecord, b: BuildContextRecord, group: seq<BuildContextRecord>)
    requires Combines(host, a, group) && Combines(host, b, group)
    ensures a == b
  {
    forall f: Field
      ensures f.Of(a) == f.Of(b)
    {
      FirstFilledIsUnique(f.Of(a), f.Of(b), group, f);
    }
    forall f: ListField
      ensures f.Of(a) == f.Of(b)
    {}
    StrongestIsUnique(host, a.confidence, b.confidence, group);
    SameFields(a, b);
  }

  // ---------------------------------------------------------------------------
  // Tidied values.

  /** A tidied value is empty or shows something. */
  predicate Tidy(s: string) { s == "" || !IsBlank(s) }

  lemma TrimIsTidy(s: string)
    ensures Tidy(Trim(s))
  {
    TrimIdempotent(s);
  }

  lemma SlashIsTidy(host: Host, s: string)
    ensures Tidy(host.ToSlash(Trim(s)))
  {
    var t, u := Trim(s), host.ToSlash(Trim(s));
    TrimIsTidy(s);
    BlankIffAllSpace(t);
    BlankIffAllSpace(u);
    if t != "" {
      var i :| 0 <= i < |t| && !IsSpace(t[i]);
      assert !IsSpace(u[i]);
    }
  }

  ghost predicate TidyGroup(group: seq<BuildContextRecord>) {
    forall i, f: Field :: 0 <= i < |group| ==> Tidy(f.Of(group[i]))
  }

  lemma CleanIsTidy(host: Host, c: BuildContextRecord, f: Field)
    ensures Tidy(f.Of(host.Clean(c)))
  {
    match f
    case Directory => SlashIsTidy(host, c.directory);
    case Project => TrimIsTidy(c.project);
    case Target => TrimIsTidy(c.target);
    case ModuleName => TrimIsTidy(c.moduleName);
    case Plugin => TrimIsTidy(c.plugin);
    case Compiler => TrimIsTidy(c.compiler);
    case Source => TrimIsTidy(c.source);
    case SourceAdapter => TrimIsTidy(c.sourceAdapter);
  }

  // ---------------------------------------------------------------------------
  // One step of the fold.

  lemma FirstFilledGrows(v: string, group: seq<BuildContextRecord>, c: BuildContextRecord, f: Field)
    requires IsFirstFilled(v, group, f) && Tidy(v) && Tidy(f.Of(c))
    ensures IsFirstFilled(FirstNonBlank(v, f.Of(c)), group + [c], f)
  {
    var all := group + [c];
    if v == "" {
      assert FirstNonBlank(v, f.Of(c)) == f.Of(c);
      assert forall j :: 0 <= j < |group| ==> all[j] == group[j];
      if f.Of(c) != "" {
        assert FilledFirstAt(f.Of(c), all, f, |group|);
      }
    } else {
      var i :| 0 <= i < |group| && FilledFirstAt(v, group, f, i);
      assert FilledFirstAt(v, all, f, i);
    }
  }

  lemma JoinedField(host: Host, e: BuildContextRecord, c: BuildContextRecord, f: Field)
    ensures f.Of(host.Joined(e, c)) == FirstNonBlank(f.Of(e), f.Of(c))
  {
    match f
    case Directory =>
    case Project =>
    case Target =>
    case ModuleName =>
    case Plugin =>
    case Compiler =>
    case Source =>
    case SourceAdapter =>
  }

  lemma JoinedList(host: Host, e: BuildContextRecord, c: BuildContextRecord, f: ListField)
    ensures f.Of(host.Joined(e, c)) == Uniques(f.Of(e) + f.Of(c))
  {}

  lemma FirstFilledIsTidy(v: string, group: seq<BuildContextRecord>, f: Field)
    requires IsFirstFilled(v, group, f) && TidyGroup(group)
    ensures Tidy(v)
  {}

  lemma ListGrows(host: Host, e: BuildContextRecord, group: seq<BuildContextRecord>, c: BuildContextRecord,
                  f: ListField)
    requires f.Of(e) == Uniques(FlatMap(f.Of, group)) && f.Of(c) == Uniques(f.Of(c))
    ensures f.Of(host.Joined(e, c)) == Uniques(FlatMap(f.Of, group + [c]))
  {
    JoinedList(host, e, c, f);
    FlatMapMore(f.Of, group, c);
    UniquesAbsorb(FlatMap(f.Of, group), f.Of(c));
  }

  lemma StrongestGrows(host: Host, v: string, group: seq<BuildContextRecord>, c: BuildContextRecord)
    requires IsStrongest(host, v, group) && Trim(v) == v && Trim(c.confidence) == c.confidence
    ensures IsStrongest(host, host.Strongest(v, c.confidence), group + [c])
  {
    var all := group + [c];
    var w := host.Strongest(v, c.confidence);
    assert forall j :: 0 <= j < |group| ==> all[j] == group[j];
    BlankRanksLowest(host);
    if v == "" {
      if c.confidence != "" {
        assert StrongestAt(host, w, all, |group|);
      }
    } else {
      var i :| 0 <= i < |group| && StrongestAt(host, v, group, i);
      if w == v {
        assert StrongestAt(host, w, all, i);
      } else {
        assert StrongestAt(host, w, all, |group|);
      }
    }
  }

  lemma BlankRanksLowest(host: Host)
    ensures host.Rank("") == 0
  {
    assert Lower(host.lower, "") == "";
  }

  /** Each confidence of the group is trimmed. */
  ghost predicate TrimmedGroup(group: seq<BuildContextRecord>) {
    forall i :: 0 <= i < |group| ==> Trim(group[i].confidence) == group[i].confidence
  }

  lemma CleanIsCleaned(host: Host, c: BuildContextRecord, f: ListField)
    ensures f.Of(host.Clean(c)) == Uniques(f.Of(c))
    ensures Uniques(f.Of(host.Clean(c))) == f.Of(host.Clean(c))
  {
    UniquesOfTail([], f.Of(c));
    assert [] + f.Of(c) == f.Of(c);
    assert [] + Uniques(f.Of(c)) == Uniques(f.Of(c));
  }

  lemma CombinesFirst(host: Host, ctx: BuildContextRecord)
    ensures Combines(host, host.Clean(ctx), [host.Clean(ctx)])
  {
    var c := host.Clean(ctx);
    var group := [c];
    forall f: Field
      ensures IsFirstFilled(f.Of(c), group, f)
    {
      assert f.Of(group[0]) == f.Of(c);
      if f.Of(c) != "" {
        assert FilledFirstAt(f.Of(c), group, f, 0);
      }
    }
    forall f: ListField
      ensures f.Of(c) == Uniques(FlatMap(f.Of, group))
    {
      CleanIsCleaned(host, ctx, f);
      FlatMapOne(f.Of, c);
    }
    if c.confidence != "" {
      assert StrongestAt(host, c.confidence, group, 0);
    }
  }

  lemma CombinesNext(host: Host, e: BuildContextRecord, group: seq<BuildContextRecord>, ctx: BuildContextRecord)
    requires Combines(host, e, group) && TidyGroup(group) && TrimmedGroup(group)
    ensures Combines(host, host.Joined(e, host.Clean(ctx)), group + [host.Clean(ctx)])
  {
    var c := host.Clean(ctx);
    var j := host.Joined(e, c);
    forall f: Field
      ensures IsFirstFilled(f.Of(j), group + [c], f)
    {
      FirstFilledIsTidy(f.Of(e), group, f);
      CleanIsTidy(host, ctx, f);
      FirstFilledGrows(f.Of(e), group, c, f);
      JoinedField(host, e, c, f);
    }
    forall f: ListField
      ensures f.Of(j) == Uniques(FlatMap(f.Of, group + [c]))
    {
      CleanIsCleaned(host, ctx, f);
      ListGrows(host, e, group, c, f);
    }
    TrimIdempotent(ctx.confidence);
    StrongestGrows(host, e.confidence, group, c);
  }

  lemma TidyGrows(host: Host, group: seq<BuildContextRecord>, ctx: BuildContextRecord)
    requires TidyGroup(group) && TrimmedGroup(group)
    ensures TidyGroup(group + [host.Clean(ctx)]) && TrimmedGroup(group + [host.Clean(ctx)])
  {
    TrimIdempotent(ctx.confidence);
    forall f: Field
      ensures Tidy(f.Of(host.Clean(ctx)))
    {
      CleanIsTidy(host, ctx, f);
    }
  }

  lemma {:induction false} GroupIsTidy(host: Host, contexts: seq<BuildContextRecord>, id: string)
    ensures TidyGroup(Group(host, contexts, id)) && TrimmedGroup(Group(host, contexts, id))
  {
    if contexts != [] {
      var front, last := contexts[..|contexts| - 1], contexts[|contexts| - 1];
      GroupIsTidy(host, front, id);
      if Accepted(last) && Trim(last.id) == id {
        TidyGrows(host, Group(host, front, id), last);
      } else {
        assert Group(host, front, id) + [] == Group(host, front, id);
      }
    }
  }

  /** For every id: the merge holds a record for it exactly when some accepted contribution carries it,
      and that record combines those contributions and no others. */
  lemma {:induction false} MergedMeans(host: Host, contexts: seq<BuildContextRecord>, id: string)
    ensures id in host.MergeAll(map[], contexts) <==> Group(host, contexts, id) != []
    ensures id in host.MergeAll(map[], contexts) ==>
              Combines(host, host.MergeAll(map[], contexts)[id], Group(host, contexts, id))
  {
    if contexts != [] {
      var front, last := contexts[..|contexts| - 1], contexts[|contexts| - 1];
      MergedMeans(host, front, id);
      GroupIsTidy(host, front, id);
      MergeStep(host, host.MergeAll(map[], front), last, id, Group(host, front, id));
    }
  }

  lemma MergeStep(host: Host, m: map<string, BuildContextRecord>, ctx: BuildContextRecord, id: string,
                  group: seq<BuildContextRecord>)
    requires id in m <==> group != []
    requires id in m ==> Combines(host, m[id], group)
    requires TidyGroup(group) && TrimmedGroup(group)
    ensures var group' := group + if Accepted(ctx) && Trim(ctx.id) == id then [host.Clean(ctx)] else [];
            var m' := host.MergeContext(m, ctx);
            && (id in m' <==> group' != [])
            && (id in m' ==> Combines(host, m'[id], group'))
  {
    if Accepted(ctx) && Trim(ctx.id) == id {
      if id in m {
        CombinesNext(host, m[id], group, ctx);
      } else {
        CombinesFirst(host, ctx);
        assert group + [host.Clean(ctx)] == [host.Clean(ctx)];
      }
    } else {
      assert group + [] == group;
    }
  }

  // ---------------------------------------------------------------------------
  // Membership, in terms of the raw contributions.

  ghost predicate Gives(contexts: seq<BuildContextRecord>, id: string, f: ListField, s: string) {
    exists c :: c in contexts && GivesTo(c, id, f, s)
  }

  /** An accepted contribution to the id whose list holds `s`, up to white space around it. */
  ghost predicate GivesTo(c: BuildContextRecord, id: string, f: ListField, s: string) {
    Accepted(c) && Trim(c.id) == id && TrimsTo(f.Of(c), s)
  }

  lemma CleanHolds(host: Host, c: BuildContextRecord, f: ListField, s: string)
    ensures s in f.Of(host.Clean(c)) <==> s != "" && TrimsTo(f.Of(c), s)
  {
    CleanIsCleaned(host, c, f);
    UniquesHolds(f.Of(c));
  }

  /** A contribution to the id, as it is filed. */
  ghost predicate FiledFrom(host: Host, contexts: seq<BuildContextRecord>, id: string, x: BuildContextRecord,
                            c: BuildContextRecord)
  {
    x in contexts && Accepted(x) && Trim(x.id) == id && c == host.Clean(x)
  }

  lemma GroupHolds(host: Host, contexts: seq<BuildContextRecord>, id: string, c: BuildContextRecord)
    ensures c in Group(host, contexts, id) <==> exists x :: FiledFrom(host, contexts, id, x, c)
  {
    var filing := Filing(host, id);
    FlatMapMembers(filing.Filed, contexts);
    if x :| FiledFrom(host, contexts, id, x, c) {
      assert c in filing.Filed(x);
    }
    if x :| x in contexts && c in filing.Filed(x) {
      assert FiledFrom(host, contexts, id, x, c);
    }
  }

  /** An entry of the joined lists comes from some contribution. */
  lemma FlatComesFrom(host: Host, contexts: seq<BuildContextRecord>, id: string, f: ListField, s: string)
    returns (x: BuildContextRecord, c: BuildContextRecord)
    requires s in FlatMap(f.Of, Group(host, contexts, id))
    ensures FiledFrom(host, contexts, id, x, c) && s in f.Of(c)
  {
    FlatMapMembers(f.Of, Group(host, contexts, id));
    c :| c in Group(host, contexts, id) && s in f.Of(c);
    GroupHolds(host, contexts, id, c);
    x :| FiledFrom(host, contexts, id, x, c);
  }

  lemma FlatHoldsFiled(host: Host, contexts: seq<BuildContextRecord>, id: string, f: ListField, s: string,
                       x: BuildContextRecord, c: BuildContextRecord)
    requires FiledFrom(host, contexts, id, x, c) && s in f.Of(c)
    ensures s in FlatMap(f.Of, Group(host, contexts, id))
  {
    FlatMapMembers(f.Of, Group(host, contexts, id));
    GroupHolds(host, contexts, id, c);
  }

  lemma FlatMeans(host: Host, contexts: seq<BuildContextRecord>, id: string, f: ListField, s: string)
    requires s != ""
    ensures s in FlatMap(f.Of, Group(host, contexts, id)) <==> Gives(contexts, id, f, s)
  {
    if s in FlatMap(f.Of, Group(host, contexts, id)) {
      var x, c := FlatComesFrom(host, contexts, id, f, s);
      CleanHolds(host, x, f, s);
      assert GivesTo(x, id, f, s);
    }
    if x :| x in contexts && GivesTo(x, id, f, s) {
      CleanHolds(host, x, f, s);
      FlatHoldsFiled(host, contexts, id, f, s, x, host.Clean(x));
    }
  }

  ghost predicate AllTight(items: seq<string>) {
    forall s :: s in items ==> Trim(s) == s != ""
  }

  lemma CleanIsTight(host: Host, c: BuildContextRecord, f: ListField)
    ensures AllTight(f.Of(host.Clean(c)))
  {
    CleanIsCleaned(host, c, f);
    UniquesAreTight(f.Of(c));
  }

  lemma FlatIsTight(host: Host, contexts: seq<BuildContextRecord>, id: string, f: ListField)
    ensures AllTight(FlatMap(f.Of, Group(host, contexts, id)))
  {
    forall s | s in FlatMap(f.Of, Group(host, contexts, id))
      ensures Trim(s) == s != ""
    {
      var x, c := FlatComesFrom(host, contexts, id, f, s);
      CleanIsTight(host, x, f);
    }
  }

  lemma UniquesOfTight(items: seq<string>, s: string)
    requires AllTight(items)
    ensures s in Uniques(items) <==> s in items
  {
    UniquesHolds(items);
    if s in items {
      var i :| 0 <= i < |items| && items[i] == s;
      assert Trim(items[i]) == s;
    }
    if s in Uniques(items) {
      var i :| 0 <= i < |items| && Trim(items[i]) == s;
      assert items[i] in items;
    }
  }

  /** The files, include paths, defines and forced includes of a merged context are, as sets, the unions
      of what all contributions to its id give, trimmed and without blanks. No entry is repeated. */
  lemma UnionMeans(host: Host, contexts: seq<BuildContextRecord>, id: string, f: ListField)
    requires id in host.MergeAll(map[], contexts)
    ensures Distinct(f.Of(host.MergeAll(map[], contexts)[id]))
    ensures forall s :: s in f.Of(host.MergeAll(map[], contexts)[id]) <==> s != "" && Gives(contexts, id, f, s)
  {
    MergedMeans(host, contexts, id);
    var all := FlatMap(f.Of, Group(host, contexts, id));
    UniquesHolds(all);
    FlatIsTight(host, contexts, id, f);
    forall s
      ensures s in Uniques(all) <==> s != "" && Gives(contexts, id, f, s)
    {
      UniquesOfTight(all, s);
      if s != "" {
        FlatMeans(host, contexts, id, f, s);
      }
    }
  }

  // ---------------------------------------------------------------------------
  // The stamped id.

  predicate EndsInSpace(s: string) { s != "" && IsSpace(s[|s| - 1]) }

  lemma TightIffEnd(s: string)
    requires s != "" && !IsSpace(s[0])
    ensures !IsBlank(s) && (Trim(s) == s <==> !EndsInSpace(s))
  {
    BlankIffAllSpace(s);
    TrimIdempotent(s);
    if !EndsInSpace(s) {
      TrimOfTight(s);
    }
  }

  lemma SuffixedIsFilled(s: string)
    ensures !IsBlank(s + NAME_SUFFIX)
  {
    BlankIffAllSpace(s + NAME_SUFFIX);
    assert (s + NAME_SUFFIX)[|s| + 1] == NAME_SUFFIX[1] == 'c';
  }

  lemma KindIsFilled()
    ensures !IsBlank("compile_command")
  {
    BlankIffAllSpace("compile_command");
    assert "compile_command"[0] == 'c';
  }

  /** What the id and the name of a command's context are made of. */
  lemma CommandParts(host: Host, record: CompilationCommandRecord) returns (title: string)
    ensures var c := host.CommandContext(record);
            && c.id != "" && c.id[0] == 'b' && c.name == title + NAME_SUFFIX && c.kind == "compile_command"
            && c.files == [record.file]
  {
    title := if Trim(host.moduleForFile(record.file)) != "" then host.moduleForFile(record.file)
             else if Trim(host.projectForFile(record.file)) != "" then host.projectForFile(record.file)
             else host.DirectoryName(record);
  }

  /** A compile command's context is never dropped. Its id survives trimming exactly when it does not
      end in white space. */
  lemma CommandIsAccepted(host: Host, record: CompilationCommandRecord)
    ensures var c := host.CommandContext(record);
            && Accepted(c) && c.files == [record.file]
            && (Trim(c.id) == c.id <==> !EndsInSpace(c.id))
  {
    var title := CommandParts(host, record);
    TightIffEnd(host.CommandContext(record).id);
    SuffixedIsFilled(title);
    KindIsFilled();
  }

  /** A contribution whose id is tight ends up in the context of that id, with all it gives. */
  lemma ContributionIsKept(host: Host, all: seq<BuildContextRecord>, contexts: seq<BuildContextRecord>,
                           ctx: BuildContextRecord)
    requires Lists(contexts, host.MergeAll(map[], all)) && ctx in all && Accepted(ctx) && Trim(ctx.id) == ctx.id
    ensures exists c :: c in contexts && c.id == ctx.id &&
              forall s :: s in ctx.files && !IsBlank(s) ==> Trim(s) in c.files
  {
    var m := host.MergeAll(map[], all);
    ContributorIsGrouped(host, all, ctx);
    MergedMeans(host, all, ctx.id);
    FiledUnderOwnId(host, all);
    var c := m[ctx.id];
    assert c in contexts;
    UnionMeans(host, all, ctx.id, Files);
    forall s | s in ctx.files && !IsBlank(s)
      ensures Trim(s) in c.files
    {
      assert Files.Of(c) == c.files && s in Files.Of(ctx);
      assert GivesTo(ctx, ctx.id, Files, Trim(s));
      assert Gives(all, ctx.id, Files, Trim(s));
    }
  }

  /** The id a command is stamped with names a context of the result exactly when it does not end in
      white space; that context then lists the command's file. */
  lemma StampNamesContext(host: Host, snapshot: ProjectSnapshot, msbuild: seq<BuildContextRecord>,
                          commands: seq<CompilationCommandRecord>, contexts: seq<BuildContextRecord>, i: nat)
    requires i < |commands|
    requires Lists(contexts, host.MergeAll(map[], Contributions(host, snapshot, msbuild, commands)))
    ensures var id := host.Stamp(commands[i]).buildContextID;
            && ((exists c :: c in contexts && c.id == id) <==> !EndsInSpace(id))
            && (!EndsInSpace(id) && !IsBlank(commands[i].file) ==>
                  exists c :: c in contexts && c.id == id && Trim(commands[i].file) in c.files)
  {
    var all := Contributions(host, snapshot, msbuild, commands);
    var ctx := host.CommandContext(commands[i]);
    CommandContributes(host, snapshot, msbuild, commands, i);
    CommandIsAccepted(host, commands[i]);
    if EndsInSpace(ctx.id) {
      MergedIdIsTight(host, all, ctx.id);
    } else {
      ContributionIsKept(host, all, contexts, ctx);
    }
  }

  /** The name a command's context is called after: its module, else its project, else its directory. */
  function ChosenName(host: Host, record: CompilationCommandRecord): string {
    if Trim(host.moduleForFile(record.file)) != "" then host.moduleForFile(record.file)
    else if Trim(host.projectForFile(record.file)) != "" then host.projectForFile(record.file)
    else host.sanitize(host.DirectoryName(record))
  }

  lemma SuffixDecidesEnd(prefix: string, s: string)
    requires prefix != "" && !EndsInSpace(prefix)
    ensures EndsInSpace(prefix + s) <==> EndsInSpace(s)
  {
    if s == "" {
      assert prefix + s == prefix;
    } else {
      assert (prefix + s)[|prefix + s| - 1] == s[|s| - 1];
    }
  }

  lemma IdEndsLikeName(host: Host, record: CompilationCommandRecord)
    ensures EndsInSpace(host.CommandContext(record).id) <==> EndsInSpace(ChosenName(host, record))
  {
    SuffixDecidesEnd(COMPILE_MODULE_PREFIX, host.moduleForFile(record.file));
    SuffixDecidesEnd(COMPILE_PROJECT_PREFIX, host.projectForFile(record.file));
    SuffixDecidesEnd(COMPILE_DIR_PREFIX, host.sanitize(host.DirectoryName(record)));
  }

  /** A command's stored id names an output context exactly when the module, project or directory name it
      is called after does not end in white space. */
  lemma NameDecidesContext(host: Host, snapshot: ProjectSnapshot, msbuild: seq<BuildContextRecord>,
                           commands: seq<CompilationCommandRecord>, contexts: seq<BuildContextRecord>, i: nat)
    requires i < |commands|
    requires Lists(contexts, host.MergeAll(map[], Contributions(host, snapshot, msbuild, commands)))
    ensures (exists c :: c in contexts && c.id == host.Stamp(commands[i]).buildContextID) <==>
              !EndsInSpace(ChosenName(host, commands[i]))
  {
    StampNamesContext(host, snapshot, msbuild, commands, contexts, i);
    IdEndsLikeName(host, commands[i]);
  }

  /** A command of a module called "Foo " is stamped with an id that names no context. */
  lemma PaddedModuleIsLost(host: Host, snapshot: ProjectSnapshot, command: CompilationCommandRecord,
                           contexts: seq<BuildContextRecord>)
    requires host.moduleForFile(command.file) == "Foo "
    requires Lists(contexts, host.MergeAll(map[], Contributions(host, snapshot, [], [command])))
    ensures host.Stamp(command).buildContextID == "buildctx:compile:module:Foo "
    ensures forall c :: c in contexts ==> c.id != host.Stamp(command).buildContextID
  {
    NameDecidesContext(host, snapshot, [], [command], contexts, 0);
    BlankIffAllSpace("Foo ");
    assert "Foo "[0] == 'F' && "Foo "[3] == ' ';
  }

  lemma CommandContributes(host: Host, snapshot: ProjectSnapshot, msbuild: seq<BuildContextRecord>,
                           commands: seq<CompilationCommandRecord>, i: nat)
    requires i < |commands|
    ensures host.CommandContext(commands[i]) in Contributions(host, snapshot, msbuild, commands)
  {
    var tail := Each(host.CommandContext, commands);
    assert tail[i] in tail;
  }

  lemma {:induction false} ContributorIsGrouped(host: Host, contexts: seq<BuildContextRecord>, c: BuildContextRecord)
    requires c in contexts && Accepted(c)
    ensures Group(host, contexts, Trim(c.id)) != []
  {
    var front, last := contexts[..|contexts| - 1], contexts[|contexts| - 1];
    assert contexts == front + [last];
    if c != last {
      ContributorIsGrouped(host, front, c);
    }
  }

  lemma {:induction false} MergedIdIsTight(host: Host, contexts: seq<BuildContextRecord>, id: string)
    ensures id in host.MergeAll(map[], contexts) ==> Trim(id) == id
  {
    if contexts != [] {
      MergedIdIsTight(host, contexts[..|contexts| - 1], id);
      TrimIdempotent(contexts[|contexts| - 1].id);
    }
  }
}
