/**
 Resolving the command line's configuration: config files are collected from the working directory
 up to the root, and their secret paths become one list without repeats, root first.
 */
module CliConfig {
  import opened Wrappers

  // A directory is its segments from the root; entries of a projects map carry a resolved directory.
  type Dir = seq<string>

  /** An inline context of a projects map; what it leaves out comes from its config. */
  datatype Inline = Inline(projectSlug: Option<string>, environment: Option<string>, secretPath: Option<string>)

  /** A projects entry: the path of a config file, or an inline context. */
  datatype Project = Project(dir: Dir, inlined: Option<Inline>)

  datatype ProjectConfig = ProjectConfig(projectSlug: Option<string>, environment: Option<string>,
                                         secretPath: Option<string>, imports: seq<string>, projects: seq<Project>)

  datatype ResolvedConfig = ResolvedConfig(config: ProjectConfig, paths: seq<string>)

  datatype Located = Located(dir: Dir, config: ProjectConfig)

  const ROOT_PATH := "/"

  function Parent(dir: Dir): Dir {
    if dir == [] then [] else dir[..|dir| - 1]
  }

  function ConfigAt(files: map<Dir, ProjectConfig>, dir: Dir): seq<Located> {
    if dir in files then [Located(dir, files[dir])] else []
  }

  /** The config files from `dir` up, nearest first. */
  function Upward(files: map<Dir, ProjectConfig>, dir: Dir): seq<Located>
    decreases |dir|
  {
    ConfigAt(files, dir) + if dir == [] then [] else Upward(files, Parent(dir))
  }

  /** The entry's directory is the working directory or an ancestor of it other than the root. */
  predicate Covers(project: Dir, dir: Dir) {
    project == dir || (project != [] && project <= dir)
  }

  function OrElse(first: Option<string>, second: Option<string>): Option<string> {
    if first.Some? then first else second
  }

  /** The config with its projects dropped and the entry laid over it. */
  function Overlaid(config: ProjectConfig, entry: Inline): ProjectConfig {
    ProjectConfig(OrElse(entry.projectSlug, config.projectSlug), OrElse(entry.environment, config.environment),
                  OrElse(entry.secretPath, config.secretPath), config.imports, [])
  }

  /** The last covering inline entry of one config, if any. */
  function SyntheticOf(config: ProjectConfig, projects: seq<Project>, dir: Dir): Option<ProjectConfig> {
    if projects == [] then None
    else
      var last := projects[|projects| - 1];
      if last.inlined.Some? && Covers(last.dir, dir) then Some(Overlaid(config, last.inlined.value))
      else SyntheticOf(config, projects[..|projects| - 1], dir)
  }

  /** The last one over all configs, nearest config first. */
  function Synthetic(configs: seq<Located>, dir: Dir): Option<ProjectConfig> {
    if configs == [] then None
    else
      var last := configs[|configs| - 1].config;
      var own := SyntheticOf(last, last.projects, dir);
      if own.Some? then own else Synthetic(configs[..|configs| - 1], dir)
  }

  function SecretPath(config: ProjectConfig): string {
    if config.secretPath.Some? then config.secretPath.value else ROOT_PATH
  }

  function Contributions(config: ProjectConfig): (paths: seq<string>)
    ensures paths != [] && paths[|paths| - 1] == SecretPath(config)
  {
    config.imports + [SecretPath(config)]
  }

  /** What the configs contribute, outermost config first. */
  function AllContributions(configs: seq<Located>): seq<string> {
    if configs == [] then []
    else AllContributions(configs[1..]) + Contributions(configs[0].config)
  }

  /** First occurrences, in order. */
  function Dedup(paths: seq<string>): seq<string> {
    if paths == [] then []
    else
      var last := paths[|paths| - 1];
      var before := Dedup(paths[..|paths| - 1]);
      if last in before then before else before + [last]
  }

  /** The same paths, each once. */
  lemma {:induction false} DedupKeepsEachOnce(paths: seq<string>)
    ensures forall i, j :: 0 <= i < j < |Dedup(paths)| ==> Dedup(paths)[i] != Dedup(paths)[j]
    ensures forall p :: p in Dedup(paths) <==> p in paths
  {
    if paths != [] {
      DedupKeepsEachOnce(paths[..|paths| - 1]);
      assert paths == paths[..|paths| - 1] + [paths[|paths| - 1]];
    }
  }

  function Contributed(configs: seq<Located>, dir: Dir): seq<string> {
    var synthetic := Synthetic(configs, dir);
    AllContributions(configs) + if synthetic.Some? then Contributions(synthetic.value) else []
  }

  function Primary(configs: seq<Located>, dir: Dir): ProjectConfig
    requires configs != []
  {
    var synthetic := Synthetic(configs, dir);
    if synthetic.Some? then synthetic.value else configs[0].config
  }

  /** The walk, the synthetic leaf and the path list; `files` is what the config files parse to. */
  method ResolveConfig(files: map<Dir, ProjectConfig>, startDir: Dir) returns (result: Result<ResolvedConfig, string>)
    ensures var configs := Upward(files, startDir);
            if configs == [] then result.Failure?
            else result == Success(ResolvedConfig(Primary(configs, startDir), Dedup(Contributed(configs, startDir))))
  {
    var configs := FindConfigs(files, startDir);
    if configs == [] {
      return Failure("No sanctum-config.json found in this directory or any parent. Run `sanctum init` first.");
    }
    var synthetic := FindSynthetic(configs, startDir);
    var paths := CollectPaths(configs);
    var primary := configs[0].config;
    if synthetic.Some? {
      primary := synthetic.value;
      paths := PushPaths(paths, AllContributions(configs), primary);
    }
    assert synthetic.None? ==> Contributed(configs, startDir) == AllContributions(configs);
    return Success(ResolvedConfig(primary, paths));
  }

  /** The walk up to the root. */
  method FindConfigs(files: map<Dir, ProjectConfig>, startDir: Dir) returns (configs: seq<Located>)
    ensures configs == Upward(files, startDir)
  {
    configs := [];
    var dir := startDir;
    ghost var all := Upward(files, startDir);
    while true
      invariant all == configs + Upward(files, dir)
      decreases |dir|
    {
      UpwardStep(files, configs, dir);
      ghost var found := configs + ConfigAt(files, dir);
      if dir in files {
        configs := configs + [Located(dir, files[dir])];
      }
      assert configs == found;
      var parent := Parent(dir);
      if parent == dir {
        break;
      }
      dir := parent;
    }
  }

  lemma UpwardStep(files: map<Dir, ProjectConfig>, configs: seq<Located>, dir: Dir)
    ensures var found := configs + ConfigAt(files, dir);
            configs + Upward(files, dir) == if Parent(dir) == dir then found else found + Upward(files, Parent(dir))
  {
    if dir == [] {
      assert Upward(files, dir) == ConfigAt(files, dir) + [] == ConfigAt(files, dir);
    } else {
      assert |Parent(dir)| < |dir|;
      Regroup(configs, ConfigAt(files, dir), Upward(files, Parent(dir)));
    }
  }

  lemma Regroup(a: seq<Located>, b: seq<Located>, c: seq<Located>)
    ensures a + (b + c) == (a + b) + c
  {
  }

  method FindSynthetic(configs: seq<Located>, dir: Dir) returns (primary: Option<ProjectConfig>)
    ensures primary == Synthetic(configs, dir)
  {
    primary := None;
    for i := 0 to |configs|
      invariant primary == Synthetic(configs[..i], dir)
    {
      assert configs[..i + 1][..i] == configs[..i];
      ghost var before := primary;
      var config := configs[i].config;
      for j := 0 to |config.projects|
        invariant var own := SyntheticOf(config, config.projects[..j], dir);
                  primary == if own.Some? then own else before
      {
        assert config.projects[..j + 1][..j] == config.projects[..j];
        var project := config.projects[j];
        if Covers(project.dir, dir) && project.inlined.Some? {
          primary := Some(Overlaid(config, project.inlined.value));
        }
      }
      assert config.projects[..|config.projects|] == config.projects;
    }
    assert configs[..|configs|] == configs;
  }

  /** Push one config's imports and secret path, skipping what is there. */
  method PushPaths(paths: seq<string>, ghost soFar: seq<string>, config: ProjectConfig) returns (pushed: seq<string>)
    requires paths == Dedup(soFar)
    ensures pushed == Dedup(soFar + Contributions(config))
  {
    pushed := PushImports(paths, soFar, config.imports);
    var p := SecretPath(config);
    LastContribution(soFar, config);
    if p !in pushed {
      pushed := pushed + [p];
    }
  }

  method PushImports(paths: seq<string>, ghost soFar: seq<string>, imports: seq<string>) returns (pushed: seq<string>)
    requires paths == Dedup(soFar)
    ensures pushed == Dedup(soFar + imports)
  {
    pushed := paths;
    assert soFar + imports[..0] == soFar;
    for i := 0 to |imports|
      invariant pushed == Dedup(soFar + imports[..i])
    {
      DedupNext(soFar, imports, i);
      if imports[i] !in pushed {
        pushed := pushed + [imports[i]];
      }
    }
    assert imports[..|imports|] == imports;
  }

  lemma LastContribution(soFar: seq<string>, config: ProjectConfig)
    ensures var before := Dedup(soFar + config.imports);
            Dedup(soFar + Contributions(config))
            == if SecretPath(config) in before then before else before + [SecretPath(config)]
  {
    assert soFar + Contributions(config) == (soFar + config.imports) + [SecretPath(config)];
    DedupSnoc(soFar + config.imports, SecretPath(config));
  }

  lemma DedupNext(soFar: seq<string>, pushed: seq<string>, i: nat)
    requires i < |pushed|
    ensures var before := Dedup(soFar + pushed[..i]);
            Dedup(soFar + pushed[..i + 1]) == if pushed[i] in before then before else before + [pushed[i]]
  {
    assert soFar + pushed[..i + 1] == (soFar + pushed[..i]) + [pushed[i]];
    DedupSnoc(soFar + pushed[..i], pushed[i]);
  }

  lemma DedupSnoc(paths: seq<string>, last: string)
    ensures Dedup(paths + [last]) == if last in Dedup(paths) then Dedup(paths) else Dedup(paths) + [last]
  {
    assert (paths + [last])[..|paths|] == paths;
  }

  /** Outermost config first. */
  method CollectPaths(configs: seq<Located>) returns (paths: seq<string>)
    ensures paths == Dedup(AllContributions(configs))
  {
    paths := [];
    var i := |configs|;
    while i > 0
      invariant 0 <= i <= |configs|
      invariant paths == Dedup(AllContributions(configs[i..]))
    {
      i := i - 1;
      assert configs[i..][1..] == configs[i + 1..];
      paths := PushPaths(paths, AllContributions(configs[i + 1..]), configs[i].config);
    }
    assert configs[0..] == configs;
  }

  /** No inline entry after the given one covers the directory, in its config or a farther one. */
  predicate LastCovering(configs: seq<Located>, dir: Dir, i: nat, j: nat) {
    && i < |configs| && j < |configs[i].config.projects|
    && configs[i].config.projects[j].inlined.Some? && Covers(configs[i].config.projects[j].dir, dir)
    && (forall l :: j < l < |configs[i].config.projects| ==> !CoversInline(configs[i].config.projects[l], dir))
    && (forall k :: i < k < |configs| ==>
                      forall l :: 0 <= l < |configs[k].config.projects| ==>
                                    !CoversInline(configs[k].config.projects[l], dir))
  }

  predicate CoversInline(project: Project, dir: Dir) {
    project.inlined.Some? && Covers(project.dir, dir)
  }

  lemma {:induction false} SyntheticOfLast(config: ProjectConfig, projects: seq<Project>, dir: Dir, j: nat)
    requires j < |projects| && CoversInline(projects[j], dir)
    requires forall l :: j < l < |projects| ==> !CoversInline(projects[l], dir)
    ensures SyntheticOf(config, projects, dir) == Some(Overlaid(config, projects[j].inlined.value))
  {
    if j < |projects| - 1 {
      SyntheticOfLast(config, projects[..|projects| - 1], dir, j);
    }
  }

  lemma {:induction false} NoSyntheticOf(config: ProjectConfig, projects: seq<Project>, dir: Dir)
    requires forall l :: 0 <= l < |projects| ==> !CoversInline(projects[l], dir)
    ensures SyntheticOf(config, projects, dir) == None
  {
    if projects != [] {
      NoSyntheticOf(config, projects[..|projects| - 1], dir);
    }
  }

  /**
   The last covering inline entry decides: what it gives is taken from it, what it leaves out from the
   config it stands in, and the imports are that config's.
   */
  lemma {:induction false} InlineEntryDecides(configs: seq<Located>, dir: Dir, i: nat, j: nat)
    requires LastCovering(configs, dir, i, j)
    ensures configs != []
    ensures var primary, config := Primary(configs, dir), configs[i].config;
            var entry := config.projects[j].inlined.value;
            && primary.imports == config.imports && primary.projects == []
            && (entry.secretPath.Some? ==> SecretPath(primary) == entry.secretPath.value)
            && (entry.secretPath.None? ==> SecretPath(primary) == SecretPath(config))
            && (entry.environment.Some? ==> primary.environment == entry.environment)
            && (entry.environment.None? ==> primary.environment == config.environment)
            && (entry.projectSlug.Some? ==> primary.projectSlug == entry.projectSlug)
            && (entry.projectSlug.None? ==> primary.projectSlug == config.projectSlug)
    decreases |configs|
  {
    var n := |configs| - 1;
    if i == n {
      SyntheticOfLast(configs[n].config, configs[n].config.projects, dir, j);
    } else {
      NoSyntheticOf(configs[n].config, configs[n].config.projects, dir);
      InlineEntryDecides(configs[..n], dir, i, j);
      SyntheticSkips(configs, dir);
      assert Synthetic(configs[..n], dir).Some? by {
        SyntheticFound(configs[..n], dir, i, j);
      }
    }
  }

  lemma SyntheticSkips(configs: seq<Located>, dir: Dir)
    requires configs != []
    requires SyntheticOf(configs[|configs| - 1].config, configs[|configs| - 1].config.projects, dir) == None
    ensures Synthetic(configs, dir) == Synthetic(configs[..|configs| - 1], dir)
  {
  }

  lemma {:induction false} SyntheticFound(configs: seq<Located>, dir: Dir, i: nat, j: nat)
    requires LastCovering(configs, dir, i, j)
    ensures Synthetic(configs, dir).Some?
    decreases |configs|
  {
    var n := |configs| - 1;
    if i == n {
      SyntheticOfLast(configs[n].config, configs[n].config.projects, dir, j);
    } else {
      SyntheticFound(configs[..n], dir, i, j);
    }
  }

  lemma {:induction false} NoSynthetic(configs: seq<Located>, dir: Dir)
    requires forall k :: 0 <= k < |configs| ==>
                           forall l :: 0 <= l < |configs[k].config.projects| ==>
                                         !CoversInline(configs[k].config.projects[l], dir)
    ensures Synthetic(configs, dir) == None
  {
    if configs != [] {
      NoSyntheticOf(configs[|configs| - 1].config, configs[|configs| - 1].config.projects, dir);
      NoSynthetic(configs[..|configs| - 1], dir);
    }
  }

  /** Without one the nearest config is primary, and writes go to its path. */
  lemma NearestConfigDecides(configs: seq<Located>, dir: Dir)
    requires configs != []
    requires forall k :: 0 <= k < |configs| ==>
                           forall l :: 0 <= l < |configs[k].config.projects| ==>
                                         !CoversInline(configs[k].config.projects[l], dir)
    ensures Primary(configs, dir) == configs[0].config
  {
    NoSynthetic(configs, dir);
  }

  /** Writes go to the primary config's path, which is always one of the paths read. */
  lemma LeafIsContributedLast(configs: seq<Located>, dir: Dir)
    requires configs != []
    ensures var all := Contributed(configs, dir);
            all != [] && all[|all| - 1] == SecretPath(Primary(configs, dir))
  {
  }

  function FirstIndex(paths: seq<string>, p: string): (i: nat)
    requires p in paths
    ensures i < |paths| && paths[i] == p && p !in paths[..i]
  {
    if paths[0] == p then 0
    else
      var i := 1 + FirstIndex(paths[1..], p);
      assert paths[..i] == [paths[0]] + paths[1..][..i - 1];
      i
  }

  /** A path ends the list exactly when nothing new is contributed after its first occurrence. */
  lemma {:induction false} LastPathIff(paths: seq<string>, leaf: string)
    requires leaf in paths
    ensures Dedup(paths) != []
    ensures Dedup(paths)[|Dedup(paths)| - 1] == leaf <==>
            forall p :: p in paths ==> p in paths[..FirstIndex(paths, leaf) + 1]
  {
    var n := |paths| - 1;
    var front, last, k := paths[..n], paths[n], FirstIndex(paths, leaf);
    assert paths == front + [last];
    DedupKeepsEachOnce(front);
    if k < n {
      assert front[k] == leaf && leaf in front;
      FirstIndexInFront(paths, leaf);
      LastPathIff(front, leaf);
      NewInLast(front, last, k);
      LastPathSnoc(front, last, leaf, k);
    } else {
      assert paths[..k + 1] == paths;
      assert leaf !in front by { assert paths[..k] == front; }
    }
  }

  lemma LastPathSnoc(front: seq<string>, last: string, leaf: string, k: nat)
    requires leaf in front && k < |front| && Dedup(front) != []
    requires Dedup(front)[|Dedup(front)| - 1] == leaf <==> forall p :: p in front ==> p in front[..k + 1]
    ensures Dedup(front + [last]) != []
    ensures Dedup(front + [last])[|Dedup(front + [last])| - 1] == leaf <==>
            (forall p :: p in front ==> p in front[..k + 1]) && last in front[..k + 1]
  {
    DedupSnoc(front, last);
    DedupKeepsEachOnce(front);
    assert last in front[..k + 1] ==> last in front;
  }

  lemma NewInLast(front: seq<string>, last: string, k: nat)
    requires k < |front|
    ensures var paths := front + [last];
            (forall p :: p in paths ==> p in paths[..k + 1]) <==>
            (forall p :: p in front ==> p in front[..k + 1]) && last in front[..k + 1]
  {
    var paths := front + [last];
    assert paths[..k + 1] == front[..k + 1];
    assert forall p :: p in paths <==> p in front || p == last;
    if forall p :: p in paths ==> p in paths[..k + 1] {
      assert last in paths;
      forall p | p in front ensures p in front[..k + 1] {
        assert p in paths;
      }
    }
  }

  lemma {:induction false} FirstIndexInFront(paths: seq<string>, p: string)
    requires p in paths && FirstIndex(paths, p) < |paths| - 1
    ensures p in paths[..|paths| - 1] && FirstIndex(paths[..|paths| - 1], p) == FirstIndex(paths, p)
  {
    if paths[0] != p {
      assert paths[..|paths| - 1][1..] == paths[1..][..|paths| - 2];
      FirstIndexInFront(paths[1..], p);
    }
  }

  // The walk and the list, told by what they hold.

  /** Exactly the configs of the directory and its ancestors, nearest first. */
  predicate FromUpward(files: map<Dir, ProjectConfig>, dir: Dir, configs: seq<Located>) {
    && (forall i :: 0 <= i < |configs| ==>
                      configs[i].dir <= dir && configs[i].dir in files && files[configs[i].dir] == configs[i].config)
    && (forall i, j :: 0 <= i < j < |configs| ==> |configs[j].dir| < |configs[i].dir|)
    && (forall above: Dir :: above <= dir && above in files ==> Located(above, files[above]) in configs)
  }

  /** What the walk finds. */
  lemma {:induction false} UpwardHolds(files: map<Dir, ProjectConfig>, dir: Dir)
    ensures FromUpward(files, dir, Upward(files, dir))
    decreases |dir|
  {
    if dir == [] {
      assert Upward(files, dir) == ConfigAt(files, dir);
    } else {
      UpwardHolds(files, Parent(dir));
      OneFurtherUp(files, dir, Upward(files, Parent(dir)));
    }
  }

  lemma OneFurtherUp(files: map<Dir, ProjectConfig>, dir: Dir, rest: seq<Located>)
    requires dir != [] && FromUpward(files, Parent(dir), rest)
    ensures FromUpward(files, dir, ConfigAt(files, dir) + rest)
  {
    ConfigsAreReal(files, dir, rest);
    NearerFirst(files, dir, rest);
    AncestorsAreFound(files, dir, rest);
  }

  lemma ConfigsAreReal(files: map<Dir, ProjectConfig>, dir: Dir, rest: seq<Located>)
    requires dir != [] && FromUpward(files, Parent(dir), rest)
    ensures forall located :: located in ConfigAt(files, dir) + rest ==>
                                located.dir <= dir && located.dir in files && files[located.dir] == located.config
  {
    forall located | located in rest
      ensures located.dir <= dir && located.dir in files && files[located.dir] == located.config
    {
      var i :| 0 <= i < |rest| && rest[i] == located;
      assert located.dir <= Parent(dir) <= dir;
    }
  }

  lemma NearerFirst(files: map<Dir, ProjectConfig>, dir: Dir, rest: seq<Located>)
    requires dir != [] && FromUpward(files, Parent(dir), rest)
    ensures var configs := ConfigAt(files, dir) + rest;
            forall i, j :: 0 <= i < j < |configs| ==> |configs[j].dir| < |configs[i].dir|
  {
    var configs, n := ConfigAt(files, dir) + rest, |ConfigAt(files, dir)|;
    forall i, j | 0 <= i < j < |configs| ensures |configs[j].dir| < |configs[i].dir| {
      assert configs[j] == rest[j - n] && rest[j - n].dir <= Parent(dir);
    }
  }

  lemma AncestorsAreFound(files: map<Dir, ProjectConfig>, dir: Dir, rest: seq<Located>)
    requires dir != [] && FromUpward(files, Parent(dir), rest)
    ensures forall above: Dir :: above <= dir && above in files ==>
                                   Located(above, files[above]) in ConfigAt(files, dir) + rest
  {
    forall above: Dir | above <= dir && above in files
      ensures Located(above, files[above]) in ConfigAt(files, dir) + rest
    {
      if |above| < |dir| {
        assert above <= Parent(dir);
      } else {
        assert above == dir;
      }
    }
  }

  /** An entry covers its directory and what lies below it; one that points at the root covers the root only. */
  lemma CoversBelow(project: Dir, below: Dir)
    ensures Covers(project, project + below) <==> project != [] || below == []
    ensures forall dir :: Covers(project, dir) ==> project <= dir
  {
  }

  lemma DefaultPathIsRoot(config: ProjectConfig)
    ensures config.secretPath.None? ==> SecretPath(config) == "/"
    ensures config.secretPath.Some? ==> SecretPath(config) == config.secretPath.value
  {
  }

  /** The list is in the order of first occurrences. */
  lemma {:induction false} DedupKeepsOrder(paths: seq<string>, i: nat, j: nat)
    requires i < j < |Dedup(paths)|
    ensures Dedup(paths)[i] in paths && Dedup(paths)[j] in paths
    ensures FirstIndex(paths, Dedup(paths)[i]) < FirstIndex(paths, Dedup(paths)[j])
  {
    DedupKeepsEachOnce(paths);
    var n := |paths| - 1;
    var front, last := paths[..n], paths[n];
    assert paths == front + [last];
    DedupKeepsEachOnce(front);
    var a, b := Dedup(paths)[i], Dedup(paths)[j];
    if j < |Dedup(front)| {
      DedupKeepsOrder(front, i, j);
      FirstIndexOfFront(front, last, a);
      FirstIndexOfFront(front, last, b);
    } else {
      assert b == last && b !in front && a in front;
      FirstIndexOfFront(front, last, a);
      assert FirstIndex(paths, b) == n by {
        assert paths[FirstIndex(paths, b)] == b;
      }
    }
  }

  lemma {:induction false} FirstIndexOfFront(front: seq<string>, last: string, p: string)
    requires p in front
    ensures p in front + [last] && FirstIndex(front + [last], p) == FirstIndex(front, p)
  {
    if front[0] != p {
      assert (front + [last])[1..] == front[1..] + [last];
      FirstIndexOfFront(front[1..], last, p);
    }
  }
}
