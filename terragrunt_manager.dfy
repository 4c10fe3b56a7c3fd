/**
 * `TerragruntManager`: discovery of the units below `live/`, their
 * classification into resources, the status probe, the dependency and
 * configuration scans, and the argument vectors of plan and apply.
 *
 * The repository root is given as a path string that is absolute, normalized
 * and without a trailing '/', together with the directory tree found there;
 * the command runner is a function of the argument vector and the working
 * directory.
 */
module TerragruntManager {
  import opened Wrappers
  import opened Strings
  import opened Models
  import opened FileTree
  import opened OsPath
  import opened PathGrammar
  import opened Naming
  import opened HclText

  /** The settings the manager is constructed with. */
  datatype Manager = Manager(rootPath: string, root: Dir, binary: string, run: Runner)

  const UnitFile := "terragrunt.hcl"

  /** The names of a path relative to the root. */
  function Names(relPath: string): seq<string>
  {
    Split(relPath, '/')
  }

  /** The file `terragrunt.hcl` of the unit at `relPath`, if anything of that name exists there. */
  function UnitFileOf(m: Manager, relPath: string): Option<FileText>
  {
    FileAt(m.root, Names(relPath), UnitFile)
  }

  /** Whether `.terragrunt-cache` exists in the directory at `relPath`. */
  predicate CacheExists(m: Manager, relPath: string)
  {
    match DirAt(m.root, Names(relPath))
    case None => false
    case Some(d) => Exists(d, CacheDir)
  }

  /** The argument vector of the state probe. */
  function StateListArgs(binary: string): seq<string>
  {
    [binary, "run", "state", "list"]
  }

  /** The decision of `_get_resource_status` once the cache directory is known to exist. */
  function ProbeStatus(outcome: RunOutcome): (r: ResourceStatus)
    ensures r == Deployed <==> outcome.Completed? && outcome.exitCode == 0 && Strip(outcome.stdout) != ""
    ensures r == Unknown <==> outcome.Raised?
    ensures r == Deployed || r == NotDeployed || r == Unknown
  {
    match outcome
    case Raised(_) => Unknown
    case Completed(exitCode, stdout, _) =>
      if exitCode == 0 && Strip(stdout) != "" then Deployed else NotDeployed
  }

  /** `_get_resource_status`: no cache directory means not deployed; otherwise the state probe decides. */
  function StatusOf(m: Manager, relPath: string): (r: ResourceStatus)
    ensures !CacheExists(m, relPath) ==> r == NotDeployed
    ensures CacheExists(m, relPath) ==> r == ProbeStatus(m.run(StateListArgs(m.binary), JoinPath(m.rootPath, relPath)))
  {
    if !CacheExists(m, relPath) then NotDeployed
    else ProbeStatus(m.run(StateListArgs(m.binary), JoinPath(m.rootPath, relPath)))
  }

  /** How `_get_resource_dependencies` records one `config_path`: a `../` reference is resolved against the unit's path. */
  function ResolveDependency(relPath: string, dep: string): string
  {
    if "../" <= dep then NormPath(JoinPath(relPath, dep)) else dep
  }

  /** `_get_resource_dependencies`: one entry per dependency block, in order; nothing when the file is missing or unreadable. */
  function ResourceDependencies(relPath: string, file: Option<FileText>): (r: seq<string>)
    ensures file.None? || file.value.Unreadable? ==> r == []
    ensures file.Some? && file.value.Readable? ==>
      var blocks := DependencyBlocks(file.value.text, 0);
      |r| == |blocks| && forall k :: 0 <= k < |r| ==> r[k] == ResolveDependency(relPath, blocks[k].configPath)
  {
    match file
    case Some(Readable(content)) => ResolveAll(relPath, DependencyBlocks(content, 0))
    case _ => []
  }

  function ResolveAll(relPath: string, blocks: seq<DependencyBlock>): (r: seq<string>)
    ensures |r| == |blocks|
    ensures forall k :: 0 <= k < |r| ==> r[k] == ResolveDependency(relPath, blocks[k].configPath)
  {
    seq(|blocks|, k requires 0 <= k < |blocks| => ResolveDependency(relPath, blocks[k].configPath))
  }

  /** `_get_resource_dependencies`: nothing when the file is missing or cannot be read. */
  method GetResourceDependencies(relPath: string, file: Option<FileText>) returns (deps: seq<string>)
    ensures deps == ResourceDependencies(relPath, file)
  {
    deps := [];
    if file.None? || file.value.Unreadable? {
      return;
    }
    deps := ResolveEach(relPath, DependencyBlocks(file.value.text, 0));
  }

  /** The loop of `_get_resource_dependencies` over the dependency blocks. */
  method ResolveEach(relPath: string, blocks: seq<DependencyBlock>) returns (deps: seq<string>)
    ensures deps == ResolveAll(relPath, blocks)
  {
    deps := [];
    var k := 0;
    while k < |blocks|
      invariant k <= |blocks|
      invariant deps == ResolveAll(relPath, blocks[..k])
    {
      var dep := blocks[k].configPath;
      var resolved := dep;
      if "../" <= dep {
        resolved := NormPath(JoinPath(relPath, dep));
      }
      ResolveAllPrefix(relPath, blocks, k);
      deps := deps + [resolved];
      k := k + 1;
    }
    assert blocks[..k] == blocks;
  }

  lemma ResolveAllPrefix(relPath: string, blocks: seq<DependencyBlock>, k: nat)
    requires k < |blocks|
    ensures ResolveAll(relPath, blocks[..k + 1]) == ResolveAll(relPath, blocks[..k]) + [ResolveDependency(relPath, blocks[k].configPath)]
  {
    var left := ResolveAll(relPath, blocks[..k + 1]);
    var right := ResolveAll(relPath, blocks[..k]) + [ResolveDependency(relPath, blocks[k].configPath)];
    assert |left| == |right|;
    forall i | 0 <= i < |left|
      ensures left[i] == right[i]
    {
      assert blocks[..k + 1][i] == blocks[i];
    }
  }

  /** A reference that does not start with `../` is recorded as written. */
  lemma OtherReferencesVerbatim(relPath: string, dep: string)
    requires !("../" <= dep)
    ensures ResolveDependency(relPath, dep) == dep
  {
  }

  /** The worked example: `../d` from `live/a/b/c` is `live/a/b/d`. */
  lemma ResolveExample()
    ensures ResolveDependency("live/a/b/c", "../d") == "live/a/b/d"
  {
    var joined := "live/a/b/c/../d";
    JoinPathExample();
    NormPathExample();
    assert "../" <= "../d";
  }

  lemma JoinPathExample()
    ensures JoinPath("live/a/b/c", "../d") == "live/a/b/c/../d"
  {
    assert "../d"[0] == '.';
    assert "live/a/b/c" + "/" + "../d" == "live/a/b/c/../d";
  }

  lemma NormPathExample()
    ensures NormPath("live/a/b/c/../d") == "live/a/b/d"
  {
    var comps := ["live", "a", "b", "c", "..", "d"];
    JoinExample();
    NormPathOfJoin(comps);
    NormExample();
    JoinResultExample();
  }

  /** `normpath` of a relative path given by its names folds over those names. */
  lemma NormPathOfJoin(comps: seq<string>)
    requires comps != [] && comps[0] != "" && comps[0][0] != '/'
    requires forall k :: 0 <= k < |comps| ==> '/' !in comps[k]
    ensures NormPath(Join(comps, "/")) == (var r := Join(NormFold([], comps, false), "/"); if r == "" then "." else r)
  {
    var path := Join(comps, "/");
    JoinThenSplit(comps, '/');
    JoinStartsWithFirst(comps, "/");
    assert path[0] == comps[0][0];
  }

  lemma JoinResultExample()
    ensures Join(["live", "a", "b", "d"], "/") == "live/a/b/d"
  {
    assert Join(["b", "d"], "/") == "b/d";
    assert Join(["a", "b", "d"], "/") == "a/b/d";
  }

  lemma NormExample()
    ensures NormFold([], ["live", "a", "b", "c", "..", "d"], false) == ["live", "a", "b", "d"]
  {
    var comps := ["live", "a", "b", "c", "..", "d"];
    assert comps[1..] == ["a", "b", "c", "..", "d"];
    assert comps[1..][1..] == ["b", "c", "..", "d"];
    assert comps[1..][1..][1..] == ["c", "..", "d"];
    assert NormStep([], "live", false) == ["live"];
    assert NormStep(["live"], "a", false) == ["live", "a"];
    assert NormStep(["live", "a"], "b", false) == ["live", "a", "b"];
    NormTailExample();
  }

  /** The last three names of the example: `c`, `..` and `d`. */
  lemma NormTailExample()
    ensures NormFold(["live", "a", "b"], ["c", "..", "d"], false) == ["live", "a", "b", "d"]
  {
    var comps := ["c", "..", "d"];
    assert comps[1..] == ["..", "d"];
    assert comps[1..][1..] == ["d"];
    assert comps[1..][1..][1..] == [];
    assert NormStep(["live", "a", "b"], "c", false) == ["live", "a", "b", "c"];
    assert NormStep(["live", "a", "b", "c"], "..", false) == ["live", "a", "b"];
    assert NormStep(["live", "a", "b"], "d", false) == ["live", "a", "b", "d"];
  }

  lemma JoinExample()
    ensures Join(["live", "a", "b", "c", "..", "d"], "/") == "live/a/b/c/../d"
  {
    var parts := ["live", "a", "b", "c", "..", "d"];
    assert parts[5..] == ["d"];
    assert parts[4..] == ["..", "d"] && parts[4..][1..] == parts[5..];
    assert parts[3..] == ["c", "..", "d"] && parts[3..][1..] == parts[4..];
    assert parts[2..] == ["b", "c", "..", "d"] && parts[2..][1..] == parts[3..];
    assert parts[1..] == ["a", "b", "c", "..", "d"] && parts[1..][1..] == parts[2..];
    assert Join(parts[4..], "/") == "../d";
    assert Join(parts[3..], "/") == "c/../d";
    assert Join(parts[2..], "/") == "b/c/../d";
    assert Join(parts[1..], "/") == "a/b/c/../d";
  }

  /**
   * `_create_resource_from_path`: a resource only for a path with account,
   * environment, project and a known resource type; the name falls back to
   * the type, and the environment is production exactly when it contains
   * "prod".
   */
  function CreateResource(m: Manager, relPath: string): (r: Option<Resource>)
    ensures var c := ParsePath(relPath);
      r.Some? <==> (Truthy(c.account) && Truthy(c.environment) && Truthy(c.project) && Truthy(c.resourceType)
                    && ResourceTypeFromString(c.resourceType.value).Some?)
    ensures var c := ParsePath(relPath);
      r.Some? ==>
        r.value.path == relPath
        && r.value.kind.Value() == c.resourceType.value
        && r.value.name == (if Truthy(c.resourceName) then c.resourceName.value else c.resourceType.value)
        && r.value.environment == c.environment.value
        && (r.value.environmentType == Production <==> Contains(c.environment.value, "prod"))
        && r.value.region == c.region
        && r.value.status == StatusOf(m, relPath)
        && r.value.dependencies == ResourceDependencies(relPath, UnitFileOf(m, relPath))
        && r.value.configuration == ResourceConfig(UnitFileOf(m, relPath))
  {
    var c := ParsePath(relPath);
    if !(Truthy(c.account) && Truthy(c.environment) && Truthy(c.project) && Truthy(c.resourceType)) then None
    else
      match ResourceTypeFromString(c.resourceType.value)
      case None => None
      case Some(kind) =>
        var name := if Truthy(c.resourceName) then c.resourceName.value else c.resourceType.value;
        Some(Resource(
          name, kind, relPath, c.environment.value, ResourceEnvironmentType(c.environment.value), c.region,
          StatusOf(m, relPath),
          ResourceDependencies(relPath, UnitFileOf(m, relPath)),
          ResourceConfig(UnitFileOf(m, relPath))))
  }

  /** The path relative to the root of a directory the walk below `live` reaches. */
  function LiveRelPath(path: seq<string>): string
  {
    Join(["live"] + path, "/")
  }

  /** What the loop body of `discover_resources` adds for one walked directory. */
  function DiscoverStep(m: Manager, environment: Option<string>, v: Visit): (r: seq<Resource>)
    ensures |r| <= 1
  {
    if UnitFile !in v.dir.files then []
    else
      var relPath := LiveRelPath(v.path);
      var c := ParsePath(relPath);
      if Truthy(environment) && c.environment != environment then []
      else if !Truthy(c.resourceType) then []
      else
        match CreateResource(m, relPath)
        case None => []
        case Some(resource) => [resource]
  }

  /** The resources the loop collects from the walked directories `visits`, in order. */
  function Discovered(m: Manager, environment: Option<string>, visits: seq<Visit>): seq<Resource>
  {
    if visits == [] then []
    else Discovered(m, environment, visits[..|visits| - 1]) + DiscoverStep(m, environment, visits[|visits| - 1])
  }

  lemma DiscoveredPrefix(m: Manager, environment: Option<string>, visits: seq<Visit>, i: nat)
    requires i < |visits|
    ensures Discovered(m, environment, visits[..i + 1]) == Discovered(m, environment, visits[..i]) + DiscoverStep(m, environment, visits[i])
  {
    assert visits[..i + 1][..i] == visits[..i];
  }

  /** The top of the walk, `os.path.join(root_path, "live")`. */
  function LiveTop(m: Manager): string
  {
    JoinPath(m.rootPath, "live")
  }

  /** `discover_resources`: nothing when `live` is absent or is not a directory. */
  function DiscoverResourcesSpec(m: Manager, environment: Option<string>): seq<Resource>
  {
    match Child(m.root, "live")
    case None => []
    case Some(live) => Discovered(m, environment, Walk(LiveTop(m), [], live))
  }

  method DiscoverResources(m: Manager, environment: Option<string>) returns (resources: seq<Resource>)
    ensures resources == DiscoverResourcesSpec(m, environment)
  {
    resources := [];
    var live := Child(m.root, "live");
    if live.None? {
      return;
    }
    var visits := Walk(LiveTop(m), [], live.value);
    var i := 0;
    while i < |visits|
      invariant i <= |visits|
      invariant resources == Discovered(m, environment, visits[..i])
    {
      DiscoveredPrefix(m, environment, visits, i);
      var found := DiscoverOne(m, environment, visits[i]);
      resources := resources + found;
      i := i + 1;
    }
    assert visits[..i] == visits;
  }

  /** The loop body of `discover_resources` for one walked directory. */
  method DiscoverOne(m: Manager, environment: Option<string>, v: Visit) returns (found: seq<Resource>)
    ensures found == DiscoverStep(m, environment, v)
  {
    found := [];
    if UnitFile !in v.dir.files {
      return;
    }
    var relPath := LiveRelPath(v.path);
    var components := ParsePath(relPath);
    if Truthy(environment) && components.environment != environment {
      return;
    }
    if Truthy(components.resourceType) {
      var resource := CreateResource(m, relPath);
      if resource.Some? {
        found := [resource.value];
      }
    }
  }

  /** Each discovered resource comes from a walked directory holding `terragrunt.hcl`, and matches the requested environment. */
  lemma {:induction false} DiscoveredFrom(m: Manager, environment: Option<string>, visits: seq<Visit>, k: nat) returns (j: nat)
    requires k < |Discovered(m, environment, visits)|
    ensures j < |visits| && UnitFile in visits[j].dir.files
    ensures Discovered(m, environment, visits)[k].path == LiveRelPath(visits[j].path)
    ensures Truthy(environment) ==> Discovered(m, environment, visits)[k].environment == environment.value
    decreases |visits|
  {
    var init := visits[..|visits| - 1];
    var last := visits[|visits| - 1];
    var front := Discovered(m, environment, init);
    if k < |front| {
      j := DiscoveredFrom(m, environment, init, k);
    } else {
      j := |visits| - 1;
      assert Discovered(m, environment, visits)[k] == DiscoverStep(m, environment, last)[0];
    }
  }

  /** The directory names of `live/...` path strings end the walk's top, which ends in "live". */
  lemma LiveRelPathInPathString(m: Manager, path: seq<string>)
    requires Contains(LiveRelPath(path), CacheDir)
    ensures Skipped(LiveTop(m), path)
  {
    var top := LiveTop(m);
    if path == [] {
      var i := ContainsOnlyAt("live", CacheDir);
    } else {
      JoinAssociative(["live"], path, "/");
      assert LiveRelPath(path) == "live" + "/" + Join(path, "/");
      assert top == top[..|top| - 4] + "live";
      assert PathString(top, path) == top[..|top| - 4] + LiveRelPath(path);
      ContainsInSuffix(top[..|top| - 4], LiveRelPath(path), CacheDir);
    }
  }

  /** No discovered resource's path mentions `.terragrunt-cache`, and each belongs to the requested environment. */
  lemma DiscoveredAvoidsCache(m: Manager, environment: Option<string>, k: nat)
    requires k < |DiscoverResourcesSpec(m, environment)|
    ensures !Contains(DiscoverResourcesSpec(m, environment)[k].path, CacheDir)
    ensures Truthy(environment) ==> DiscoverResourcesSpec(m, environment)[k].environment == environment.value
  {
    var live := Child(m.root, "live").value;
    var visits := Walk(LiveTop(m), [], live);
    var j := DiscoveredFrom(m, environment, visits, k);
    WalkAvoidsCache(LiveTop(m), [], live, j);
    if Contains(LiveRelPath(visits[j].path), CacheDir) {
      LiveRelPathInPathString(m, visits[j].path);
    }
  }

  /** Without a `live` directory discovery finds nothing. */
  lemma NoLiveNoResources(m: Manager, environment: Option<string>)
    requires Child(m.root, "live").None?
    ensures DiscoverResourcesSpec(m, environment) == []
  {
  }

  /** The argument vector of `plan_resource`: a plan file is written unless it is a dry run. */
  function PlanArgs(binary: string, dryRun: bool): (r: seq<string>)
    ensures |r| == (if dryRun then 4 else 5)
    ensures r[..3] == [binary, "run", "plan"] && r[|r| - 1] == "--backend-bootstrap"
    ensures !dryRun ==> r[3] == "-out=tfplan"
  {
    [binary, "run", "plan"] + (if dryRun then [] else ["-out=tfplan"]) + ["--backend-bootstrap"]
  }

  /** The argument vector of `apply_resource`: the plan file when one is named, otherwise auto-approval. */
  function ApplyArgs(binary: string, planFile: Option<string>): (r: seq<string>)
    ensures |r| == 5 && r[..3] == [binary, "run", "apply"] && r[4] == "--backend-bootstrap"
    ensures r[3] == (if Truthy(planFile) then planFile.value else "-auto-approve")
  {
    [binary, "run", "apply"] + (if Truthy(planFile) then [planFile.value] else ["-auto-approve"]) + ["--backend-bootstrap"]
  }
}
