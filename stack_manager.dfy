/**
 * `StackManager`: the stacks below `live/` (directories holding
 * `stack.hcl`), the units inside each stack (directories holding
 * `terragrunt.hcl`), their dependencies, configurations and statuses, and
 * the execution order of a stack's units.
 *
 * The repository root is given by its names (an absolute, normalized path),
 * together with the directory tree found there; the command runner is a
 * function of the argument vector and the working directory.
 */
module StackManager {
  import opened Wrappers
  import opened Strings
  import opened Models
  import opened FileTree
  import opened OsPath
  import opened HclText
  import opened Planner
  import TerragruntManager

  /** The settings the manager is constructed with; `enabled` is the stacks feature switch. */
  datatype StackManager = StackManager(rootNames: seq<string>, root: Dir, binary: string, run: Runner, enabled: bool)

  const StackFile := "stack.hcl"
  const UnitFile := "terragrunt.hcl"

  /** The root path string. */
  function RootPath(sm: StackManager): string
  {
    "/" + Join(sm.rootNames, "/")
  }

  /** `os.path.join(root_path, rel)`. */
  function FullPath(sm: StackManager, relPath: string): string
  {
    JoinPath(RootPath(sm), relPath)
  }

  function Names(relPath: string): seq<string>
  {
    Split(relPath, '/')
  }

  /** `os.path.basename`. */
  function BaseName(path: string): string
  {
    var pieces := Split(path, '/');
    pieces[|pieces| - 1]
  }

  /** How `_get_unit_dependencies` records one `config_path`: a `../` reference is resolved and made relative to the root. */
  function ResolveDependency(sm: StackManager, unitPath: string, dep: string): string
  {
    if "../" <= dep then RelPath(AbsNames(NormPath(JoinPath(FullPath(sm, unitPath), dep))), sm.rootNames)
    else dep
  }

  function ResolveAll(sm: StackManager, unitPath: string, blocks: seq<DependencyBlock>): (r: seq<string>)
    ensures |r| == |blocks|
    ensures forall k :: 0 <= k < |r| ==> r[k] == ResolveDependency(sm, unitPath, blocks[k].configPath)
  {
    seq(|blocks|, k requires 0 <= k < |blocks| => ResolveDependency(sm, unitPath, blocks[k].configPath))
  }

  /** `_get_unit_dependencies`: one entry per dependency block, in order; nothing when the file cannot be read. */
  function UnitDependencies(sm: StackManager, unitPath: string, file: FileText): (r: seq<string>)
    ensures file.Unreadable? ==> r == []
    ensures file.Readable? ==>
      var blocks := DependencyBlocks(file.text, 0);
      |r| == |blocks| && forall k :: 0 <= k < |r| ==> r[k] == ResolveDependency(sm, unitPath, blocks[k].configPath)
  {
    match file
    case Unreadable(_) => []
    case Readable(content) => ResolveAll(sm, unitPath, DependencyBlocks(content, 0))
  }

  /** The names a relative path is made of, as this model's paths are written. */
  predicate Name(s: string)
  {
    s != "" && s != "." && s != ".." && '/' !in s
  }

  predicate AllNames(names: seq<string>)
  {
    forall k :: 0 <= k < |names| ==> Name(names[k])
  }

  /**
   * The two managers resolve a `../` reference of the unit at `units` the
   * same way, as long as the reference does not climb above the unit's
   * top directory.
   */
  lemma ResolutionsAgree(sm: StackManager, units: seq<string>, dep: string)
    requires AllNames(sm.rootNames) && AllNames(units) && units != []
    requires "../" <= dep
    requires ".." !in NormFold(units, Split(dep, '/'), false)
    ensures ResolveDependency(sm, Join(units, "/"), dep) == TerragruntManager.ResolveDependency(Join(units, "/"), dep)
  {
    var N := NormFold(units, Split(dep, '/'), false);
    RelativeResolution(units, dep);
    AbsoluteResolution(sm, units, dep);
    NormalizedOnly(units, Split(dep, '/'));
    if N != [] {
      JoinStartsWithFirst(N, "/");
    }
  }

  /** A name list `normpath` leaves unchanged, and that it keeps free of '/'. */
  lemma NamesNormalized(names: seq<string>, absolute: bool)
    requires AllNames(names)
    ensures Normalized(names, absolute)
    ensures NormFold([], names, absolute) == names
  {
    NormalizedFixpoint([], names, absolute);
  }

  /** What `normpath` keeps of names and '/'-free pieces: non-empty '/'-free names. */
  lemma NormalizedOnly(units: seq<string>, pieces: seq<string>)
    requires AllNames(units)
    requires forall k :: 0 <= k < |pieces| ==> '/' !in pieces[k]
    ensures var n := NormFold(units, pieces, false);
      forall k :: 0 <= k < |n| ==> n[k] != "" && '/' !in n[k]
  {
    NamesNormalized(units, false);
    NormFoldNormalized(units, pieces, false);
    NormFoldSlashFree(units, pieces, false);
  }

  lemma {:induction false} NormFoldSlashFree(stack: seq<string>, comps: seq<string>, absolute: bool)
    requires forall k :: 0 <= k < |stack| ==> '/' !in stack[k]
    requires forall k :: 0 <= k < |comps| ==> '/' !in comps[k]
    ensures var n := NormFold(stack, comps, absolute); forall k :: 0 <= k < |n| ==> '/' !in n[k]
    decreases |comps|
  {
    if comps != [] {
      NormStepSlashFree(stack, comps[0], absolute);
      assert forall k :: 0 <= k < |comps[1..]| ==> '/' !in comps[1..][k];
      var next := NormStep(stack, comps[0], absolute);
      NormFoldSlashFree(next, comps[1..], absolute);
      assert NormFold(stack, comps, absolute) == NormFold(next, comps[1..], absolute);
    }
  }

  lemma NormStepSlashFree(stack: seq<string>, comp: string, absolute: bool)
    requires forall k :: 0 <= k < |stack| ==> '/' !in stack[k]
    requires '/' !in comp
    ensures var n := NormStep(stack, comp, absolute); forall k :: 0 <= k < |n| ==> '/' !in n[k]
  {
    var n := NormStep(stack, comp, absolute);
    forall k | 0 <= k < |n|
      ensures '/' !in n[k]
    {
      if k < |stack| {
        assert n[k] == stack[k];
      } else {
        assert n[k] == comp;
      }
    }
  }

  /** The joined names neither start nor end with '/'. */
  lemma JoinedNames(names: seq<string>)
    requires AllNames(names) && names != []
    ensures var j := Join(names, "/"); j != "" && j[0] != '/' && j[|j| - 1] != '/'
  {
    JoinStartsWithFirst(names, "/");
    JoinEndsWithLast(names, "/");
    var j := Join(names, "/");
    var l := names[|names| - 1];
    assert j[|j| - 1] == l[|l| - 1];
    assert j[0] == names[0][0];
  }

  /** The terragrunt manager's resolution: `normpath(unit/dep)` is the names normalized from the unit's names. */
  lemma RelativeResolution(units: seq<string>, dep: string)
    requires AllNames(units) && units != [] && "../" <= dep
    ensures var n := Join(NormFold(units, Split(dep, '/'), false), "/");
      TerragruntManager.ResolveDependency(Join(units, "/"), dep) == (if n == "" then "." else n)
  {
    var u := Join(units, "/");
    var D := Split(dep, '/');
    JoinedNames(units);
    assert dep[0] == '.';
    var path := u + "/" + dep;
    assert JoinPath(u, dep) == path;
    assert forall k :: 0 <= k < |units| ==> '/' !in units[k];
    JoinThenSplit(units, '/');
    SplitConcat(u, dep, '/');
    assert Split(path, '/') == units + D;
    NamesNormalized(units, false);
    NormFoldAppend([], units, D, false);
    assert path[0] == u[0];
  }

  /** The stack manager's resolution: the root's names followed by the same normalized names, taken relative to the root. */
  lemma AbsoluteResolution(sm: StackManager, units: seq<string>, dep: string)
    requires AllNames(sm.rootNames) && AllNames(units) && units != [] && "../" <= dep
    requires ".." !in NormFold(units, Split(dep, '/'), false)
    ensures var n := NormFold(units, Split(dep, '/'), false);
      ResolveDependency(sm, Join(units, "/"), dep) == (if n == [] then "." else Join(n, "/"))
  {
    var R := sm.rootNames;
    var D := Split(dep, '/');
    var N := NormFold(units, D, false);
    var path := NormPath(JoinPath(FullPath(sm, Join(units, "/")), dep));
    AbsoluteNormalized(sm, units, dep);
    assert path == "/" + Join(R + N, "/");
    NormalizedOnly(units, D);
    AbsoluteNames(R, N);
    assert AbsNames(path) == R + N;
    RelPathOfExtension(R, N);
    assert ResolveDependency(sm, Join(units, "/"), dep) == RelPath(R + N, R);
  }

  /** `normpath` of the joined absolute path keeps the root's names and normalizes the rest as the relative path does. */
  lemma AbsoluteNormalized(sm: StackManager, units: seq<string>, dep: string)
    requires AllNames(sm.rootNames) && AllNames(units) && units != [] && "../" <= dep
    requires ".." !in NormFold(units, Split(dep, '/'), false)
    ensures NormPath(JoinPath(FullPath(sm, Join(units, "/")), dep))
      == "/" + Join(sm.rootNames + NormFold(units, Split(dep, '/'), false), "/")
  {
    var R := sm.rootNames;
    var D := Split(dep, '/');
    var all := R + units;
    FullPathNames(sm, units);
    var s := Join(all, "/") + "/" + dep;
    AbsoluteSplit(all, dep);
    assert JoinPath(FullPath(sm, Join(units, "/")), dep) == "/" + s;
    AbsoluteNormPath(s, all + D);
    NamesNormalized(all, true);
    NormFoldAppend([], all, D, true);
    PrefixUntouched(R, units, D, true);
  }

  /** Splitting "/" + the joined names + "/" + a relative reference. */
  lemma AbsoluteSplit(all: seq<string>, dep: string)
    requires AllNames(all) && all != [] && "../" <= dep
    ensures var s := Join(all, "/") + "/" + dep;
      s[0] != '/' && JoinPath("/" + Join(all, "/"), dep) == "/" + s && Split("/" + s, '/') == [""] + (all + Split(dep, '/'))
  {
    var j := Join(all, "/");
    JoinedNames(all);
    assert dep[0] == '.';
    assert ("/" + j) + "/" + dep == "/" + (j + "/" + dep);
    assert forall k :: 0 <= k < |all| ==> '/' !in all[k];
    RootedSplit(all, dep);
  }

  /** `normpath` of "/" followed by a path that does not start with '/'. */
  lemma AbsoluteNormPath(s: string, comps: seq<string>)
    requires s != "" && s[0] != '/'
    requires Split("/" + s, '/') == [""] + comps
    ensures NormPath("/" + s) == "/" + Join(NormFold([], comps, true), "/")
  {
    var p := "/" + s;
    assert "/" <= p;
    assert p[1] == s[0];
    assert !("//" <= p);
    assert ([""] + comps)[0] == "" && ([""] + comps)[1..] == comps;
    assert NormFold([], [""] + comps, true) == NormFold([], comps, true);
  }

  /** The unit's full path is "/" followed by the root's and the unit's names. */
  lemma FullPathNames(sm: StackManager, units: seq<string>)
    requires AllNames(sm.rootNames) && AllNames(units) && units != []
    ensures FullPath(sm, Join(units, "/")) == "/" + Join(sm.rootNames + units, "/")
  {
    var R := sm.rootNames;
    JoinedNames(units);
    if R == [] {
      assert R + units == units;
    } else {
      JoinedNames(R);
      JoinAssociative(R, units, "/");
    }
  }

  /** Taking "/" followed by joined names apart gives the names back. */
  lemma AbsoluteNames(R: seq<string>, N: seq<string>)
    requires AllNames(R)
    requires forall k :: 0 <= k < |N| ==> N[k] != "" && '/' !in N[k]
    ensures AbsNames("/" + Join(R + N, "/")) == R + N
  {
    var all := R + N;
    assert forall k :: 0 <= k < |all| ==> all[k] != "" && '/' !in all[k];
    SplitConcat("", Join(all, "/"), '/');
    assert "/" + Join(all, "/") == "" + "/" + Join(all, "/");
    if all == [] {
      assert Split("", '/') == [""];
      assert NonEmpty(["", ""]) == [];
    } else {
      JoinThenSplit(all, '/');
      NonEmptyOfNonEmpty(all);
      assert ([""] + all)[1..] == all;
    }
  }

  /** `os.path.join(a, b)` always ends with `b`. */
  lemma JoinPathEndsWith(a: string, b: string) returns (x: string)
    ensures JoinPath(a, b) == x + b
  {
    if "/" <= b {
      x := "";
    } else if a == "" || a[|a| - 1] == '/' {
      x := a;
    } else {
      x := a + "/";
    }
  }

  // Units

  /** `_get_unit_status`: no cache directory means not deployed; otherwise the state probe in the unit's directory decides. */
  function UnitStatus(sm: StackManager, unitPath: string, d: Dir): (r: ResourceStatus)
    ensures var o := sm.run(TerragruntManager.StateListArgs(sm.binary), FullPath(sm, unitPath));
      (r == Deployed <==> Exists(d, CacheDir) && o.Completed? && o.exitCode == 0 && Strip(o.stdout) != "")
      && (r == Unknown <==> Exists(d, CacheDir) && o.Raised?)
      && (r == Deployed || r == NotDeployed || r == Unknown)
  {
    if !Exists(d, CacheDir) then NotDeployed
    else TerragruntManager.ProbeStatus(sm.run(TerragruntManager.StateListArgs(sm.binary), FullPath(sm, unitPath)))
  }

  /** `_create_unit_from_path` for a walked directory holding `terragrunt.hcl`. */
  function UnitAt(sm: StackManager, stackPath: string, v: Visit): TerragruntUnit
    requires UnitFile in v.dir.files
  {
    var unitPath := PathString(stackPath, v.path);
    var file := v.dir.files[UnitFile];
    TerragruntUnit(
      BaseName(unitPath), unitPath, TerragruntUnitType, stackPath,
      UnitDependencies(sm, unitPath, file), UnitConfig(file), UnitStatus(sm, unitPath, v.dir))
  }

  /** The stack's own directory is not a unit when it holds `stack.hcl`. */
  predicate StackRoot(v: Visit)
  {
    v.path == [] && StackFile in v.dir.files
  }

  /** What the loop body of `_discover_stack_units` adds for one walked directory. */
  function UnitStep(sm: StackManager, stackPath: string, v: Visit): (r: seq<TerragruntUnit>)
    ensures |r| <= 1
  {
    if StackRoot(v) || UnitFile !in v.dir.files then []
    else [UnitAt(sm, stackPath, v)]
  }

  /** `UnitStep` as a function value. */
  function UnitStepOf(sm: StackManager, stackPath: string): Visit -> seq<TerragruntUnit>
  {
    v => UnitStep(sm, stackPath, v)
  }

  /** The units found along the walk, in walk order. */
  function UnitsOf(sm: StackManager, stackPath: string, visits: seq<Visit>): seq<TerragruntUnit>
  {
    FlatMap(UnitStepOf(sm, stackPath), visits)
  }

  /** The directories `os.walk(os.path.join(root_path, stack_path))` hands over; none when that directory does not exist. */
  function StackVisits(sm: StackManager, stackPath: string): seq<Visit>
  {
    match DirAt(sm.root, Names(stackPath))
    case None => []
    case Some(d) => Walk(FullPath(sm, stackPath), [], d)
  }

  /** `_discover_stack_units`. */
  function StackUnits(sm: StackManager, stackPath: string): seq<TerragruntUnit>
  {
    UnitsOf(sm, stackPath, StackVisits(sm, stackPath))
  }

  method DiscoverStackUnits(sm: StackManager, stackPath: string) returns (units: seq<TerragruntUnit>)
    ensures units == StackUnits(sm, stackPath)
  {
    var visits := StackVisits(sm, stackPath);
    ghost var step := UnitStepOf(sm, stackPath);
    units := [];
    var i := 0;
    while i < |visits|
      invariant i <= |visits|
      invariant units == FlatMap(step, visits[..i])
    {
      FlatMapPrefix(step, visits, i);
      var found := DiscoverUnit(sm, stackPath, visits[i]);
      assert found == step(visits[i]);
      units := units + found;
      i := i + 1;
    }
    assert visits[..i] == visits;
    assert units == UnitsOf(sm, stackPath, visits);
  }

  /** The loop body of `_discover_stack_units` for one walked directory. */
  method DiscoverUnit(sm: StackManager, stackPath: string, v: Visit) returns (found: seq<TerragruntUnit>)
    ensures found == UnitStep(sm, stackPath, v)
  {
    found := [];
    if v.path == [] && StackFile in v.dir.files {
      return;
    }
    if UnitFile in v.dir.files {
      found := [UnitAt(sm, stackPath, v)];
    }
  }

  /** Each unit comes from a walked directory holding `terragrunt.hcl` other than a stack's own directory. */
  lemma UnitFrom(sm: StackManager, stackPath: string, visits: seq<Visit>, k: nat) returns (j: nat)
    requires k < |UnitsOf(sm, stackPath, visits)|
    ensures j < |visits| && UnitFile in visits[j].dir.files && !StackRoot(visits[j])
    ensures UnitsOf(sm, stackPath, visits)[k] == UnitAt(sm, stackPath, visits[j])
  {
    var m;
    j, m := FlatMapFrom(UnitStepOf(sm, stackPath), visits, k);
    assert UnitStepOf(sm, stackPath)(visits[j]) == UnitStep(sm, stackPath, visits[j]);
  }

  /**
   * A unit's path is its directory's path below the stack, it belongs to the
   * stack, it is named after its last directory name, and it never mentions
   * `.terragrunt-cache`.
   */
  lemma StackUnitShape(sm: StackManager, stackPath: string, k: nat) returns (path: seq<string>)
    requires k < |StackUnits(sm, stackPath)|
    ensures var u := StackUnits(sm, stackPath)[k];
      u.path == PathString(stackPath, path) && u.stackPath == stackPath && u.name == BaseName(u.path)
      && !Contains(u.path, CacheDir)
  {
    var d := DirAt(sm.root, Names(stackPath)).value;
    var top := FullPath(sm, stackPath);
    var visits := Walk(top, [], d);
    var j := UnitFrom(sm, stackPath, visits, k);
    path := visits[j].path;
    WalkAvoidsCache(top, [], d, j);
    if Contains(PathString(stackPath, path), CacheDir) {
      SkippedBelowStack(sm, stackPath, path);
    }
  }

  /** A path below the stack that mentions the cache directory makes the walked path string mention it too. */
  lemma SkippedBelowStack(sm: StackManager, stackPath: string, path: seq<string>)
    requires Contains(PathString(stackPath, path), CacheDir)
    ensures Skipped(FullPath(sm, stackPath), path)
  {
    var x := JoinPathEndsWith(RootPath(sm), stackPath);
    PathStringPrefix(x, stackPath, path);
    ContainsInSuffix(x, PathString(stackPath, path), CacheDir);
  }

  /** Each unit carries the dependencies, configuration and status read from its own `terragrunt.hcl`. */
  lemma StackUnitContents(sm: StackManager, stackPath: string, k: nat) returns (v: Visit)
    requires k < |StackUnits(sm, stackPath)|
    ensures UnitFile in v.dir.files && !StackRoot(v)
    ensures var u := StackUnits(sm, stackPath)[k]; var file := v.dir.files[UnitFile];
      u.path == PathString(stackPath, v.path)
      && u.dependencies == UnitDependencies(sm, u.path, file)
      && u.configuration == UnitConfig(file)
      && u.status == UnitStatus(sm, u.path, v.dir)
  {
    var visits := StackVisits(sm, stackPath);
    var j := UnitFrom(sm, stackPath, visits, k);
    v := visits[j];
  }

  /** A stack directory that does not exist has no units. */
  lemma MissingStackNoUnits(sm: StackManager, stackPath: string)
    requires DirAt(sm.root, Names(stackPath)).None?
    ensures StackUnits(sm, stackPath) == []
  {
  }

  // Stacks

  /** The argument vector of the stack state probe. */
  function StackStateArgs(binary: string): seq<string>
  {
    [binary, "stack", "run", "state", "list"]
  }

  /** `_get_stack_status`: deployed exactly when the probe in the stack's directory exits with 0. */
  function StackStatusOf(sm: StackManager, stackPath: string): (r: StackStatus)
    ensures var o := sm.run(StackStateArgs(sm.binary), FullPath(sm, stackPath));
      (r == StackDeployed <==> o.Completed? && o.exitCode == 0)
      && (r == StackDeployed || r == StackUnknown)
  {
    match sm.run(StackStateArgs(sm.binary), FullPath(sm, stackPath))
    case Completed(exitCode, _, _) => if exitCode == 0 then StackDeployed else StackUnknown
    case Raised(_) => StackUnknown
  }

  /**
   * The `dependencies` field the stack record is built from: empty when the
   * configuration has none, the strings of a list of strings, and `None` for
   * any other value (a locals line `dependencies = ...` leaves a string
   * there), which the record's validation rejects.
   */
  function StackDependencies(config: Config): (r: Option<seq<string>>)
    ensures "dependencies" !in config ==> r == Some([])
    ensures r.Some? && "dependencies" in config ==>
      var v := config["dependencies"];
      v.List? && |r.value| == |v.items| && forall k :: 0 <= k < |v.items| ==> v.items[k] == Str(r.value[k])
    ensures r.None? <==> "dependencies" in config && !StringList(config["dependencies"])
  {
    if "dependencies" !in config then Some([])
    else
      var v := config["dependencies"];
      if StringList(v) then Some(seq(|v.items|, k requires 0 <= k < |v.items| => v.items[k].s)) else None
  }

  predicate StringList(v: Value)
  {
    v.List? && forall k :: 0 <= k < |v.items| ==> v.items[k].Str?
  }

  /** The file `stack.hcl` of the stack at `stackPath`, if anything of that name exists there. */
  function StackFileOf(sm: StackManager, stackPath: string): Option<FileText>
  {
    FileAt(sm.root, Names(stackPath), StackFile)
  }

  /** `_create_stack_from_path`: no stack without `stack.hcl`, nor when its `dependencies` do not validate. */
  function StackFromPath(sm: StackManager, stackPath: string): (r: Option<TerragruntStack>)
    ensures r.Some? ==> r.value.path == stackPath && r.value.name == BaseName(stackPath)
  {
    match StackFileOf(sm, stackPath)
    case None => None
    case Some(file) =>
      var config := StackConfig(file);
      match StackDependencies(config)
      case None => None
      case Some(dependencies) =>
        var units := StackUnits(sm, stackPath);
        var order := Layers(UnitMap(units), PathSet(units));
        Some(TerragruntStack(
          BaseName(stackPath), stackPath, units, dependencies, StackStatusOf(sm, stackPath), config, order,
          StackMetadata(JoinPath(FullPath(sm, stackPath), StackFile), |units|, |order|)))
  }

  function StackMetadata(stackFile: string, unitCount: nat, groups: nat): Config
  {
    map["stack_file" := Str(stackFile), "unit_count" := Int(unitCount), "parallel_groups" := Int(groups)]
  }

  method CreateStackFromPath(sm: StackManager, stackPath: string) returns (stack: Option<TerragruntStack>)
    ensures stack == StackFromPath(sm, stackPath)
  {
    var file := StackFileOf(sm, stackPath);
    if file.None? {
      return None;
    }
    var config := ParseStackConfig(file.value);
    var units := DiscoverStackUnits(sm, stackPath);
    var order := CalculateExecutionOrder(units);
    var dependencies := StackDependencies(config);
    if dependencies.None? {
      return None;
    }
    stack := Some(TerragruntStack(
      BaseName(stackPath), stackPath, units, dependencies.value, StackStatusOf(sm, stackPath), config, order,
      StackMetadata(JoinPath(FullPath(sm, stackPath), StackFile), |units|, |order|)));
  }

  /** Without `stack.hcl` there is no stack. */
  lemma NoStackFileNoStack(sm: StackManager, stackPath: string)
    requires StackFileOf(sm, stackPath).None?
    ensures StackFromPath(sm, stackPath).None?
  {
  }

  /**
   * A stack's execution order partitions its units' paths into disjoint
   * batches, and its metadata counts the units and the batches, of which there
   * are no more than units.
   */
  lemma StackOrderPartitions(sm: StackManager, stackPath: string)
    requires StackFromPath(sm, stackPath).Some?
    ensures var st := StackFromPath(sm, stackPath).value; var order := st.executionOrder;
      (forall i, j :: 0 <= i < j < |order| ==> order[i] !! order[j])
      && Flatten(order) == PathSet(st.units)
      && st.metadata["unit_count"] == Int(|st.units|)
      && st.metadata["parallel_groups"] == Int(|order|)
      && |order| <= |st.units|
  {
    var st := StackFromPath(sm, stackPath).value;
    LayersPartition(UnitMap(st.units), PathSet(st.units));
    PathSetSize(st.units);
  }

  lemma {:induction false} PathSetSize(units: seq<TerragruntUnit>)
    ensures |PathSet(units)| <= |units|
  {
    if units != [] {
      var init := units[..|units| - 1];
      PathSetSize(init);
      assert PathSet(units) == PathSet(init) + {units[|units| - 1].path} by {
        assert forall i :: 0 <= i < |init| ==> init[i] == units[i];
      }
    }
  }

  /**
   * A readable stack file whose locals do not set `dependencies` gives a
   * stack whose dependencies are the `config_path` values of its dependency
   * blocks, verbatim and in order.
   */
  lemma StackDependenciesAreConfigPaths(sm: StackManager, stackPath: string, content: string)
    requires StackFileOf(sm, stackPath) == Some(Readable(content))
    requires forall j :: 0 <= j < |LocalsEntries(content)| ==> !Sets(LocalsEntries(content)[j], "dependencies")
    ensures StackFromPath(sm, stackPath).Some?
    ensures StackFromPath(sm, stackPath).value.dependencies == ConfigPaths(DependencyBlocks(content, 0))
  {
    var config := StackConfig(Readable(content));
    var paths := ConfigPaths(DependencyBlocks(content, 0));
    StackDependenciesVerbatim(content);
    assert config["dependencies"] == StrList(paths);
    var deps := StackDependencies(config);
    assert deps.Some?;
    assert deps.value == paths;
  }

  /** An unreadable `stack.hcl` still gives a stack, with no configuration and no dependencies. */
  lemma UnreadableStackFile(sm: StackManager, stackPath: string, reason: string)
    requires StackFileOf(sm, stackPath) == Some(Unreadable(reason))
    ensures StackFromPath(sm, stackPath).Some?
    ensures StackFromPath(sm, stackPath).value.configuration == map[]
    ensures StackFromPath(sm, stackPath).value.dependencies == []
  {
  }

  // Discovering stacks

  /** The walk's top for stacks, `os.path.join(root_path, "live")`. */
  function LiveTop(sm: StackManager): string
  {
    JoinPath(RootPath(sm), "live")
  }

  /** A stack discovered in the walked directory `v`: it holds `stack.hcl`, and the stack's name mentions the requested environment. */
  predicate FoundAt(environment: Option<string>, v: Visit, stack: TerragruntStack)
  {
    && StackFile in v.dir.files
    && stack.path == TerragruntManager.LiveRelPath(v.path)
    && (Truthy(environment) ==> Contains(stack.name, environment.value))
  }

  /** What the loop body of `discover_stacks` adds for one walked directory. */
  function StackStep(sm: StackManager, environment: Option<string>, v: Visit): (r: seq<TerragruntStack>)
    ensures |r| <= 1
    ensures |r| == 1 ==> FoundAt(environment, v, r[0])
  {
    if StackFile !in v.dir.files then []
    else
      match StackFromPath(sm, TerragruntManager.LiveRelPath(v.path))
      case None => []
      case Some(stack) => if !Truthy(environment) || Contains(stack.name, environment.value) then [stack] else []
  }

  /** `StackStep` as a function value. */
  function StepOf(sm: StackManager, environment: Option<string>): Visit -> seq<TerragruntStack>
  {
    v => StackStep(sm, environment, v)
  }

  /** The stacks found along the walk, in walk order. */
  function StacksOf(sm: StackManager, environment: Option<string>, visits: seq<Visit>): seq<TerragruntStack>
  {
    FlatMap(StepOf(sm, environment), visits)
  }

  /** The results of `f` on each element of `xs`, concatenated in order. */
  function FlatMap<V, S>(f: V -> seq<S>, xs: seq<V>): seq<S>
  {
    if xs == [] then [] else FlatMap(f, xs[..|xs| - 1]) + f(xs[|xs| - 1])
  }

  lemma FlatMapPrefix<V, S>(f: V -> seq<S>, xs: seq<V>, i: nat)
    requires i < |xs|
    ensures FlatMap(f, xs[..i + 1]) == FlatMap(f, xs[..i]) + f(xs[i])
  {
    assert xs[..i + 1][..i] == xs[..i];
  }

  /** Every element of a `FlatMap` comes from the result of `f` on some element. */
  lemma {:induction false} FlatMapFrom<V, S>(f: V -> seq<S>, xs: seq<V>, k: nat) returns (j: nat, m: nat)
    requires k < |FlatMap(f, xs)|
    ensures j < |xs| && m < |f(xs[j])| && FlatMap(f, xs)[k] == f(xs[j])[m]
    decreases |xs|
  {
    var init := xs[..|xs| - 1];
    var front := FlatMap(f, init);
    if k < |front| {
      j, m := FlatMapFrom(f, init, k);
      assert init[j] == xs[j];
    } else {
      j, m := |xs| - 1, k - |front|;
    }
  }

  /** `discover_stacks`: nothing when the feature is off or `live` is absent. */
  function DiscoverStacksSpec(sm: StackManager, environment: Option<string>): seq<TerragruntStack>
  {
    if !sm.enabled then []
    else
      match Child(sm.root, "live")
      case None => []
      case Some(live) => StacksOf(sm, environment, Walk(LiveTop(sm), [], live))
  }

  method DiscoverStacks(sm: StackManager, environment: Option<string>) returns (stacks: seq<TerragruntStack>)
    ensures stacks == DiscoverStacksSpec(sm, environment)
  {
    stacks := [];
    if !sm.enabled {
      return;
    }
    var live := Child(sm.root, "live");
    if live.None? {
      return;
    }
    var visits := Walk(LiveTop(sm), [], live.value);
    stacks := DiscoverAlong(sm, environment, visits);
  }

  /** The loop of `discover_stacks` over the walked directories. */
  method DiscoverAlong(sm: StackManager, environment: Option<string>, visits: seq<Visit>) returns (stacks: seq<TerragruntStack>)
    ensures stacks == StacksOf(sm, environment, visits)
  {
    ghost var step := StepOf(sm, environment);
    stacks := [];
    var i := 0;
    while i < |visits|
      invariant i <= |visits|
      invariant stacks == FlatMap(step, visits[..i])
    {
      FlatMapPrefix(step, visits, i);
      var found := DiscoverStack(sm, environment, visits[i]);
      assert found == step(visits[i]);
      stacks := stacks + found;
      i := i + 1;
    }
    assert visits[..i] == visits;
  }

  /** The loop body of `discover_stacks` for one walked directory. */
  method DiscoverStack(sm: StackManager, environment: Option<string>, v: Visit) returns (found: seq<TerragruntStack>)
    ensures found == StackStep(sm, environment, v)
  {
    found := [];
    if StackFile !in v.dir.files {
      return;
    }
    var stack := CreateStackFromPath(sm, TerragruntManager.LiveRelPath(v.path));
    if stack.Some? && (!Truthy(environment) || Contains(stack.value.name, environment.value)) {
      found := [stack.value];
    }
  }

  /** Each discovered stack comes from a walked directory holding `stack.hcl`, and its name mentions the requested environment. */
  lemma StackFrom(sm: StackManager, environment: Option<string>, visits: seq<Visit>, k: nat) returns (j: nat)
    requires k < |StacksOf(sm, environment, visits)|
    ensures j < |visits| && FoundAt(environment, visits[j], StacksOf(sm, environment, visits)[k])
  {
    var m;
    j, m := FlatMapFrom(StepOf(sm, environment), visits, k);
    assert StepOf(sm, environment)(visits[j]) == StackStep(sm, environment, visits[j]);
  }

  /** No discovered stack's path mentions `.terragrunt-cache`, and each matches the requested environment. */
  lemma DiscoveredStacksAvoidCache(sm: StackManager, environment: Option<string>, k: nat)
    requires k < |DiscoverStacksSpec(sm, environment)|
    ensures !Contains(DiscoverStacksSpec(sm, environment)[k].path, CacheDir)
    ensures Truthy(environment) ==> Contains(DiscoverStacksSpec(sm, environment)[k].name, environment.value)
  {
    var live := Child(sm.root, "live").value;
    var visits := Walk(LiveTop(sm), [], live);
    var j := StackFrom(sm, environment, visits, k);
    WalkAvoidsCache(LiveTop(sm), [], live, j);
    if Contains(TerragruntManager.LiveRelPath(visits[j].path), CacheDir) {
      var m := TerragruntManager.Manager(RootPath(sm), sm.root, sm.binary, sm.run);
      TerragruntManager.LiveRelPathInPathString(m, visits[j].path);
    }
  }

  /** With the feature switched off, no stack is discovered. */
  lemma DisabledNoStacks(sm: StackManager, environment: Option<string>)
    requires !sm.enabled
    ensures DiscoverStacksSpec(sm, environment) == []
  {
  }
}
