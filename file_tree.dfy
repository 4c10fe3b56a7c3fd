/**
 * The directory tree the managers read, held in memory instead of on disk,
 * and Python's `os.walk` over it as the discovery loops drive it: a loop body
 * that skips every directory whose path string mentions
 * `.terragrunt-cache`, and otherwise removes a sub-directory of that name
 * from the list the walk descends into.
 */
module FileTree {
  import opened Wrappers
  import opened Strings

  /** The contents of a file as read, or the message of the error raised by reading it. */
  datatype FileText = Readable(text: string) | Unreadable(reason: string)

  /** A directory: its name, its files by name and its sub-directories in listing order. */
  datatype Dir = Dir(name: string, files: map<string, FileText>, children: seq<Dir>)

  const CacheDir := ".terragrunt-cache"

  /** The first sub-directory of `children[i..]` called `name`. */
  function ChildFrom(children: seq<Dir>, name: string, i: nat): (r: Option<Dir>)
    requires i <= |children|
    ensures r.Some? ==> r.value in children && r.value.name == name
    ensures r.None? ==> forall k :: i <= k < |children| ==> children[k].name != name
    decreases |children| - i
  {
    if i == |children| then None
    else if children[i].name == name then Some(children[i])
    else ChildFrom(children, name, i + 1)
  }

  function Child(d: Dir, name: string): Option<Dir>
  {
    ChildFrom(d.children, name, 0)
  }

  /** The directory reached from `d` by the names in `path`. */
  function DirAt(d: Dir, path: seq<string>): Option<Dir>
    decreases |path|
  {
    if path == [] then Some(d)
    else
      match Child(d, path[0])
      case None => None
      case Some(c) => DirAt(c, path[1..])
  }

  /** `os.path.exists(os.path.join(dir, name))`. */
  predicate Exists(d: Dir, name: string)
  {
    name in d.files || Child(d, name).Some?
  }

  /**
   * What opening `name` in the directory at `path` gives: `None` when nothing
   * of that name exists there, and a read error when it is a directory.
   */
  function FileAt(d: Dir, path: seq<string>, name: string): (r: Option<FileText>)
    ensures r.None? <==> DirAt(d, path).None? || !Exists(DirAt(d, path).value, name)
  {
    match DirAt(d, path)
    case None => None
    case Some(dir) =>
      if name in dir.files then Some(dir.files[name])
      else if Child(dir, name).Some? then Some(Unreadable("Is a directory"))
      else None
  }

  /** A directory the walk hands to the loop body: its names below the walk's top, and the directory. */
  datatype Visit = Visit(path: seq<string>, dir: Dir)

  /** The path string `os.walk` reports for the directory `path` below `top`. */
  function PathString(top: string, path: seq<string>): string
  {
    if path == [] then top else top + "/" + Join(path, "/")
  }

  /** A path string below `x + top` is `x` followed by the path string below `top`. */
  lemma PathStringPrefix(x: string, top: string, path: seq<string>)
    ensures PathString(x + top, path) == x + PathString(top, path)
  {
    if path != [] {
      var rest := "/" + Join(path, "/");
      assert PathString(x + top, path) == (x + top) + rest;
      assert PathString(top, path) == top + rest;
    }
  }

  /** `".terragrunt-cache" in root`: a substring test on the path string. */
  predicate Skipped(top: string, path: seq<string>)
  {
    Contains(PathString(top, path), CacheDir)
  }

  /**
   * The directories the discovery loops handle, in `os.walk`'s top-down
   * order, from directory `d` at `path` below `top`. A skipped directory is
   * not handed to the loop body, but its sub-directories are still walked;
   * otherwise the first sub-directory called `.terragrunt-cache` is removed
   * before the walk descends.
   */
  function Walk(top: string, path: seq<string>, d: Dir): seq<Visit>
    decreases d, 1
  {
    if Skipped(top, path) then WalkFrom(top, path, d, 0, false)
    else [Visit(path, d)] + WalkFrom(top, path, d, 0, true)
  }

  /** The walk below `d`'s sub-directories from index `i`; `prune` while the cache directory is still to be removed. */
  function WalkFrom(top: string, path: seq<string>, d: Dir, i: nat, prune: bool): seq<Visit>
    requires i <= |d.children|
    decreases d, 0, |d.children| - i
  {
    if i == |d.children| then []
    else if prune && d.children[i].name == CacheDir then WalkFrom(top, path, d, i + 1, false)
    else Walk(top, path + [d.children[i].name], d.children[i]) + WalkFrom(top, path, d, i + 1, prune)
  }

  /** Every directory of the tree in pre-order, with nothing pruned. */
  function Tree(path: seq<string>, d: Dir): seq<Visit>
    decreases d, 1
  {
    [Visit(path, d)] + TreeFrom(path, d, 0)
  }

  function TreeFrom(path: seq<string>, d: Dir, i: nat): seq<Visit>
    requires i <= |d.children|
    decreases d, 0, |d.children| - i
  {
    if i == |d.children| then []
    else Tree(path + [d.children[i].name], d.children[i]) + TreeFrom(path, d, i + 1)
  }

  /** The visits whose path string does not mention the cache directory, in order. */
  function Unskipped(top: string, vs: seq<Visit>): (r: seq<Visit>)
    ensures forall k :: 0 <= k < |r| ==> !Skipped(top, r[k].path)
    ensures forall v :: v in r <==> v in vs && !Skipped(top, v.path)
  {
    if vs == [] then []
    else (if Skipped(top, vs[0].path) then [] else [vs[0]]) + Unskipped(top, vs[1..])
  }

  lemma {:induction false} UnskippedAppend(top: string, a: seq<Visit>, b: seq<Visit>)
    ensures Unskipped(top, a + b) == Unskipped(top, a) + Unskipped(top, b)
    decreases |a|
  {
    if a != [] {
      assert (a + b)[0] == a[0];
      assert (a + b)[1..] == a[1..] + b;
      UnskippedAppend(top, a[1..], b);
      var head := if Skipped(top, a[0].path) then [] else [a[0]];
      assert Unskipped(top, a + b) == head + Unskipped(top, a[1..] + b);
      assert Unskipped(top, a) == head + Unskipped(top, a[1..]);
    } else {
      assert a + b == b;
    }
  }

  /** A path string extends the path string of each of its ancestors. */
  lemma SkippedBelow(top: string, path: seq<string>, name: string)
    requires Skipped(top, path)
    ensures Skipped(top, path + [name])
  {
    var p := PathString(top, path);
    var q := PathString(top, path + [name]);
    PathStringBelow(top, path, name);
    ContainsInPrefix(p, "/" + name, CacheDir);
    assert q == p + ("/" + name);
  }

  lemma PathStringBelow(top: string, path: seq<string>, name: string)
    ensures PathString(top, path + [name]) == PathString(top, path) + ("/" + name)
  {
    if path != [] {
      JoinAssociative(path, [name], "/");
    }
  }

  /** A path whose last name is `.terragrunt-cache` is skipped. */
  lemma CacheChildSkipped(top: string, path: seq<string>)
    ensures Skipped(top, path + [CacheDir])
  {
    var p := PathString(top, path);
    PathStringBelow(top, path, CacheDir);
    assert PathString(top, path + [CacheDir]) == (p + "/") + CacheDir;
    ContainsAt(CacheDir, CacheDir, 0);
    ContainsInSuffix(p + "/", CacheDir, CacheDir);
  }

  /** Nothing below a skipped directory survives the skip test. */
  lemma {:induction false} SkippedTreeEmpty(top: string, path: seq<string>, d: Dir)
    requires Skipped(top, path)
    ensures Unskipped(top, Tree(path, d)) == []
    decreases d, 1
  {
    UnskippedAppend(top, [Visit(path, d)], TreeFrom(path, d, 0));
    SkippedTreeFromEmpty(top, path, d, 0);
  }

  lemma {:induction false} SkippedTreeFromEmpty(top: string, path: seq<string>, d: Dir, i: nat)
    requires i <= |d.children| && Skipped(top, path)
    ensures Unskipped(top, TreeFrom(path, d, i)) == []
    decreases d, 0, |d.children| - i
  {
    if i < |d.children| {
      var c := d.children[i];
      SkippedBelow(top, path, c.name);
      SkippedTreeEmpty(top, path + [c.name], c);
      SkippedTreeFromEmpty(top, path, d, i + 1);
      UnskippedAppend(top, Tree(path + [c.name], c), TreeFrom(path, d, i + 1));
    }
  }

  /**
   * Removing `.terragrunt-cache` from the sub-directories only saves work:
   * the walk hands the loop body exactly the directories of the whole tree,
   * in pre-order, whose path string does not mention the cache directory.
   */
  lemma {:induction false} WalkIsUnskippedTree(top: string, path: seq<string>, d: Dir)
    ensures Walk(top, path, d) == Unskipped(top, Tree(path, d))
    decreases d, 1
  {
    UnskippedAppend(top, [Visit(path, d)], TreeFrom(path, d, 0));
    WalkFromIsUnskippedTree(top, path, d, 0, !Skipped(top, path));
  }

  lemma {:induction false} WalkFromIsUnskippedTree(top: string, path: seq<string>, d: Dir, i: nat, prune: bool)
    requires i <= |d.children|
    ensures WalkFrom(top, path, d, i, prune) == Unskipped(top, TreeFrom(path, d, i))
    decreases d, 0, |d.children| - i
  {
    if i < |d.children| {
      var c := d.children[i];
      UnskippedAppend(top, Tree(path + [c.name], c), TreeFrom(path, d, i + 1));
      if prune && c.name == CacheDir {
        CacheChildSkipped(top, path);
        SkippedTreeEmpty(top, path + [c.name], c);
        WalkFromIsUnskippedTree(top, path, d, i + 1, false);
      } else {
        WalkIsUnskippedTree(top, path + [c.name], c);
        WalkFromIsUnskippedTree(top, path, d, i + 1, prune);
      }
    }
  }

  /** No directory the walk hands over has a path string that mentions `.terragrunt-cache`. */
  lemma WalkAvoidsCache(top: string, path: seq<string>, d: Dir, k: nat)
    requires k < |Walk(top, path, d)|
    ensures !Skipped(top, Walk(top, path, d)[k].path)
  {
    WalkIsUnskippedTree(top, path, d);
  }
}
