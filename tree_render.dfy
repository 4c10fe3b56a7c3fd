/**
 * The resource tree of `draw_resource_tree`: the lines of `terragrunt find`
 * read as resources, the trie of their paths, and its two renderings, as an
 * outline with branch-drawing characters and as a flat dependency list.
 */
module TreeRender {
  import opened Wrappers
  import opened Strings
  import opened PathGrammar

  /** One resource as `_parse_find_output` records it (the `"unknown"` defaults cannot arise). */
  datatype Found = Found(
    path: string,
    name: Option<string>,
    kind: Option<string>,
    environment: Option<string>,
    region: Option<string>,
    account: Option<string>,
    project: Option<string>,
    dependencies: seq<string>)

  /**
   * The resource a line of `terragrunt find` output describes: after
   * stripping, a non-empty line that is not a `#` comment and names a path
   * with a '/', read with the path grammar under `live/`.
   */
  function FoundLine(line: string): (r: Option<Found>)
    ensures var l := Strip(line);
      && (r.Some? <==> l != "" && l[0] != '#' && '/' in l)
      && (r.Some? ==> r.value.path == l && r.value.dependencies == [])
  {
    var l := Strip(line);
    if l == "" || l[0] == '#' || '/' !in l then None
    else
      var c := ParsePath("live/" + l);
      Some(Found(l, if Truthy(c.resourceName) then c.resourceName else c.resourceType, c.resourceType,
                 c.environment, c.region, c.account, c.project, []))
  }

  /** The resources of the lines, in order. */
  function FoundAll(lines: seq<string>): (r: seq<Found>)
    ensures |r| <= |lines|
  {
    if lines == [] then []
    else
      FoundAll(lines[..|lines| - 1]) + FoundIn(lines[|lines| - 1])
  }

  /** The resource of a line, as a list of at most one. */
  function FoundIn(line: string): seq<Found>
  {
    var found := FoundLine(line);
    if found.Some? then [found.value] else []
  }

  function FindLines(output: string): seq<string>
  {
    Split(Strip(output), '\n')
  }

  /** `_parse_find_output`. */
  method ParseFindOutput(output: string) returns (resources: seq<Found>)
    ensures resources == FoundAll(FindLines(output))
  {
    resources := ParseFindLines(FindLines(output));
  }

  /** The loop of `_parse_find_output` over the lines of the output. */
  method ParseFindLines(lines: seq<string>) returns (resources: seq<Found>)
    ensures resources == FoundAll(lines)
  {
    resources := [];
    var i := 0;
    while i < |lines|
      invariant i <= |lines|
      invariant resources == FoundAll(lines[..i])
    {
      FoundAllStep(lines, i);
      resources := resources + FoundIn(lines[i]);
      i := i + 1;
    }
    assert lines[..i] == lines;
  }

  lemma FoundAllStep(lines: seq<string>, i: nat)
    requires i < |lines|
    ensures FoundAll(lines[..i + 1]) == FoundAll(lines[..i]) + FoundIn(lines[i])
  {
    assert lines[..i + 1][..i] == lines[..i];
  }

  /** Under `live/`, a listed path is read by its own non-empty segments. */
  lemma LiveParts(l: string)
    ensures PathParts("live/" + l) == ["live"] + Segments(Split(l, '/'))
  {
    var s := "live/" + l;
    assert s == "live" + ['/'] + l;
    SplitConcat("live", l, '/');
    LiveSplit();
    SegmentsCons("live", Split(l, '/'));
    assert s[0] == 'l';
    assert !("/" <= s) && !("//" <= s);
  }

  lemma LiveSplit()
    ensures Split("live", '/') == ["live"]
  {
    assert IndexOfChar("live", '/', 0) == 4;
  }

  lemma SegmentsCons(x: string, rest: seq<string>)
    requires x != "" && x != "."
    ensures Segments([x] + rest) == [x] + Segments(rest)
  {
    assert ([x] + rest)[1..] == rest;
  }

  /**
   * Every listed resource with a path of at least three segments has its
   * account, environment and project; its type is absent exactly when no
   * segment is left for it, and its name is absent exactly when its type is.
   */
  lemma FoundFields(line: string)
    requires FoundLine(line).Some?
    ensures var f := FoundLine(line).value; var segs := Segments(Split(f.path, '/'));
      && (f.account.Some? <==> |segs| >= 3)
      && (f.kind.None? <==> |segs| < 4 || (|segs| == 4 && segs[3] in Regions))
      && (f.name.None? <==> f.kind.None?)
  {
    var f := FoundLine(line).value;
    LiveParts(f.path);
    TypeAbsent("live/" + f.path);
  }

  lemma TypeAbsent(path: string)
    ensures var parts := PathParts(path); var c := ParsePath(path);
      c.resourceType.None? <==> |parts| <= 4 || parts[0] != "live" || (|parts| == 5 && parts[4] in Regions)
  {
  }

  /** A node of the trie; `kind` is `None` where the resource's type is. */
  datatype Node = Node(
    name: string,
    kind: Option<string>,
    children: seq<Node>,
    level: nat,
    resource: Option<Found>,
    dependencies: seq<string>)

  const Root := Node("Infrastructure", Some("root"), [], 0, None, [])

  /** A node's own fields, without its sub-trie. */
  function Bare(n: Node): Node
  {
    n.(children := [])
  }

  /** A `max_depth` of `None` or 0 sets no limit. */
  predicate Limited(maxDepth: Option<int>)
  {
    maxDepth.Some? && maxDepth.value != 0
  }

  predicate Stops(maxDepth: Option<int>, level: int)
  {
    Limited(maxDepth) && level >= maxDepth.value
  }

  /** The index of the first child called `name` from `from` on, or `|children|`. */
  function ChildIndex(children: seq<Node>, name: string, from: nat): (r: nat)
    requires from <= |children|
    ensures from <= r <= |children|
    ensures r < |children| ==> children[r].name == name
    ensures forall j :: from <= j < r ==> children[j].name != name
    decreases |children| - from
  {
    if from == |children| || children[from].name == name then from else ChildIndex(children, name, from + 1)
  }

  /** The node reached from `n` by the names in `path`. */
  function Lookup(n: Node, path: seq<string>): Option<Node>
    decreases |path|
  {
    if path == [] then Some(n)
    else
      var k := ChildIndex(n.children, path[0], 0);
      if k == |n.children| then None else Lookup(n.children[k], path[1..])
  }

  /** The node the resource creates for part `i` of its path: a folder unless it is the last part. */
  function NewNode(parts: seq<string>, i: nat, resource: Found, includeDependencies: bool): Node
    requires i < |parts|
  {
    var last := i == |parts| - 1;
    Node(parts[i], if last then resource.kind else Some("folder"), [], i + 1,
         if last then Some(resource) else None,
         if includeDependencies then resource.dependencies else [])
  }

  /**
   * The parts from `i` on inserted as a chain of nodes below `n`, reusing
   * the children that already exist and stopping at level `maxDepth`.
   */
  function Insert(n: Node, parts: seq<string>, i: nat, resource: Found, includeDependencies: bool,
                  maxDepth: Option<int>): (r: Node)
    requires i <= |parts|
    ensures Bare(r) == Bare(n)
    decreases |parts| - i
  {
    if i == |parts| || Stops(maxDepth, i) then n
    else
      var k := ChildIndex(n.children, parts[i], 0);
      if k == |n.children| then
        var child := Insert(NewNode(parts, i, resource, includeDependencies), parts, i + 1, resource,
                            includeDependencies, maxDepth);
        n.(children := n.children + [child])
      else
        n.(children := n.children[k := Insert(n.children[k], parts, i + 1, resource, includeDependencies, maxDepth)])
  }

  /** The index at which inserting from part `i` stops. */
  function Reach(parts: seq<string>, i: nat, maxDepth: Option<int>): (r: nat)
    requires i <= |parts|
    ensures i <= r <= |parts|
  {
    if !Limited(maxDepth) then |parts|
    else if maxDepth.value <= i then i
    else if maxDepth.value <= |parts| then maxDepth.value
    else |parts|
  }

  /** `q` is a non-empty run of the parts from `i` on that insertion reaches. */
  predicate Along(parts: seq<string>, i: nat, maxDepth: Option<int>, q: seq<string>)
    requires i <= |parts|
  {
    q != [] && i + |q| <= Reach(parts, i, maxDepth) && q == parts[i..i + |q|]
  }

  lemma SameChildIndex(a: seq<Node>, b: seq<Node>, name: string)
    requires |a| == |b| && forall j :: 0 <= j < |a| ==> a[j].name == b[j].name
    ensures ChildIndex(a, name, 0) == ChildIndex(b, name, 0)
  {
    var ra := ChildIndex(a, name, 0);
    var rb := ChildIndex(b, name, 0);
    assert ra < |a| ==> b[ra].name == name;
    assert rb < |b| ==> a[rb].name == name;
  }

  lemma AppendChildIndex(a: seq<Node>, c: Node, name: string)
    ensures var r := ChildIndex(a + [c], name, 0);
      && (ChildIndex(a, name, 0) < |a| ==> r == ChildIndex(a, name, 0))
      && (ChildIndex(a, name, 0) == |a| ==> r == if c.name == name then |a| else |a| + 1)
  {
    var ra := ChildIndex(a, name, 0);
    var r := ChildIndex(a + [c], name, 0);
    assert forall j :: 0 <= j < |a| ==> (a + [c])[j] == a[j];
    assert (a + [c])[|a|] == c;
    assert r < |a| ==> a[r].name == name;
    assert ra < |a| ==> (a + [c])[ra].name == name;
  }

  /** The lookups below `n` after the insertion, as `InsertLookup` states them. */
  ghost predicate InsertedAt(n: Node, parts: seq<string>, i: nat, resource: Found, includeDependencies: bool,
                             maxDepth: Option<int>, q: seq<string>)
    requires i <= |parts|
  {
    var after := Lookup(Insert(n, parts, i, resource, includeDependencies, maxDepth), q);
    && (Lookup(n, q).Some? ==> after.Some? && Bare(after.value) == Bare(Lookup(n, q).value))
    && (Lookup(n, q).None? ==> (after.Some? <==> Along(parts, i, maxDepth, q)))
    && (Lookup(n, q).None? && after.Some? ==>
          Bare(after.value) == Bare(NewNode(parts, i + |q| - 1, resource, includeDependencies)))
  }

  /**
   * What inserting a path does to every path below `n`: a node that existed
   * keeps its own fields (the first resource to create a node fixes its
   * type, resource and dependencies), and the new nodes are exactly those on
   * the inserted run, each as the resource creates it.
   */
  lemma {:induction false} InsertLookup(n: Node, parts: seq<string>, i: nat, resource: Found,
                                        includeDependencies: bool, maxDepth: Option<int>, q: seq<string>)
    requires i <= |parts|
    ensures var after := Lookup(Insert(n, parts, i, resource, includeDependencies, maxDepth), q);
      && (Lookup(n, q).Some? ==> after.Some? && Bare(after.value) == Bare(Lookup(n, q).value))
      && (Lookup(n, q).None? ==> (after.Some? <==> Along(parts, i, maxDepth, q)))
      && (Lookup(n, q).None? && after.Some? ==>
            Bare(after.value) == Bare(NewNode(parts, i + |q| - 1, resource, includeDependencies)))
    decreases |parts| - i, 2
  {
    if q == [] || i == |parts| || Stops(maxDepth, i) {
      return;
    }
    AlongStep(parts, i, maxDepth, q);
    var k := ChildIndex(n.children, parts[i], 0);
    if k < |n.children| {
      InsertBelowExisting(n, parts, i, resource, includeDependencies, maxDepth, q);
    } else {
      InsertBelowNew(n, parts, i, resource, includeDependencies, maxDepth, q);
    }
    assert InsertedAt(n, parts, i, resource, includeDependencies, maxDepth, q);
  }

  /** A run from part `i` is the part itself followed by a run from part `i + 1`. */
  lemma AlongStep(parts: seq<string>, i: nat, maxDepth: Option<int>, q: seq<string>)
    requires i < |parts| && !Stops(maxDepth, i) && q != []
    ensures Reach(parts, i + 1, maxDepth) == Reach(parts, i, maxDepth)
    ensures Along(parts, i, maxDepth, q) <==> q[0] == parts[i] && (q[1..] == [] || Along(parts, i + 1, maxDepth, q[1..]))
  {
    var rest := q[1..];
    if q[0] == parts[i] && rest != [] && i + |q| <= Reach(parts, i, maxDepth) {
      assert q == [q[0]] + rest;
      assert parts[i..i + |q|] == [parts[i]] + parts[i + 1..i + 1 + |rest|];
    }
  }

  lemma InsertBelowExisting(n: Node, parts: seq<string>, i: nat, resource: Found,
                            includeDependencies: bool, maxDepth: Option<int>, q: seq<string>)
    requires i < |parts| && !Stops(maxDepth, i) && q != []
    requires ChildIndex(n.children, parts[i], 0) < |n.children|
    requires Reach(parts, i + 1, maxDepth) == Reach(parts, i, maxDepth)
    requires Along(parts, i, maxDepth, q) <==> q[0] == parts[i] && (q[1..] == [] || Along(parts, i + 1, maxDepth, q[1..]))
    ensures InsertedAt(n, parts, i, resource, includeDependencies, maxDepth, q)
    decreases |parts| - i, 1
  {
    if q[0] == parts[i] {
      InsertIntoExisting(n, parts, i, resource, includeDependencies, maxDepth, q);
    } else {
      InsertBesideExisting(n, parts, i, resource, includeDependencies, maxDepth, q);
    }
  }

  /** The path looked up follows the reused child. */
  lemma {:induction false} InsertIntoExisting(n: Node, parts: seq<string>, i: nat, resource: Found,
                                              includeDependencies: bool, maxDepth: Option<int>, q: seq<string>)
    requires i < |parts| && !Stops(maxDepth, i) && q != [] && q[0] == parts[i]
    requires ChildIndex(n.children, parts[i], 0) < |n.children|
    requires Reach(parts, i + 1, maxDepth) == Reach(parts, i, maxDepth)
    requires Along(parts, i, maxDepth, q) <==> q[1..] == [] || Along(parts, i + 1, maxDepth, q[1..])
    ensures InsertedAt(n, parts, i, resource, includeDependencies, maxDepth, q)
    decreases |parts| - i, 0
  {
    var k := ChildIndex(n.children, parts[i], 0);
    var r := Insert(n, parts, i, resource, includeDependencies, maxDepth);
    var c := Insert(n.children[k], parts, i + 1, resource, includeDependencies, maxDepth);
    var ch := n.children[k := c];
    assert r.children == ch;
    assert Bare(c) == Bare(n.children[k]);
    SameChildIndex(n.children, ch, q[0]);
    InsertLookup(n.children[k], parts, i + 1, resource, includeDependencies, maxDepth, q[1..]);
    assert Lookup(r, q) == Lookup(c, q[1..]);
    assert Lookup(n, q) == Lookup(n.children[k], q[1..]);
  }

  /** The path looked up leaves the reused child aside. */
  lemma InsertBesideExisting(n: Node, parts: seq<string>, i: nat, resource: Found,
                             includeDependencies: bool, maxDepth: Option<int>, q: seq<string>)
    requires i < |parts| && !Stops(maxDepth, i) && q != [] && q[0] != parts[i]
    requires ChildIndex(n.children, parts[i], 0) < |n.children|
    requires !Along(parts, i, maxDepth, q)
    ensures InsertedAt(n, parts, i, resource, includeDependencies, maxDepth, q)
  {
    var k := ChildIndex(n.children, parts[i], 0);
    var r := Insert(n, parts, i, resource, includeDependencies, maxDepth);
    var c := Insert(n.children[k], parts, i + 1, resource, includeDependencies, maxDepth);
    var ch := n.children[k := c];
    assert r.children == ch;
    assert Bare(c) == Bare(n.children[k]);
    SameChildIndex(n.children, ch, q[0]);
    var j := ChildIndex(n.children, q[0], 0);
    assert j < |ch| ==> ch[j] == n.children[j];
    assert Lookup(r, q) == Lookup(n, q);
  }

  lemma InsertBelowNew(n: Node, parts: seq<string>, i: nat, resource: Found,
                       includeDependencies: bool, maxDepth: Option<int>, q: seq<string>)
    requires i < |parts| && !Stops(maxDepth, i) && q != []
    requires ChildIndex(n.children, parts[i], 0) == |n.children|
    requires Reach(parts, i + 1, maxDepth) == Reach(parts, i, maxDepth)
    requires Along(parts, i, maxDepth, q) <==> q[0] == parts[i] && (q[1..] == [] || Along(parts, i + 1, maxDepth, q[1..]))
    ensures InsertedAt(n, parts, i, resource, includeDependencies, maxDepth, q)
    decreases |parts| - i, 1
  {
    if q[0] == parts[i] {
      InsertIntoNew(n, parts, i, resource, includeDependencies, maxDepth, q);
    } else {
      InsertBesideNew(n, parts, i, resource, includeDependencies, maxDepth, q);
    }
  }

  /** The path looked up follows the new child. */
  lemma {:induction false} InsertIntoNew(n: Node, parts: seq<string>, i: nat, resource: Found,
                                         includeDependencies: bool, maxDepth: Option<int>, q: seq<string>)
    requires i < |parts| && !Stops(maxDepth, i) && q != [] && q[0] == parts[i]
    requires ChildIndex(n.children, parts[i], 0) == |n.children|
    requires Reach(parts, i + 1, maxDepth) == Reach(parts, i, maxDepth)
    requires Along(parts, i, maxDepth, q) <==> q[1..] == [] || Along(parts, i + 1, maxDepth, q[1..])
    ensures InsertedAt(n, parts, i, resource, includeDependencies, maxDepth, q)
    decreases |parts| - i, 0
  {
    var r := Insert(n, parts, i, resource, includeDependencies, maxDepth);
    var created := NewNode(parts, i, resource, includeDependencies);
    var c := Insert(created, parts, i + 1, resource, includeDependencies, maxDepth);
    assert r.children == n.children + [c];
    assert c.name == parts[i];
    AppendChildIndex(n.children, c, q[0]);
    InsertLookup(created, parts, i + 1, resource, includeDependencies, maxDepth, q[1..]);
    assert (n.children + [c])[|n.children|] == c;
    assert Lookup(r, q) == Lookup(c, q[1..]);
    assert Lookup(n, q).None?;
    assert q[1..] != [] ==> Lookup(created, q[1..]).None?;
  }

  /** The path looked up leaves the new child aside. */
  lemma InsertBesideNew(n: Node, parts: seq<string>, i: nat, resource: Found,
                        includeDependencies: bool, maxDepth: Option<int>, q: seq<string>)
    requires i < |parts| && !Stops(maxDepth, i) && q != [] && q[0] != parts[i]
    requires ChildIndex(n.children, parts[i], 0) == |n.children|
    requires !Along(parts, i, maxDepth, q)
    ensures InsertedAt(n, parts, i, resource, includeDependencies, maxDepth, q)
  {
    var r := Insert(n, parts, i, resource, includeDependencies, maxDepth);
    var created := NewNode(parts, i, resource, includeDependencies);
    var c := Insert(created, parts, i + 1, resource, includeDependencies, maxDepth);
    assert r.children == n.children + [c];
    assert c.name == parts[i];
    AppendChildIndex(n.children, c, q[0]);
    var j := ChildIndex(n.children, q[0], 0);
    assert j < |n.children| ==> (n.children + [c])[j] == n.children[j];
    assert Lookup(r, q) == Lookup(n, q);
  }

  /** The trie of the resources' paths (Python's `path.split('/')`), inserted in order. */
  function Built(resources: seq<Found>, includeDependencies: bool, maxDepth: Option<int>): Node
  {
    if resources == [] then Root
    else
      var last := resources[|resources| - 1];
      Insert(Built(resources[..|resources| - 1], includeDependencies, maxDepth), Split(last.path, '/'), 0, last,
             includeDependencies, maxDepth)
  }

  /** `_build_tree_structure`. */
  method BuildTreeStructure(resources: seq<Found>, includeDependencies: bool, maxDepth: Option<int>)
    returns (tree: Node)
    ensures tree == Built(resources, includeDependencies, maxDepth)
  {
    tree := Root;
    var i := 0;
    while i < |resources|
      invariant i <= |resources|
      invariant tree == Built(resources[..i], includeDependencies, maxDepth)
    {
      assert resources[..i + 1][..i] == resources[..i];
      tree := Insert(tree, Split(resources[i].path, '/'), 0, resources[i], includeDependencies, maxDepth);
      i := i + 1;
    }
    assert resources[..i] == resources;
  }

  /** The root keeps its own fields whatever is inserted below it. */
  lemma {:induction false} BuiltRoot(resources: seq<Found>, includeDependencies: bool, maxDepth: Option<int>)
    ensures Bare(Built(resources, includeDependencies, maxDepth)) == Root
  {
    if resources != [] {
      BuiltRoot(resources[..|resources| - 1], includeDependencies, maxDepth);
    }
  }

  /** Every resource's path is in the tree, down to the level insertion reaches. */
  lemma {:induction false} BuiltContainsPaths(resources: seq<Found>, includeDependencies: bool, maxDepth: Option<int>,
                                              k: nat, j: nat)
    requires k < |resources|
    requires j <= Reach(Split(resources[k].path, '/'), 0, maxDepth)
    ensures Lookup(Built(resources, includeDependencies, maxDepth), Split(resources[k].path, '/')[..j]).Some?
  {
    var init := resources[..|resources| - 1];
    var last := resources[|resources| - 1];
    var parts := Split(resources[k].path, '/');
    var q := parts[..j];
    if k < |init| {
      assert init[k] == resources[k];
      BuiltContainsPaths(init, includeDependencies, maxDepth, k, j);
      InsertLookup(Built(init, includeDependencies, maxDepth), Split(last.path, '/'), 0, last,
                   includeDependencies, maxDepth, q);
    } else {
      InsertLookup(Built(init, includeDependencies, maxDepth), parts, 0, last, includeDependencies, maxDepth, q);
      if Lookup(Built(init, includeDependencies, maxDepth), q).None? {
        assert parts[0..0 + |q|] == q;
      }
    }
  }

  // ASCII outline (`_generate_tree_visual`)

  const LastBranch := "└── "
  const MidBranch := "├── "
  const Pipe := "│   "
  const Gap := "    "

  /** The type suffix: omitted for folders and for a missing or empty type. */
  function TypeInfo(n: Node): (r: string)
    ensures r == "" <==> n.kind.None? || n.kind.value == "" || n.kind.value == "folder"
  {
    if n.kind.Some? && n.kind.value != "" && n.kind.value != "folder" then " (" + n.kind.value + ")" else ""
  }

  /** The dependency suffix: present exactly when the node has dependencies. */
  function DepInfo(n: Node): (r: string)
    ensures r == "" <==> n.dependencies == []
  {
    if n.dependencies != [] then " [deps: " + NatToString(|n.dependencies|) + "]" else ""
  }

  /** A node deeper than a `max_depth` is not drawn. */
  predicate Hidden(maxDepth: Option<int>, level: nat)
  {
    Limited(maxDepth) && level > maxDepth.value
  }

  /** The prefix `render_node` hands to the children of a node. */
  function ChildPrefix(prefix: string, isLast: bool, level: nat): string
  {
    if level > 0 then prefix + (if isLast then Gap else Pipe) else ""
  }

  /** The lines `render_node` appends for `n` and its sub-trie, in pre-order. */
  function Render(n: Node, prefix: string, isLast: bool, level: nat, maxDepth: Option<int>): seq<string>
    decreases n, 1
  {
    if Hidden(maxDepth, level) then []
    else
      var symbol := if level == 0 then "" else if isLast then LastBranch else MidBranch;
      [prefix + symbol + n.name + TypeInfo(n) + DepInfo(n)]
        + RenderChildren(n, |n.children|, ChildPrefix(prefix, isLast, level), level + 1, maxDepth)
  }

  /** The lines of the first `k` children of `n`; the last child of all is drawn as the last. */
  function RenderChildren(n: Node, k: nat, prefix: string, level: nat, maxDepth: Option<int>): seq<string>
    requires k <= |n.children|
    decreases n, 0, k
  {
    if k == 0 then []
    else
      RenderChildren(n, k - 1, prefix, level, maxDepth)
        + Render(n.children[k - 1], prefix, k == |n.children|, level, maxDepth)
  }

  /** `render_node`, appending to the shared list of lines. */
  method RenderNode(n: Node, prefix: string, isLast: bool, level: nat, maxDepth: Option<int>, lines: seq<string>)
    returns (out: seq<string>)
    ensures out == lines + Render(n, prefix, isLast, level, maxDepth)
    decreases n, 1
  {
    if Hidden(maxDepth, level) {
      return lines;
    }
    var symbol := if level == 0 then "" else if isLast then LastBranch else MidBranch;
    var line := prefix + symbol + n.name + TypeInfo(n) + DepInfo(n);
    var childPrefix := ChildPrefix(prefix, isLast, level);
    out := RenderChildNodes(n, childPrefix, level + 1, maxDepth, lines + [line]);
    RenderUnfold(n, prefix, isLast, level, maxDepth);
    ConcatAssociative(lines, [line], RenderChildren(n, |n.children|, childPrefix, level + 1, maxDepth));
  }

  method RenderChildNodes(n: Node, prefix: string, level: nat, maxDepth: Option<int>, lines: seq<string>)
    returns (out: seq<string>)
    ensures out == lines + RenderChildren(n, |n.children|, prefix, level, maxDepth)
    decreases n, 0
  {
    out := lines;
    var i := 0;
    while i < |n.children|
      invariant i <= |n.children|
      invariant out == lines + RenderChildren(n, i, prefix, level, maxDepth)
    {
      ghost var before := out;
      out := RenderNode(n.children[i], prefix, i == |n.children| - 1, level, maxDepth, out);
      RenderChildrenStep(n, i, prefix, level, maxDepth);
      ConcatAssociative(lines, RenderChildren(n, i, prefix, level, maxDepth), Render(n.children[i], prefix, i == |n.children| - 1, level, maxDepth));
      i := i + 1;
    }
  }

  lemma RenderUnfold(n: Node, prefix: string, isLast: bool, level: nat, maxDepth: Option<int>)
    requires !Hidden(maxDepth, level)
    ensures Render(n, prefix, isLast, level, maxDepth)
      == [prefix + (if level == 0 then "" else if isLast then LastBranch else MidBranch) + n.name + TypeInfo(n) + DepInfo(n)]
         + RenderChildren(n, |n.children|, ChildPrefix(prefix, isLast, level), level + 1, maxDepth)
  {
  }

  lemma RenderChildrenStep(n: Node, i: nat, prefix: string, level: nat, maxDepth: Option<int>)
    requires i < |n.children|
    ensures RenderChildren(n, i + 1, prefix, level, maxDepth)
      == RenderChildren(n, i, prefix, level, maxDepth) + Render(n.children[i], prefix, i == |n.children| - 1, level, maxDepth)
  {
  }

  /** `_generate_tree_visual`. */
  method GenerateTreeVisual(tree: Node, maxDepth: Option<int>) returns (lines: seq<string>)
    ensures lines == Render(tree, "", true, 0, maxDepth)
  {
    lines := RenderNode(tree, "", true, 0, maxDepth, []);
  }

  /** The number of nodes of the sub-trie at `level` that are not below `maxDepth`. */
  function Visible(n: Node, level: nat, maxDepth: Option<int>): nat
    decreases n, 1
  {
    if Hidden(maxDepth, level) then 0 else 1 + VisibleChildren(n, |n.children|, level + 1, maxDepth)
  }

  function VisibleChildren(n: Node, k: nat, level: nat, maxDepth: Option<int>): nat
    requires k <= |n.children|
    decreases n, 0, k
  {
    if k == 0 then 0 else VisibleChildren(n, k - 1, level, maxDepth) + Visible(n.children[k - 1], level, maxDepth)
  }

  /** One line per node that is not deeper than `maxDepth`, whatever the prefixes. */
  lemma {:induction false} RenderCount(n: Node, prefix: string, isLast: bool, level: nat, maxDepth: Option<int>)
    ensures |Render(n, prefix, isLast, level, maxDepth)| == Visible(n, level, maxDepth)
    decreases n, 1
  {
    if !Hidden(maxDepth, level) {
      RenderChildrenCount(n, |n.children|, ChildPrefix(prefix, isLast, level), level + 1, maxDepth);
    }
  }

  lemma {:induction false} RenderChildrenCount(n: Node, k: nat, prefix: string, level: nat, maxDepth: Option<int>)
    requires k <= |n.children|
    ensures |RenderChildren(n, k, prefix, level, maxDepth)| == VisibleChildren(n, k, level, maxDepth)
    decreases n, 0, k
  {
    if k > 0 {
      var j := k - 1;
      RenderChildrenCount(n, j, prefix, level, maxDepth);
      RenderCount(n.children[j], prefix, j == |n.children| - 1, level, maxDepth);
      RenderChildrenStep(n, j, prefix, level, maxDepth);
      CountStep(RenderChildren(n, j, prefix, level, maxDepth), Render(n.children[j], prefix, j == |n.children| - 1, level, maxDepth),
                RenderChildren(n, j + 1, prefix, level, maxDepth));
    }
  }

  lemma CountStep(a: seq<string>, b: seq<string>, c: seq<string>)
    requires c == a + b
    ensures |c| == |a| + |b|
  {
  }

  /** Below the root, every line of a sub-trie starts with the prefix it was handed. */
  lemma {:induction false} RenderKeepsPrefix(n: Node, prefix: string, isLast: bool, level: nat, maxDepth: Option<int>)
    requires level > 0
    ensures forall j :: 0 <= j < |Render(n, prefix, isLast, level, maxDepth)| ==>
      prefix <= Render(n, prefix, isLast, level, maxDepth)[j]
    decreases n, 1
  {
    if !Hidden(maxDepth, level) {
      var cp := ChildPrefix(prefix, isLast, level);
      RenderChildrenKeepPrefix(n, |n.children|, cp, level + 1, maxDepth);
      var symbol := if isLast then LastBranch else MidBranch;
      var head := prefix + symbol + n.name + TypeInfo(n) + DepInfo(n);
      assert head == prefix + (symbol + n.name + TypeInfo(n) + DepInfo(n));
      assert prefix <= cp;
    }
  }

  lemma {:induction false} RenderChildrenKeepPrefix(n: Node, k: nat, prefix: string, level: nat, maxDepth: Option<int>)
    requires k <= |n.children| && level > 0
    ensures forall j :: 0 <= j < |RenderChildren(n, k, prefix, level, maxDepth)| ==>
      prefix <= RenderChildren(n, k, prefix, level, maxDepth)[j]
    decreases n, 0, k
  {
    if k > 0 {
      var j := k - 1;
      RenderChildrenKeepPrefix(n, j, prefix, level, maxDepth);
      RenderKeepsPrefix(n.children[j], prefix, j == |n.children| - 1, level, maxDepth);
      RenderChildrenStep(n, j, prefix, level, maxDepth);
      ConcatKeepsPrefix(RenderChildren(n, j, prefix, level, maxDepth),
                        Render(n.children[j], prefix, j == |n.children| - 1, level, maxDepth), prefix);
    }
  }

  lemma ConcatKeepsPrefix(a: seq<string>, b: seq<string>, prefix: string)
    requires forall j :: 0 <= j < |a| ==> prefix <= a[j]
    requires forall j :: 0 <= j < |b| ==> prefix <= b[j]
    ensures forall j :: 0 <= j < |a + b| ==> prefix <= (a + b)[j]
  {
    forall j | 0 <= j < |a + b|
      ensures prefix <= (a + b)[j]
    {
      if j >= |a| {
        assert (a + b)[j] == b[j - |a|];
      }
    }
  }

  /**
   * The outline of a built tree opens with the root line, unless a negative
   * `max_depth` hides even the root and the outline is empty.
   */
  lemma RootLine(resources: seq<Found>, includeDependencies: bool, maxDepth: Option<int>)
    ensures var lines := Render(Built(resources, includeDependencies, maxDepth), "", true, 0, maxDepth);
      && (lines == [] <==> maxDepth.Some? && maxDepth.value < 0)
      && (lines != [] ==> lines[0] == "Infrastructure (root)")
  {
    BuiltRoot(resources, includeDependencies, maxDepth);
    RootLineOf(Built(resources, includeDependencies, maxDepth), maxDepth);
  }

  lemma RootLineOf(t: Node, maxDepth: Option<int>)
    requires Bare(t) == Root
    ensures var lines := Render(t, "", true, 0, maxDepth);
      && (lines == [] <==> maxDepth.Some? && maxDepth.value < 0)
      && (lines != [] ==> lines[0] == "Infrastructure (root)")
  {
    assert t.name == "Infrastructure" && t.kind == Some("root") && t.dependencies == [];
    assert TypeInfo(t) == " (root)";
    assert "" + "" + t.name + TypeInfo(t) + DepInfo(t) == "Infrastructure (root)";
  }

  // Dependency list (`_generate_dag_visual`)

  /** The path `collect_dependencies` gives a node below the path of its parent. */
  function NodePath(path: string, n: Node): string
  {
    if path != "" then path + "/" + n.name else n.name
  }

  function EdgeLines(deps: seq<string>, path: string): (r: seq<string>)
    ensures |r| == |deps|
  {
    seq(|deps|, j requires 0 <= j < |deps| => deps[j] + " -> " + path)
  }

  /** The `dep -> path` entries of `n` and its sub-trie, in pre-order. */
  function Edges(n: Node, path: string): seq<string>
    decreases n, 1
  {
    var current := NodePath(path, n);
    EdgeLines(n.dependencies, current) + ChildEdges(n, |n.children|, current)
  }

  function ChildEdges(n: Node, k: nat, path: string): seq<string>
    requires k <= |n.children|
    decreases n, 0, k
  {
    if k == 0 then [] else ChildEdges(n, k - 1, path) + Edges(n.children[k - 1], path)
  }

  /** The flat listing of a tree's dependency entries. */
  function DagVisual(tree: Node): seq<string>
  {
    var edges := Edges(tree, "");
    if edges != [] then ["Dependency Graph:", Repeat("=", 50)] + Indented(edges)
    else ["No dependencies found"]
  }

  /** Each entry indented by two spaces. */
  function Indented(edges: seq<string>): (r: seq<string>)
    ensures |r| == |edges| && forall j :: 0 <= j < |edges| ==> r[j] == "  " + edges[j]
  {
    seq(|edges|, j requires 0 <= j < |edges| => "  " + edges[j])
  }

  /** `collect_dependencies`, appending to the shared list of entries. */
  method CollectDependencies(n: Node, path: string, edges: seq<string>) returns (out: seq<string>)
    ensures out == edges + Edges(n, path)
    decreases n, 1
  {
    var current := NodePath(path, n);
    out := AppendEdgeLines(edges, n.dependencies, current);
    var i := 0;
    while i < |n.children|
      invariant i <= |n.children|
      invariant out == edges + EdgeLines(n.dependencies, current) + ChildEdges(n, i, current)
    {
      ghost var before := out;
      out := CollectDependencies(n.children[i], current, out);
      ChildEdgesStep(n, i, current);
      ConcatAssociative(edges + EdgeLines(n.dependencies, current), ChildEdges(n, i, current), Edges(n.children[i], current));
      i := i + 1;
    }
  }

  lemma ChildEdgesStep(n: Node, i: nat, path: string)
    requires i < |n.children|
    ensures ChildEdges(n, i + 1, path) == ChildEdges(n, i, path) + Edges(n.children[i], path)
  {
  }

  /** The loop appending a `dep -> path` entry for each dependency of one node. */
  method AppendEdgeLines(edges: seq<string>, deps: seq<string>, path: string) returns (out: seq<string>)
    ensures out == edges + EdgeLines(deps, path)
  {
    out := edges;
    var j := 0;
    while j < |deps|
      invariant j <= |deps|
      invariant out == edges + EdgeLines(deps[..j], path)
    {
      assert EdgeLines(deps[..j + 1], path) == EdgeLines(deps[..j], path) + [deps[j] + " -> " + path];
      out := out + [deps[j] + " -> " + path];
      j := j + 1;
    }
    assert deps[..j] == deps;
  }

  /** `_generate_dag_visual`. */
  method GenerateDagVisual(tree: Node) returns (lines: seq<string>)
    ensures lines == DagVisual(tree)
  {
    var edges := CollectDependencies(tree, "", []);
    if edges != [] {
      lines := IndentEdges(["Dependency Graph:", Repeat("=", 50)], edges);
    } else {
      lines := ["No dependencies found"];
    }
  }

  /** The loop appending each entry, indented, to the heading lines. */
  method IndentEdges(heading: seq<string>, edges: seq<string>) returns (lines: seq<string>)
    ensures lines == heading + Indented(edges)
  {
    lines := heading;
    var i := 0;
    while i < |edges|
      invariant i <= |edges| && |lines| == |heading| + i && lines[..|heading|] == heading
      invariant forall j :: 0 <= j < i ==> lines[|heading| + j] == "  " + edges[j]
    {
      lines := lines + ["  " + edges[i]];
      i := i + 1;
    }
    assert lines == heading + Indented(edges);
  }

  /** No node of the sub-trie has a dependency. */
  predicate DependencyFree(n: Node)
    decreases n
  {
    n.dependencies == [] && forall k :: 0 <= k < |n.children| ==> DependencyFree(n.children[k])
  }

  lemma {:induction false} FreeNoEdges(n: Node, path: string)
    requires DependencyFree(n)
    ensures Edges(n, path) == []
    decreases n, 1
  {
    FreeChildrenNoEdges(n, |n.children|, NodePath(path, n));
  }

  lemma {:induction false} FreeChildrenNoEdges(n: Node, k: nat, path: string)
    requires k <= |n.children| && DependencyFree(n)
    ensures ChildEdges(n, k, path) == []
    decreases n, 0, k
  {
    if k > 0 {
      FreeChildrenNoEdges(n, k - 1, path);
      FreeNoEdges(n.children[k - 1], path);
    }
  }

  /** Inserting a resource that brings no dependencies keeps a tree free of them. */
  lemma {:induction false} InsertKeepsFree(n: Node, parts: seq<string>, i: nat, resource: Found,
                                           includeDependencies: bool, maxDepth: Option<int>)
    requires i <= |parts| && DependencyFree(n)
    requires !includeDependencies || resource.dependencies == []
    ensures DependencyFree(Insert(n, parts, i, resource, includeDependencies, maxDepth))
    decreases |parts| - i
  {
    if i < |parts| && !Stops(maxDepth, i) {
      var r := Insert(n, parts, i, resource, includeDependencies, maxDepth);
      var k := ChildIndex(n.children, parts[i], 0);
      if k == |n.children| {
        var created := NewNode(parts, i, resource, includeDependencies);
        InsertKeepsFree(created, parts, i + 1, resource, includeDependencies, maxDepth);
        assert r.children == n.children + [Insert(created, parts, i + 1, resource, includeDependencies, maxDepth)];
      } else {
        InsertKeepsFree(n.children[k], parts, i + 1, resource, includeDependencies, maxDepth);
        assert r.children == n.children[k := Insert(n.children[k], parts, i + 1, resource, includeDependencies, maxDepth)];
      }
    }
  }

  /** Built without dependencies, or from listed resources, a tree has no dependency entries. */
  lemma {:induction false} BuiltFree(resources: seq<Found>, includeDependencies: bool, maxDepth: Option<int>)
    requires !includeDependencies || forall k :: 0 <= k < |resources| ==> resources[k].dependencies == []
    ensures DependencyFree(Built(resources, includeDependencies, maxDepth))
  {
    if resources != [] {
      var init := resources[..|resources| - 1];
      assert forall k :: 0 <= k < |init| ==> init[k] == resources[k];
      BuiltFree(init, includeDependencies, maxDepth);
      var last := resources[|resources| - 1];
      InsertKeepsFree(Built(init, includeDependencies, maxDepth), Split(last.path, '/'), 0, last,
                      includeDependencies, maxDepth);
    }
  }

  lemma {:induction false} FoundAllFree(lines: seq<string>)
    ensures forall k :: 0 <= k < |FoundAll(lines)| ==> FoundAll(lines)[k].dependencies == []
  {
    if lines != [] {
      FoundAllFree(lines[..|lines| - 1]);
    }
  }

  /**
   * The dependency view of a tree built without dependencies, or from the
   * text output of `terragrunt find` (whose resources never carry any), is
   * always the single line "No dependencies found".
   */
  lemma NoDependenciesFound(output: string, resources: seq<Found>, includeDependencies: bool, maxDepth: Option<int>)
    requires !includeDependencies || resources == FoundAll(FindLines(output))
    ensures DagVisual(Built(resources, includeDependencies, maxDepth)) == ["No dependencies found"]
  {
    if includeDependencies {
      FoundAllFree(FindLines(output));
    }
    BuiltFree(resources, includeDependencies, maxDepth);
    FreeNoEdges(Built(resources, includeDependencies, maxDepth), "");
  }
}
