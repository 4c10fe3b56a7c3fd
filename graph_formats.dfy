/**
 * The dependency-graph converters of `get_dependency_graph`: the `a -> b`
 * lines of `terragrunt dag graph` output read as edges, and the DOT and
 * Mermaid texts written from them. The environment filter only thins the
 * emitted text; the edge list and node set handed back are unfiltered.
 */
module GraphFormats {
  import opened Wrappers
  import opened Strings

  type Edge = (string, string)

  const Arrow := "->"

  /** The edge a line names: its stripped text read by `SplitEdge`. */
  function EdgeOf(line: string): Option<Edge>
  {
    SplitEdge(Strip(line))
  }

  /**
   * The text contains "->" and splitting at it gives exactly two sides,
   * which are stripped in turn.
   */
  function SplitEdge(l: string): Option<Edge>
  {
    if !Contains(l, Arrow) then None
    else
      var parts := SplitStr(l, Arrow);
      if |parts| == 2 then Some((Strip(parts[0]), Strip(parts[1]))) else None
  }

  /** "->" cannot overlap itself: two occurrences are at least two characters apart. */
  lemma ArrowsApart(s: string, i: nat, j: nat)
    requires OccursAt(s, Arrow, i) && OccursAt(s, Arrow, j) && i < j
    ensures i + 2 <= j
  {
    assert s[i + 1] == '>' && s[j] == '-';
  }

  lemma OccursShift(s: string, i: nat, j: nat)
    requires i + |Arrow| <= j && i + |Arrow| <= |s|
    ensures OccursAt(s, Arrow, j) <==> OccursAt(s[i + |Arrow|..], Arrow, j - i - |Arrow|)
  {
    if j + 2 <= |s| {
      assert s[i + 2..][j - i - 2..j - i] == s[j..j + 2];
    }
  }

  /** Splitting at the first "->" gives two sides exactly when no other "->" follows it. */
  lemma TwoParts(l: string, i: nat)
    requires FindFrom(l, Arrow, 0) == Some(i)
    ensures |SplitStr(l, Arrow)| == 2 <==> !Contains(l[i + 2..], Arrow)
    ensures |SplitStr(l, Arrow)| == 2 ==> SplitStr(l, Arrow) == [l[..i], l[i + 2..]]
  {
    assert SplitStr(l, Arrow) == [l[..i]] + SplitStr(l[i + 2..], Arrow);
    SplitStrSingle(l[i + 2..], Arrow);
  }

  /** After the first "->", another one follows exactly when "->" occurs anywhere else. */
  lemma AnotherArrow(l: string, i: nat)
    requires FindFrom(l, Arrow, 0) == Some(i)
    ensures Contains(l[i + 2..], Arrow) <==> exists j: nat :: OccursAt(l, Arrow, j) && j != i
  {
    var tail := l[i + 2..];
    if Contains(tail, Arrow) {
      var t := ContainsOnlyAt(tail, Arrow);
      OccursShift(l, i, i + 2 + t);
    }
    forall j: nat | OccursAt(l, Arrow, j) && j != i
      ensures Contains(tail, Arrow)
    {
      ArrowsApart(l, i, j);
      OccursShift(l, i, j);
      ContainsAt(tail, Arrow, j - i - 2);
    }
  }

  /**
   * A text yields an edge exactly when "->" occurs in it exactly once, and
   * the edge's ends are then the stripped text on either side of it.
   */
  lemma SplitEdgeOneArrow(l: string)
    ensures SplitEdge(l).Some? <==> exists i: nat :: OccursAt(l, Arrow, i) && forall j: nat :: OccursAt(l, Arrow, j) ==> j == i
    ensures forall i: nat :: OccursAt(l, Arrow, i) && SplitEdge(l).Some? ==>
      SplitEdge(l).value == (Strip(l[..i]), Strip(l[i + 2..]))
  {
    var first := FindFrom(l, Arrow, 0);
    if first.Some? {
      var i := first.value;
      TwoParts(l, i);
      AnotherArrow(l, i);
    }
  }

  /** The same for a whole line, which is stripped first. */
  lemma EdgeIffOneArrow(line: string)
    ensures var l := Strip(line);
      EdgeOf(line).Some? <==> exists i: nat :: OccursAt(l, Arrow, i) && forall j: nat :: OccursAt(l, Arrow, j) ==> j == i
    ensures var l := Strip(line);
      forall i: nat :: OccursAt(l, Arrow, i) && EdgeOf(line).Some? ==>
        EdgeOf(line).value == (Strip(l[..i]), Strip(l[i + 2..]))
  {
    SplitEdgeOneArrow(Strip(line));
  }

  function OutputLines(output: string): seq<string>
  {
    Split(output, '\n')
  }

  /** The edges of one line, as a list of at most one. */
  function EdgeIn(line: string): seq<Edge>
  {
    var e := EdgeOf(line);
    if e.Some? then [e.value] else []
  }

  /** The edges the lines name, in order, duplicates kept. */
  function Edges(lines: seq<string>): (r: seq<Edge>)
    ensures |r| <= |lines|
  {
    if lines == [] then []
    else Edges(lines[..|lines| - 1]) + EdgeIn(lines[|lines| - 1])
  }

  /** Each line contributes its own edges: the edge list of a text is that of its lines, concatenated. */
  lemma {:induction false} EdgesAppend(a: seq<string>, b: seq<string>)
    ensures Edges(a + b) == Edges(a) + Edges(b)
    decreases |b|
  {
    if b != [] {
      var init := b[..|b| - 1];
      assert (a + b)[..|a + b| - 1] == a + init;
      EdgesAppend(a, init);
    } else {
      assert a + b == a;
    }
  }

  lemma EdgesOfLine(line: string)
    ensures Edges([line]) == EdgeIn(line)
  {
    assert [line][..0] == [];
  }

  /** Both ends of every edge. */
  function Endpoints(edges: seq<Edge>): set<string>
  {
    if edges == [] then {}
    else
      var last := edges[|edges| - 1];
      Endpoints(edges[..|edges| - 1]) + {last.0, last.1}
  }

  /** The node set holds exactly the ends of the edges. */
  lemma {:induction false} EndpointsMembers(edges: seq<Edge>, x: string)
    ensures x in Endpoints(edges) <==> exists k :: 0 <= k < |edges| && (x == edges[k].0 || x == edges[k].1)
  {
    if edges != [] {
      var init := edges[..|edges| - 1];
      EndpointsMembers(init, x);
      assert forall k :: 0 <= k < |init| ==> init[k] == edges[k];
    }
  }

  lemma EndpointsSnoc(edges: seq<Edge>, e: Edge)
    ensures Endpoints(edges + [e]) == Endpoints(edges) + {e.0, e.1}
  {
    assert (edges + [e])[..|edges|] == edges;
  }

  lemma EdgesStep(lines: seq<string>, i: nat)
    requires i < |lines|
    ensures Edges(lines[..i + 1]) == Edges(lines[..i]) + EdgeIn(lines[i])
  {
    assert lines[..i + 1][..i] == lines[..i];
  }

  /** The loop shared by both converters: the edges in order and the set of their ends. */
  method ScrapeEdges(lines: seq<string>) returns (edges: seq<Edge>, resources: set<string>)
    ensures edges == Edges(lines)
    ensures resources == Endpoints(edges)
  {
    edges := [];
    resources := {};
    var i := 0;
    while i < |lines|
      invariant i <= |lines|
      invariant edges == Edges(lines[..i])
      invariant resources == Endpoints(edges)
    {
      EdgesStep(lines, i);
      edges, resources := AddEdge(edges, resources, lines[i]);
      i := i + 1;
    }
    assert lines[..i] == lines;
  }

  /** The body of the loop: one line's edge, if any, and its two ends. */
  method AddEdge(edges: seq<Edge>, resources: set<string>, line: string) returns (edges': seq<Edge>, resources': set<string>)
    requires resources == Endpoints(edges)
    ensures edges' == edges + EdgeIn(line)
    ensures resources' == Endpoints(edges')
  {
    var found := EdgeOf(line);
    if found.Some? {
      EndpointsSnoc(edges, found.value);
      edges' := edges + [found.value];
      resources' := resources + {found.value.0, found.value.1};
    } else {
      assert edges + EdgeIn(line) == edges;
      edges', resources' := edges, resources;
    }
  }

  /** A DOT or Mermaid identifier: '/' and '-' become '_'. */
  function NodeId(s: string): (r: string)
    ensures |r| == |s|
    ensures '/' !in r && '-' !in r
    ensures forall k :: 0 <= k < |s| ==> r[k] == if s[k] == '/' || s[k] == '-' then '_' else s[k]
  {
    ReplaceChar(ReplaceChar(s, '/', '_'), '-', '_')
  }

  /** The display label: the last '/'-separated piece, or the whole name. */
  function Label(s: string): (r: string)
    ensures '/' !in r
    ensures |r| <= |s| && r == s[|s| - |r|..]
  {
    if '/' in s then
      var pieces := Split(s, '/');
      SplitThenJoin(s, '/');
      JoinEndsWithLast(pieces, "/");
      pieces[|pieces| - 1]
    else s
  }

  /** `if environment and environment not in x`: an empty or missing filter keeps everything. */
  predicate Kept(environment: Option<string>, s: string)
  {
    !Truthy(environment) || Contains(s, environment.value)
  }

  function NameFilter(environment: Option<string>): string -> bool
  {
    (s: string) => Kept(environment, s)
  }

  /** An edge is drawn when both of its ends are kept. */
  function EdgeFilter(environment: Option<string>): Edge -> bool
  {
    (e: Edge) => Kept(environment, e.0) && Kept(environment, e.1)
  }

  /** The elements `keep` accepts, in order. */
  function Filter<T(!new)>(xs: seq<T>, keep: T -> bool): (r: seq<T>)
    ensures |r| <= |xs|
  {
    if xs == [] then []
    else Filter(xs[..|xs| - 1], keep) + (if keep(xs[|xs| - 1]) then [xs[|xs| - 1]] else [])
  }

  /** An element is in the filtered list exactly when it is in the list and `keep` accepts it. */
  lemma {:induction false} FilterMembers<T(!new)>(xs: seq<T>, keep: T -> bool, x: T)
    ensures x in Filter(xs, keep) <==> x in xs && keep(x)
  {
    if xs != [] {
      var init := xs[..|xs| - 1];
      FilterMembers(init, keep, x);
      assert xs == init + [xs[|xs| - 1]];
    }
  }

  lemma FilterStep<T(!new)>(xs: seq<T>, i: nat, keep: T -> bool)
    requires i < |xs|
    ensures Filter(xs[..i + 1], keep) == Filter(xs[..i], keep) + (if keep(xs[i]) then [xs[i]] else [])
  {
    assert xs[..i + 1][..i] == xs[..i];
  }

  /** A filter that keeps every element keeps the list as it is. */
  lemma {:induction false} FilterAll<T(!new)>(xs: seq<T>, keep: T -> bool)
    requires forall k :: 0 <= k < |xs| ==> keep(xs[k])
    ensures Filter(xs, keep) == xs
  {
    if xs != [] {
      var last := xs[|xs| - 1];
      var init := xs[..|xs| - 1];
      assert keep(last);
      assert forall k :: 0 <= k < |init| ==> init[k] == xs[k];
      FilterAll(init, keep);
      assert Filter(xs, keep) == init + [last];
      assert init + [last] == xs;
    }
  }

  /** One text line per element. */
  function Render<T>(xs: seq<T>, line: T -> string): (r: seq<string>)
    ensures |r| == |xs| && forall k :: 0 <= k < |xs| ==> r[k] == line(xs[k])
  {
    seq(|xs|, k requires 0 <= k < |xs| => line(xs[k]))
  }

  lemma RenderSnoc<T>(xs: seq<T>, x: T, line: T -> string)
    ensures Render(xs + [x], line) == Render(xs, line) + [line(x)]
  {
  }

  /** The loop that appends a line for each element the filter keeps. */
  method WriteKept<T(!new)>(xs: seq<T>, keep: T -> bool, line: T -> string, lines: seq<string>) returns (out: seq<string>)
    ensures out == lines + Render(Filter(xs, keep), line)
  {
    out := lines;
    var i := 0;
    while i < |xs|
      invariant i <= |xs|
      invariant out == lines + Render(Filter(xs[..i], keep), line)
    {
      FilterStep(xs, i, keep);
      if keep(xs[i]) {
        RenderSnoc(Filter(xs[..i], keep), xs[i], line);
        ConcatAssociative(lines, Render(Filter(xs[..i], keep), line), [line(xs[i])]);
        out := out + [line(xs[i])];
      } else {
        assert Filter(xs[..i] , keep) + [] == Filter(xs[..i], keep);
      }
      i := i + 1;
    }
    assert xs[..i] == xs;
  }

  /** What a converter hands back: the text, the unfiltered nodes in set order, and the unfiltered edges. */
  datatype Converted = Converted(content: string, nodes: seq<string>, edges: seq<Edge>)

  /**
   * `list(resources)`: Python iterates a set of strings in an order fixed by
   * string hashing, which the model takes as a parameter; `order` lists the
   * set once each.
   */
  predicate Enumerates(order: seq<string>, s: set<string>)
  {
    (forall x :: x in order ==> x in s) && (forall x :: x in s ==> x in order)
    && forall i, j :: 0 <= i < j < |order| ==> order[i] != order[j]
  }

  // DOT

  const DotHeader: seq<string> := ["digraph terragrunt_dependencies {", "  rankdir=TB;", "  node [shape=box, style=rounded];"]

  function DotNode(r: string): string
  {
    "  " + NodeId(r) + " [label=\"" + Label(r) + "\"];"
  }

  function DotEdge(e: Edge): string
  {
    "  " + NodeId(e.0) + " -> " + NodeId(e.1) + ";"
  }

  /** The DOT text: header, a node line per kept name, an edge line per kept edge, closing brace. */
  function DotLines(order: seq<string>, edges: seq<Edge>, environment: Option<string>): seq<string>
  {
    DotHeader + Render(Filter(order, NameFilter(environment)), DotNode)
      + Render(Filter(edges, EdgeFilter(environment)), DotEdge) + ["}"]
  }

  /** `_convert_to_dot_format`, with the set's iteration order given. */
  method ConvertToDot(output: string, environment: Option<string>, order: seq<string>) returns (r: Converted)
    requires Enumerates(order, Endpoints(Edges(OutputLines(output))))
    ensures r.edges == Edges(OutputLines(output))
    ensures r.nodes == order
    ensures r.content == Join(DotLines(order, r.edges, environment), "\n")
  {
    var edges, resources := ScrapeEdges(OutputLines(output));
    var lines := WriteKept(order, NameFilter(environment), DotNode, DotHeader);
    lines := WriteKept(edges, EdgeFilter(environment), DotEdge, lines);
    lines := lines + ["}"];
    r := Converted(Join(lines, "\n"), order, edges);
  }

  // Mermaid

  function MermaidEdge(e: Edge): string
  {
    "  " + NodeId(e.0) + "[" + Label(e.0) + "] --> " + NodeId(e.1) + "[" + Label(e.1) + "]"
  }

  /** The Mermaid text: the graph header and a line per kept edge. */
  function MermaidLines(edges: seq<Edge>, environment: Option<string>): seq<string>
  {
    ["graph TD"] + Render(Filter(edges, EdgeFilter(environment)), MermaidEdge)
  }

  /** `_convert_to_mermaid_format`, with the set's iteration order given. */
  method ConvertToMermaid(output: string, environment: Option<string>, order: seq<string>) returns (r: Converted)
    requires Enumerates(order, Endpoints(Edges(OutputLines(output))))
    ensures r.edges == Edges(OutputLines(output))
    ensures r.nodes == order
    ensures r.content == Join(MermaidLines(r.edges, environment), "\n")
  {
    var edges, resources := ScrapeEdges(OutputLines(output));
    var lines := WriteKept(edges, EdgeFilter(environment), MermaidEdge, ["graph TD"]);
    r := Converted(Join(lines, "\n"), order, edges);
  }

  /** Without a filter, the DOT text has a node line per node and an edge line per edge. */
  lemma UnfilteredDot(order: seq<string>, edges: seq<Edge>)
    ensures |DotLines(order, edges, None)| == |order| + |edges| + 4
  {
    UnfilteredNames(order);
    UnfilteredEdges(edges);
  }

  lemma UnfilteredNames(order: seq<string>)
    ensures Filter(order, NameFilter(None)) == order
  {
    var keep := NameFilter(None);
    assert forall k :: 0 <= k < |order| ==> keep(order[k]);
    FilterAll(order, keep);
  }

  lemma UnfilteredEdges(edges: seq<Edge>)
    ensures Filter(edges, EdgeFilter(None)) == edges
  {
    var keep := EdgeFilter(None);
    assert forall k :: 0 <= k < |edges| ==> keep(edges[k]);
    FilterAll(edges, keep);
  }

  /** Without a filter, the Mermaid text has a line per edge, in the edges' order. */
  lemma UnfilteredMermaid(edges: seq<Edge>)
    ensures var lines := MermaidLines(edges, None);
      |lines| == |edges| + 1 && forall k :: 0 <= k < |edges| ==> lines[k + 1] == MermaidEdge(edges[k])
  {
    UnfilteredEdges(edges);
    var rendered := Render(edges, MermaidEdge);
    assert MermaidLines(edges, None) == ["graph TD"] + rendered;
    assert forall k :: 0 <= k < |edges| ==> (["graph TD"] + rendered)[k + 1] == rendered[k];
  }
}
