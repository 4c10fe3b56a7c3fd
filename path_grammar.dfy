/**
 * The fixed repository layout
 *   live/<account>/<environment>/<project>[/<region>]/<resource_type>[/<name>[/<sub>]]
 * and the functions that take such a path apart and put it together again.
 */
module PathGrammar {
  import opened Wrappers
  import opened Strings

  /** The regions a fifth path segment is recognised as. */
  const Regions: seq<string> := ["europe-west2", "us-central1", "us-east1", "asia-southeast1"]

  datatype PathComponents = PathComponents(
    account: Option<string>,
    environment: Option<string>,
    project: Option<string>,
    region: Option<string>,
    resourceType: Option<string>,
    resourceName: Option<string>)

  const NoComponents := PathComponents(None, None, None, None, None, None)

  /** Drops the empty and "." pieces of a path split at '/'. */
  function Segments(pieces: seq<string>): (r: seq<string>)
    ensures forall k :: 0 <= k < |r| ==> r[k] != "" && r[k] != "."
  {
    if pieces == [] then []
    else (if pieces[0] == "" || pieces[0] == "." then [] else [pieces[0]]) + Segments(pieces[1..])
  }

  /** `pathlib.PurePosixPath(path).parts`: the anchor ("/" or "//") followed by the named segments. */
  function PathParts(path: string): seq<string>
  {
    var anchor := if "//" <= path && !("///" <= path) then ["//"] else if "/" <= path then ["/"] else [];
    anchor + Segments(Split(path, '/'))
  }

  /** `parse_terragrunt_path`. */
  function ParsePath(path: string): (c: PathComponents)
    ensures var parts := PathParts(path);
      (c.account.Some? <==> |parts| >= 4 && parts[0] == "live")
      && (c.account.None? ==> c == NoComponents)
      && (c.account.Some? ==> c.account == Some(parts[1]) && c.environment == Some(parts[2]) && c.project == Some(parts[3]))
      && (c.account.Some? ==> (c.region.Some? <==> |parts| >= 5 && parts[4] in Regions))
      && (c.region.Some? ==> c.region == Some(parts[4]) && c.resourceType.None? == (|parts| == 5))
      && (c.resourceName.Some? ==> c.resourceType.Some?)
  {
    ParseParts(PathParts(path))
  }

  /** `parse_terragrunt_path` once the path is taken apart. */
  function ParseParts(parts: seq<string>): (c: PathComponents)
    ensures (c.account.Some? <==> |parts| >= 4 && parts[0] == "live")
      && (c.account.None? ==> c == NoComponents)
      && (c.account.Some? ==> c.account == Some(parts[1]) && c.environment == Some(parts[2]) && c.project == Some(parts[3]))
      && (c.account.Some? ==> (c.region.Some? <==> |parts| >= 5 && parts[4] in Regions))
      && (c.region.Some? ==> c.region == Some(parts[4]) && c.resourceType.None? == (|parts| == 5))
      && (c.resourceName.Some? ==> c.resourceType.Some?)
  {
    if |parts| < 4 || parts[0] != "live" then NoComponents
    else
      var hasRegion := |parts| >= 5 && parts[4] in Regions;
      var t := if hasRegion then 5 else 4;
      PathComponents(
        Some(parts[1]), Some(parts[2]), Some(parts[3]),
        if hasRegion then Some(parts[4]) else None,
        if |parts| > t then Some(parts[t]) else None,
        if |parts| > t + 2 then Some(parts[t + 1] + "/" + parts[t + 2])
        else if |parts| == t + 2 then Some(parts[t + 1])
        else None)
  }

  /** The index of the resource type segment of a layout path. */
  function TypeIndex(parts: seq<string>): (t: nat)
    ensures t == 4 || t == 5
    ensures t == 5 <==> |parts| >= 5 && parts[4] in Regions
  {
    if |parts| >= 5 && parts[4] in Regions then 5 else 4
  }

  /**
   * Everything after the second name segment is ignored: a layout path parses
   * as its first TypeIndex + 3 parts do.
   */
  lemma ParseDropsDeeper(parts: seq<string>)
    requires |parts| >= 4 && parts[0] == "live"
    requires |parts| > TypeIndex(parts) + 3
    ensures TypeIndex(parts[..TypeIndex(parts) + 3]) == TypeIndex(parts)
    ensures ParseParts(parts) == ParseParts(parts[..TypeIndex(parts) + 3])
  {
  }

  /** `build_terragrunt_path`: an empty region or name counts as absent. */
  function BuildPath(account: string, environment: string, project: string, resourceType: string,
                     region: Option<string>, resourceName: Option<string>): string
  {
    Join(["live", account, environment, project]
         + (if Truthy(region) then [region.value] else [])
         + [resourceType]
         + (if Truthy(resourceName) then [resourceName.value] else []), "/")
  }

  /** A single path segment as the layout uses it. */
  predicate Segment(s: string)
  {
    s != "" && s != "." && '/' !in s
  }

  predicate AllSegments(segs: seq<string>)
  {
    forall k :: 0 <= k < |segs| ==> Segment(segs[k])
  }

  /** The resource name formed from zero, one or two segments. */
  function NameOf(nameSegs: seq<string>): Option<string>
    requires |nameSegs| <= 2
  {
    if |nameSegs| == 0 then None
    else if |nameSegs| == 1 then Some(nameSegs[0])
    else Some(nameSegs[0] + "/" + nameSegs[1])
  }

  lemma {:induction false} SegmentsOfSegments(segs: seq<string>)
    requires AllSegments(segs)
    ensures Segments(segs) == segs
  {
    if segs != [] {
      SegmentsOfSegments(segs[1..]);
      assert segs == [segs[0]] + segs[1..];
    }
  }

  /** Joining well-formed segments with '/' and splitting again gives the segments back. */
  lemma PartsOfJoin(segs: seq<string>)
    requires segs != [] && AllSegments(segs)
    ensures PathParts(Join(segs, "/")) == segs
  {
    var path := Join(segs, "/");
    JoinThenSplit(segs, '/');
    SegmentsOfSegments(segs);
    JoinStartsWithFirst(segs, "/");
    assert path[0] == segs[0][0];
  }

  /** A two-segment name written "x/y" joins like the segments x and y. */
  lemma JoinName(front: seq<string>, nameSegs: seq<string>)
    requires front != [] && |nameSegs| <= 2
    ensures Join(front + (if |nameSegs| == 0 then [] else [NameOf(nameSegs).value]), "/") == Join(front + nameSegs, "/")
  {
    if |nameSegs| == 1 {
      assert nameSegs == [nameSegs[0]];
    } else if |nameSegs| == 2 {
      var n0, n1 := nameSegs[0], nameSegs[1];
      assert nameSegs == [n0, n1];
      assert [n0, n1][1..] == [n1];
      assert Join([n0, n1], "/") == n0 + "/" + n1;
      JoinAssociative(front, [n0 + "/" + n1], "/");
      JoinAssociative(front, nameSegs, "/");
    }
  }

  function RegionSegs(region: Option<string>): seq<string>
  {
    if region.Some? then [region.value] else []
  }

  /** A built path is the '/'-join of its segments, a two-segment name counting as two. */
  lemma BuildJoins(account: string, environment: string, project: string, resourceType: string,
                   region: Option<string>, nameSegs: seq<string>)
    requires AllSegments(nameSegs) && |nameSegs| <= 2
    requires region.Some? ==> region.value in Regions
    ensures BuildPath(account, environment, project, resourceType, region, NameOf(nameSegs))
         == Join(["live", account, environment, project] + RegionSegs(region) + [resourceType] + nameSegs, "/")
  {
    var front := ["live", account, environment, project] + RegionSegs(region) + [resourceType];
    assert Truthy(NameOf(nameSegs)) <==> |nameSegs| > 0;
    assert Truthy(region) <==> region.Some?;
    JoinName(front, nameSegs);
  }

  /**
   * Parsing a built path recovers every component, provided the components
   * are single segments, the region (if any) is allowed, a missing region is
   * not mistaken for one, and the name has at most two segments.
   */
  lemma BuildThenParse(account: string, environment: string, project: string, resourceType: string,
                       region: Option<string>, nameSegs: seq<string>)
    requires Segment(account) && Segment(environment) && Segment(project) && Segment(resourceType)
    requires AllSegments(nameSegs) && |nameSegs| <= 2
    requires region.Some? ==> region.value in Regions
    requires region.None? ==> resourceType !in Regions
    ensures ParsePath(BuildPath(account, environment, project, resourceType, region, NameOf(nameSegs)))
         == PathComponents(Some(account), Some(environment), Some(project), region, Some(resourceType), NameOf(nameSegs))
  {
    var segs := ["live", account, environment, project] + RegionSegs(region) + [resourceType] + nameSegs;
    BuildJoins(account, environment, project, resourceType, region, nameSegs);
    BuiltSegments(account, environment, project, resourceType, region, nameSegs);
    PartsOfJoin(segs);
    ParseBuiltParts(account, environment, project, resourceType, region, nameSegs);
  }

  lemma BuiltSegments(account: string, environment: string, project: string, resourceType: string,
                      region: Option<string>, nameSegs: seq<string>)
    requires Segment(account) && Segment(environment) && Segment(project) && Segment(resourceType)
    requires AllSegments(nameSegs)
    requires region.Some? ==> region.value in Regions
    ensures AllSegments(["live", account, environment, project] + RegionSegs(region) + [resourceType] + nameSegs)
  {
    var regionSegs := RegionSegs(region);
    var front := ["live", account, environment, project] + regionSegs + [resourceType];
    var segs := front + nameSegs;
    assert forall k :: 0 <= k < |nameSegs| ==> segs[|front| + k] == nameSegs[k];
    assert forall k :: 0 <= k < |regionSegs| ==> regionSegs[k] in Regions;
  }

  /** The parse of the segments a path is built from. */
  lemma ParseBuiltParts(account: string, environment: string, project: string, resourceType: string,
                        region: Option<string>, nameSegs: seq<string>)
    requires |nameSegs| <= 2
    requires region.Some? ==> region.value in Regions
    requires region.None? ==> resourceType !in Regions
    ensures ParseParts(["live", account, environment, project] + RegionSegs(region) + [resourceType] + nameSegs)
         == PathComponents(Some(account), Some(environment), Some(project), region, Some(resourceType), NameOf(nameSegs))
  {
    var front := ["live", account, environment, project] + RegionSegs(region) + [resourceType];
    var segs := front + nameSegs;
    var t := |front| - 1;
    assert segs[..4] == ["live", account, environment, project];
    assert segs[4] == (if region.Some? then region.value else resourceType);
    assert segs[t] == resourceType;
    assert |nameSegs| >= 1 ==> segs[t + 1] == nameSegs[0];
    assert |nameSegs| == 2 ==> segs[t + 2] == nameSegs[1];
  }

  /**
   * Conversely, building from the parse of a canonical path gives the path back,
   * whenever the path has a resource type and at most two segments after it.
   */
  lemma ParseThenBuild(segs: seq<string>)
    requires AllSegments(segs) && |segs| >= 4 && segs[0] == "live"
    requires var t := if |segs| >= 5 && segs[4] in Regions then 5 else 4; t < |segs| <= t + 3
    ensures var c := ParsePath(Join(segs, "/"));
      c.account.Some? && c.environment.Some? && c.project.Some? && c.resourceType.Some?
      && BuildPath(c.account.value, c.environment.value, c.project.value, c.resourceType.value, c.region, c.resourceName)
         == Join(segs, "/")
  {
    PartsOfJoin(segs);
    var t := if |segs| >= 5 && segs[4] in Regions then 5 else 4;
    var region := if t == 5 then Some(segs[4]) else None;
    var nameSegs := segs[t + 1..];
    ParseCanonicalParts(segs, region, t);
    SuffixSegments(segs, t + 1);
    BuildJoins(segs[1], segs[2], segs[3], segs[t], region, nameSegs);
    CanonicalSplit(segs, region, t);
  }

  lemma SuffixSegments(segs: seq<string>, i: nat)
    requires AllSegments(segs) && i <= |segs|
    ensures AllSegments(segs[i..])
  {
    assert forall k :: 0 <= k < |segs| - i ==> segs[i..][k] == segs[i + k];
  }

  /** The parse of a canonical path's segments. */
  lemma ParseCanonicalParts(segs: seq<string>, region: Option<string>, t: nat)
    requires |segs| >= 4 && segs[0] == "live"
    requires t == (if |segs| >= 5 && segs[4] in Regions then 5 else 4) && t < |segs| <= t + 3
    requires region == (if t == 5 then Some(segs[4]) else None)
    ensures ParseParts(segs) == PathComponents(Some(segs[1]), Some(segs[2]), Some(segs[3]), region, Some(segs[t]), NameOf(segs[t + 1..]))
  {
    var nameSegs := segs[t + 1..];
    if |nameSegs| == 2 {
      assert nameSegs[0] == segs[t + 1] && nameSegs[1] == segs[t + 2];
    } else if |nameSegs| == 1 {
      assert nameSegs[0] == segs[t + 1];
    }
  }

  lemma CanonicalSplit(segs: seq<string>, region: Option<string>, t: nat)
    requires |segs| > t && segs[0] == "live"
    requires region.Some? ==> t == 5 && region.value == segs[4]
    requires region.None? ==> t == 4
    ensures segs == ["live", segs[1], segs[2], segs[3]] + RegionSegs(region) + [segs[t]] + segs[t + 1..]
  {
    var rebuilt := ["live", segs[1], segs[2], segs[3]] + RegionSegs(region) + [segs[t]] + segs[t + 1..];
    assert |rebuilt| == |segs|;
    forall k | 0 <= k < |segs| ensures rebuilt[k] == segs[k] {
      if k > t {
        assert rebuilt[k] == segs[t + 1..][k - t - 1];
      }
    }
  }

  /** The documented example layout, with a region and a one-segment name. */
  lemma ParseExample()
    ensures ParsePath(BuildPath("dev-account", "test-dev", "dev-99", "compute", Some("europe-west2"), Some("web-server-01")))
         == PathComponents(Some("dev-account"), Some("test-dev"), Some("dev-99"), Some("europe-west2"), Some("compute"), Some("web-server-01"))
  {
    assert Segment("dev-account") && Segment("test-dev") && Segment("dev-99") && Segment("compute") && Segment("web-server-01");
    assert NameOf(["web-server-01"]) == Some("web-server-01");
    BuildThenParse("dev-account", "test-dev", "dev-99", "compute", Some("europe-west2"), ["web-server-01"]);
  }
}
