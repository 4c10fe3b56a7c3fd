/**
 * `extract_terraform_plan_summary`: the counts of the first
 * "Plan: N to add, M to change, K to destroy" line, and every
 * "# <name> will be created|destroyed|updated" announcement, in order.
 */
module PlanSummary {
  import opened Wrappers
  import opened Strings
  import opened Models
  import opened Matching

  /** The summary dictionary. */
  datatype Summary = Summary(toAdd: nat, toChange: nat, toDestroy: nat, hasChanges: bool, resources: seq<PlanChange>)

  datatype Counts = Counts(add: nat, change: nat, destroy: nat)

  /** `(\d+)` followed by `text` at `j`: the number, and where `text` ends. */
  function NumberThen(s: string, j: nat, text: string): (r: Option<(nat, nat)>)
    requires j <= |s|
    ensures r.Some? ==> j < r.value.1 <= |s|
  {
    var e := SkipDigits(s, j);
    if e > j && OccursAt(s, text, e) then Some((DigitsValue(s[j..e]), e + |text|)) else None
  }

  /** A match of `Plan: (\d+) to add, (\d+) to change, (\d+) to destroy` at `i`. */
  function CountsAt(s: string, i: nat): (r: Option<Counts>)
    requires i <= |s|
    ensures r.Some? ==> OccursAt(s, "Plan: ", i)
  {
    if !OccursAt(s, "Plan: ", i) then None
    else
      match NumberThen(s, i + 6, " to add, ")
      case None => None
      case Some((add, j)) =>
        match NumberThen(s, j, " to change, ")
        case None => None
        case Some((change, k)) =>
          match NumberThen(s, k, " to destroy")
          case None => None
          case Some((destroy, _)) => Some(Counts(add, change, destroy))
  }

  /** The plan-line match at each position of `s`. */
  function CountsTable(s: string): (t: seq<Option<Counts>>)
    ensures |t| == |s| + 1 && forall i :: 0 <= i <= |s| ==> t[i] == CountsAt(s, i)
  {
    seq(|s| + 1, i requires 0 <= i <= |s| => CountsAt(s, i))
  }

  /** `re.search` of the plan line: the counts of the leftmost match. */
  function FirstCounts(s: string): Option<Counts>
  {
    var t := CountsTable(s);
    match First(t, 0)
    case None => None
    case Some(i) => t[i]
  }

  const Actions := ["created", "destroyed", "updated"]

  /** A match of `# ([^\s]+) will be (created|destroyed|updated)` at `i`, and where it ends. */
  function ChangeAt(s: string, i: nat): (r: Option<(PlanChange, nat)>)
    requires i <= |s|
    ensures r.Some? ==> i < r.value.1 <= |s| && OccursAt(s, "# ", i)
    ensures r.Some? ==> var name := r.value.0.name;
      name != "" && (forall k :: 0 <= k < |name| ==> !IsSpace(name[k])) && r.value.0.action in Actions
  {
    if !OccursAt(s, "# ", i) then None
    else
      var e := SkipWord(s, i + 2);
      if e == i + 2 || !OccursAt(s, " will be ", e) then None
      else
        var a := e + 9;
        var name := s[i + 2..e];
        if OccursAt(s, "created", a) then Some((PlanChange(name, "created"), a + 7))
        else if OccursAt(s, "destroyed", a) then Some((PlanChange(name, "destroyed"), a + 9))
        else if OccursAt(s, "updated", a) then Some((PlanChange(name, "updated"), a + 7))
        else None
  }

  /** The change match at each position of `s`. */
  function ChangeTable(s: string): (t: seq<Option<(PlanChange, nat)>>)
    ensures |t| == |s| + 1 && forall i :: 0 <= i <= |s| ==> t[i] == ChangeAt(s, i)
    ensures Advancing(t)
  {
    seq(|s| + 1, i requires 0 <= i <= |s| => ChangeAt(s, i))
  }

  /** The changes `finditer` reports, in order of appearance. */
  function Changes(s: string): (r: seq<PlanChange>)
  {
    var t := ChangeTable(s);
    Values(t, FindAll(t, 0))
  }

  /** The summary `extract_terraform_plan_summary` returns. */
  function SummaryOf(plan: string): Summary
  {
    var counts := FirstCounts(plan).GetOr(Counts(0, 0, 0));
    Summary(counts.add, counts.change, counts.destroy,
            counts.add != 0 || counts.change != 0 || counts.destroy != 0, Changes(plan))
  }

  method ExtractPlanSummary(plan: string) returns (summary: Summary)
    ensures summary == SummaryOf(plan)
  {
    summary := Summary(0, 0, 0, false, []);
    var counts := FirstCounts(plan);
    if counts.Some? {
      var c := counts.value;
      summary := Summary(c.add, c.change, c.destroy, c.add != 0 || c.change != 0 || c.destroy != 0, []);
    }
    var resources := CollectChanges(plan);
    summary := summary.(resources := resources);
  }

  /** The loop over `finditer`'s matches. */
  method CollectChanges(plan: string) returns (resources: seq<PlanChange>)
    ensures resources == Changes(plan)
  {
    resources := CollectAll(ChangeTable(plan));
  }

  /** The counts are those of the first plan line, or zero; there are changes exactly when a count is non-zero. */
  lemma SummaryCounts(plan: string)
    ensures var r := SummaryOf(plan);
      (FirstCounts(plan).None? ==> r.toAdd == 0 && r.toChange == 0 && r.toDestroy == 0 && !r.hasChanges)
      && (FirstCounts(plan).Some? ==> Counts(r.toAdd, r.toChange, r.toDestroy) == FirstCounts(plan).value)
      && (r.hasChanges <==> r.toAdd > 0 || r.toChange > 0 || r.toDestroy > 0)
  {
  }

  /** The first plan line found is the leftmost match of the pattern. */
  lemma FirstCountsLeftmost(plan: string)
    ensures FirstCounts(plan).None? <==> forall i :: 0 <= i <= |plan| ==> CountsAt(plan, i).None?
    ensures FirstCounts(plan).Some? ==>
      exists i :: 0 <= i <= |plan| && CountsAt(plan, i) == FirstCounts(plan) && forall j :: 0 <= j < i ==> CountsAt(plan, j).None?
  {
    var t := CountsTable(plan);
    if First(t, 0).Some? {
      var i := First(t, 0).value;
      assert CountsAt(plan, i) == FirstCounts(plan);
    }
  }

  /**
   * Each resource reported is a match of the change pattern; the matches are
   * in order and do not overlap, and no match starts outside them.
   */
  lemma ChangesAreMatches(plan: string, k: nat)
    requires k < |Changes(plan)|
    ensures exists p :: 0 <= p <= |plan| && ChangeAt(plan, p).Some? && ChangeAt(plan, p).value.0 == Changes(plan)[k]
  {
    var t := ChangeTable(plan);
    var p := FindAll(t, 0)[k];
    assert ChangeAt(plan, p) == t[p];
  }

  lemma ChangesLeftmost(plan: string, p: nat)
    requires p <= |plan|
    requires var starts := FindAll(ChangeTable(plan), 0);
      forall k :: 0 <= k < |starts| ==> p < starts[k] || ChangeTable(plan)[starts[k]].value.1 <= p
    ensures ChangeAt(plan, p).None?
  {
    FindAllLeftmost(ChangeTable(plan), 0, p);
  }
}
