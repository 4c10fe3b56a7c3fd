/**
 * `_parse_stack_output`: the per-unit results scraped from the output of a
 * stack run. A line naming a unit ("Executing unit: <u>" or "Running in
 * <u>") starts a fresh record for that unit and makes it the current one;
 * every other non-blank line goes, stripped, to the current unit's errors
 * (marking it failed) when it mentions "Error:" or "Failed:", and to its
 * output otherwise. Records still running without errors end as completed.
 */
module StackOutput {
  import opened Wrappers
  import opened Strings
  import opened Models
  import opened Matching

  const ExecutingMarker := "Executing unit:"
  const RunningMarker := "Running in"

  /** A match of `(?:Executing unit:|Running in)\s+([^\s]+)` starting at `i`: the captured unit. */
  function MarkerAt(line: string, i: nat): (r: Option<string>)
    ensures r.Some? ==> OccursAt(line, ExecutingMarker, i) || OccursAt(line, RunningMarker, i)
    ensures r.Some? ==> r.value != "" && forall k :: 0 <= k < |r.value| ==> !IsSpace(r.value[k])
  {
    var marker := if OccursAt(line, ExecutingMarker, i) then Some(ExecutingMarker)
                  else if OccursAt(line, RunningMarker, i) then Some(RunningMarker)
                  else None;
    match marker
    case None => None
    case Some(m) =>
      var j := i + |m|;
      if j < |line| && IsSpace(line[j]) then
        var k := SkipSpace(line, j);
        var e := SkipWord(line, k);
        assert forall q :: 0 <= q < e - k ==> line[k..e][q] == line[k + q];
        if k < e then Some(line[k..e]) else None
      else None
  }

  /** The unit-pattern match at each position of `line`. */
  function MarkerTable(line: string): (t: seq<Option<string>>)
    ensures |t| == |line| + 1 && forall i :: 0 <= i <= |line| ==> t[i] == MarkerAt(line, i)
  {
    seq(|line| + 1, i requires 0 <= i <= |line| => MarkerAt(line, i))
  }

  /** `re.search`: the unit a line names by its leftmost match, if any. */
  function UnitNamed(line: string): (r: Option<string>)
    ensures r.None? <==> forall i :: 0 <= i <= |line| ==> MarkerAt(line, i).None?
  {
    var t := MarkerTable(line);
    match First(t, 0)
    case None => None
    case Some(i) => t[i]
  }

  /** `"Executing unit:" in line or "Running in" in line`. */
  predicate HasMarker(line: string)
  {
    Contains(line, ExecutingMarker) || Contains(line, RunningMarker)
  }

  /** A line whose pattern matches mentions a marker. */
  lemma NamedHasMarker(line: string)
    requires UnitNamed(line).Some?
    ensures HasMarker(line)
  {
    var i := First(MarkerTable(line), 0).value;
    assert MarkerAt(line, i) == UnitNamed(line);
    if OccursAt(line, ExecutingMarker, i) {
      ContainsAt(line, ExecutingMarker, i);
    } else {
      ContainsAt(line, RunningMarker, i);
    }
  }

  /** The loop's variables: the records so far, and `current_unit`. */
  datatype Scan = Scan(results: map<string, UnitResult>, current: Option<string>)

  /** `current_unit` always names a record. */
  predicate Consistent(st: Scan)
  {
    st.current.Some? ==> st.current.value in st.results
  }

  const Fresh := UnitResult(Running, [], [])

  /** A non-marker line added to the current unit's record. */
  function Record(r: UnitResult, line: string): UnitResult
  {
    var text := Strip(line);
    if Contains(line, "Error:") || Contains(line, "Failed:") then UnitResult(UnitFailed, r.output, r.errors + [text])
    else r.(output := r.output + [text])
  }

  /** One turn of the loop over lines. */
  function Step(st: Scan, line: string): (r: Scan)
    requires Consistent(st)
    ensures Consistent(r)
    ensures st.results.Keys <= r.results.Keys
  {
    if HasMarker(line) then
      match UnitNamed(line)
      case None => st
      case Some(u) => Scan(st.results[u := Fresh], Some(u))
    else if Truthy(st.current) && Strip(line) != "" then
      var u := st.current.value;
      Scan(st.results[u := Record(st.results[u], line)], st.current)
    else st
  }

  const Initial := Scan(map[], None)

  /** The loop over `lines`, from the state `st`. */
  function ScanLines(st: Scan, lines: seq<string>): (r: Scan)
    requires Consistent(st)
    ensures Consistent(r)
  {
    if lines == [] then st
    else Step(ScanLines(st, lines[..|lines| - 1]), lines[|lines| - 1])
  }

  lemma ScanLinesPrefix(st: Scan, lines: seq<string>, i: nat)
    requires Consistent(st) && i < |lines|
    ensures ScanLines(st, lines[..i + 1]) == Step(ScanLines(st, lines[..i]), lines[i])
  {
    assert lines[..i + 1][..i] == lines[..i];
  }

  /** Records still running with no errors are completed. */
  function Settle(r: UnitResult): UnitResult
  {
    if r.status == Running && r.errors == [] then r.(status := UnitCompleted) else r
  }

  function Lines(stdout: string, stderr: string): seq<string>
  {
    Split(stdout, '\n') + Split(stderr, '\n')
  }

  /** The records `_parse_stack_output` returns. */
  function ParseSpec(stdout: string, stderr: string): (r: map<string, UnitResult>)
  {
    var results := ScanLines(Initial, Lines(stdout, stderr)).results;
    map u | u in results :: Settle(results[u])
  }

  method ParseStackOutput(stdout: string, stderr: string) returns (unitResults: map<string, UnitResult>)
    ensures unitResults == ParseSpec(stdout, stderr)
  {
    var lines := Lines(stdout, stderr);
    var results: map<string, UnitResult> := map[];
    var current: Option<string> := None;
    var i := 0;
    while i < |lines|
      invariant i <= |lines|
      invariant Scan(results, current) == ScanLines(Initial, lines[..i])
    {
      ScanLinesPrefix(Initial, lines, i);
      results, current := ScanLine(results, current, lines[i]);
      i := i + 1;
    }
    assert lines[..i] == lines;
    unitResults := SettleAll(results);
  }

  /** The body of the loop over lines. */
  method ScanLine(results: map<string, UnitResult>, current: Option<string>, line: string)
    returns (results': map<string, UnitResult>, current': Option<string>)
    requires Consistent(Scan(results, current))
    ensures Scan(results', current') == Step(Scan(results, current), line)
  {
    results', current' := results, current;
    if HasMarker(line) {
      var unit := UnitNamed(line);
      if unit.Some? {
        current' := unit;
        results' := results[unit.value := Fresh];
      }
    } else if Truthy(current) && Strip(line) != "" {
      results' := results[current.value := Record(results[current.value], line)];
    }
  }

  /** The loop that marks the successful units. */
  method SettleAll(results: map<string, UnitResult>) returns (settled: map<string, UnitResult>)
    ensures settled == map u | u in results :: Settle(results[u])
  {
    var pending := results.Keys;
    settled := results;
    while pending != {}
      invariant pending <= results.Keys && settled.Keys == results.Keys
      invariant forall u :: u in results ==> settled[u] == if u in pending then results[u] else Settle(results[u])
      decreases |pending|
    {
      var u :| u in pending;
      settled := settled[u := Settle(results[u])];
      pending := pending - {u};
    }
  }

  /** Before settling, no record is completed, and a record is failed exactly when it has errors. */
  predicate Tracking(results: map<string, UnitResult>)
  {
    forall u :: u in results ==>
      results[u].status != UnitCompleted && (results[u].status == UnitFailed <==> results[u].errors != [])
  }

  lemma StepTracking(st: Scan, line: string)
    requires Consistent(st) && Tracking(st.results)
    ensures Tracking(Step(st, line).results)
  {
    if HasMarker(line) {
      if UnitNamed(line).Some? {
        TrackingUpdate(st.results, UnitNamed(line).value, Fresh);
      }
    } else if Truthy(st.current) && Strip(line) != "" {
      var u := st.current.value;
      var r := Record(st.results[u], line);
      assert r.status != UnitCompleted && (r.status == UnitFailed <==> r.errors != []);
      TrackingUpdate(st.results, u, r);
    }
  }

  lemma TrackingUpdate(results: map<string, UnitResult>, u: string, r: UnitResult)
    requires Tracking(results)
    requires r.status != UnitCompleted && (r.status == UnitFailed <==> r.errors != [])
    ensures Tracking(results[u := r])
  {
  }

  lemma {:induction false} ScanTracking(st: Scan, lines: seq<string>)
    requires Consistent(st) && Tracking(st.results)
    ensures Tracking(ScanLines(st, lines).results)
    decreases |lines|
  {
    if lines != [] {
      ScanTracking(st, lines[..|lines| - 1]);
      StepTracking(ScanLines(st, lines[..|lines| - 1]), lines[|lines| - 1]);
    }
  }

  /** Every record ends completed or failed, and failed exactly when its errors list is non-empty. */
  lemma ResultsSettled(stdout: string, stderr: string, u: string)
    requires u in ParseSpec(stdout, stderr)
    ensures var r := ParseSpec(stdout, stderr)[u];
      (r.status == UnitCompleted || r.status == UnitFailed) && (r.status == UnitFailed <==> r.errors != [])
  {
    ScanTracking(Initial, Lines(stdout, stderr));
  }

  /** The unit each line names, line by line. */
  function Named(lines: seq<string>): (r: seq<Option<string>>)
    ensures |r| == |lines|
  {
    if lines == [] then [] else Named(lines[..|lines| - 1]) + [UnitNamed(lines[|lines| - 1])]
  }

  /** The records are keyed by exactly the units that lines name. */
  lemma {:induction false} ScanKeys(lines: seq<string>, u: string)
    ensures u in ScanLines(Initial, lines).results <==> Some(u) in Named(lines)
    decreases |lines|
  {
    if lines != [] {
      var init := lines[..|lines| - 1];
      ScanKeys(init, u);
      StepKeys(ScanLines(Initial, init), lines[|lines| - 1], u);
      assert Named(lines) == Named(init) + [UnitNamed(lines[|lines| - 1])];
    }
  }

  /** The returned records are keyed by exactly the units the output's lines name. */
  lemma ResultKeys(stdout: string, stderr: string, u: string)
    ensures u in ParseSpec(stdout, stderr) <==> Some(u) in Named(Lines(stdout, stderr))
  {
    ScanKeys(Lines(stdout, stderr), u);
  }

  lemma StepKeys(st: Scan, line: string, u: string)
    requires Consistent(st)
    ensures u in Step(st, line).results <==> u in st.results || UnitNamed(line) == Some(u)
  {
    if UnitNamed(line).Some? {
      NamedHasMarker(line);
    }
  }

  /** The lines `a` then `b` scan as `b` from where `a` leaves off. */
  lemma {:induction false} ScanAppend(st: Scan, a: seq<string>, b: seq<string>)
    requires Consistent(st)
    ensures ScanLines(st, a + b) == ScanLines(ScanLines(st, a), b)
    decreases |b|
  {
    if b == [] {
      assert a + b == a;
    } else {
      ScanAppend(st, a, b[..|b| - 1]);
      assert (a + b)[..|a + b| - 1] == a + b[..|b| - 1];
    }
  }

  /** Lines that name no unit leave the initial state as it is. */
  lemma {:induction false} UnnamedLinesIgnored(lines: seq<string>)
    requires forall i :: 0 <= i < |lines| ==> UnitNamed(lines[i]).None?
    ensures ScanLines(Initial, lines) == Initial
    decreases |lines|
  {
    if lines != [] {
      UnnamedLinesIgnored(lines[..|lines| - 1]);
    }
  }

  /** Lines before the first line that names a unit are dropped. */
  lemma LeadingLinesDropped(before: seq<string>, after: seq<string>)
    requires forall i :: 0 <= i < |before| ==> UnitNamed(before[i]).None?
    ensures ScanLines(Initial, before + after) == ScanLines(Initial, after)
  {
    ScanAppend(Initial, before, after);
    UnnamedLinesIgnored(before);
  }

  /** A line naming a unit starts a fresh running record for it, whatever came before, and makes it current. */
  lemma MarkerResets(st: Scan, line: string, u: string)
    requires Consistent(st) && UnitNamed(line) == Some(u)
    ensures Step(st, line).results == st.results[u := Fresh] && Step(st, line).current == Some(u)
  {
    NamedHasMarker(line);
  }

  /** A non-blank line after a marker is recorded, stripped, among the unit's errors or its output. */
  lemma LineRecorded(st: Scan, line: string)
    requires Consistent(st) && !HasMarker(line) && Truthy(st.current) && Strip(line) != ""
    ensures var u := st.current.value; var before := st.results[u]; var after := Step(st, line).results[u];
      if Contains(line, "Error:") || Contains(line, "Failed:") then
        after.status == UnitFailed && after.errors == before.errors + [Strip(line)] && after.output == before.output
      else
        after.status == before.status && after.errors == before.errors && after.output == before.output + [Strip(line)]
  {
  }
}
