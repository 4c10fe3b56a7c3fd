/**
 * `execute_stack_command`: a stack command run as `terragrunt stack run`,
 * recorded in a `StackExecution` whose status, completion time, error
 * message and per-unit results are assigned as the run proceeds. The clock
 * and the execution id are parameters.
 */
module StackRun {
  import opened Wrappers
  import opened Models
  import opened StackManager
  import opened StackOutput

  /** The argument vector of the run: `--dry-run` is passed on to the binary, not acted upon. */
  function StackRunArgs(binary: string, command: string, dryRun: bool): (r: seq<string>)
    ensures |r| == if dryRun then 5 else 4
    ensures r[..3] == [binary, "stack", "run"] && r[|r| - 1] == command
    ensures dryRun ==> r[3] == "--dry-run"
  {
    [binary, "stack", "run"] + (if dryRun then ["--dry-run"] else []) + [command]
  }

  /** The record of one stack run. */
  class StackExecution {
    const id: string
    const stackPath: string
    const command: string
    var status: StackStatus
    const startedAt: int
    var completedAt: Option<int>
    var errorMessage: Option<string>
    var unitResults: map<string, UnitResult>
    const executionPlan: seq<Batch>
    const metadata: Config

    /** A run about to start: planning, not completed, no error, no unit results. */
    constructor(id: string, stackPath: string, command: string, startedAt: int, executionPlan: seq<Batch>, metadata: Config)
      ensures this.id == id && this.stackPath == stackPath && this.command == command
      ensures this.startedAt == startedAt && this.executionPlan == executionPlan && this.metadata == metadata
      ensures status == StackPlanning && completedAt == None && errorMessage == None && unitResults == map[]
    {
      this.id := id;
      this.stackPath := stackPath;
      this.command := command;
      this.startedAt := startedAt;
      this.executionPlan := executionPlan;
      this.metadata := metadata;
      status := StackPlanning;
      completedAt := None;
      errorMessage := None;
      unitResults := map[];
    }
  }

  /** How a run ends: its final status, error message and unit results. */
  datatype Ending = Ending(status: StackStatus, errorMessage: Option<string>, unitResults: map<string, UnitResult>)

  /**
   * The end of a run given what the runner did: deployed exactly on exit
   * code 0; otherwise failed, with the run's standard error, or with the
   * message of what was raised, when no unit result is scraped. The error
   * message is present exactly when the run failed.
   */
  function EndOf(outcome: RunOutcome): (e: Ending)
    ensures e.status == StackDeployed <==> outcome.Completed? && outcome.exitCode == 0
    ensures e.status == StackDeployed || e.status == StackFailed
    ensures e.errorMessage.Some? <==> e.status == StackFailed
    ensures outcome.Completed? && outcome.exitCode != 0 ==> e.errorMessage == Some(outcome.stderr)
    ensures outcome.Completed? ==> e.unitResults == ParseSpec(outcome.stdout, outcome.stderr)
    ensures outcome.Raised? ==> e.errorMessage == Some(outcome.message) && e.unitResults == map[]
  {
    match outcome
    case Raised(message) => Ending(StackFailed, Some(message), map[])
    case Completed(exitCode, stdout, stderr) =>
      Ending(if exitCode == 0 then StackDeployed else StackFailed,
             if exitCode == 0 then None else Some(stderr),
             ParseSpec(stdout, stderr))
  }

  function RunMetadata(dryRun: bool, stack: TerragruntStack): Config
  {
    map["dry_run" := Bool(dryRun), "unit_count" := Int(|stack.units|), "parallel_groups" := Int(|stack.executionOrder|)]
  }

  /**
   * `execute_stack_command`. When there is no stack at `stackPath` no run
   * happens and the error "Stack not found: <path>" is returned instead of a
   * record; otherwise the record of the run, completed at `completedAt`.
   */
  method ExecuteStackCommand(sm: StackManager, stackPath: string, command: string, dryRun: bool,
                             executionId: string, startedAt: int, completedAt: int)
    returns (execution: StackExecution?, notFound: Option<string>)
    ensures StackFromPath(sm, stackPath).None? ==> execution == null && notFound == Some("Stack not found: " + stackPath)
    ensures StackFromPath(sm, stackPath).Some? ==>
      var stack := StackFromPath(sm, stackPath).value;
      var e := EndOf(sm.run(StackRunArgs(sm.binary, command, dryRun), FullPath(sm, stackPath)));
      notFound == None && execution != null && fresh(execution)
      && execution.id == executionId && execution.stackPath == stackPath && execution.command == command
      && execution.startedAt == startedAt && execution.completedAt == Some(completedAt)
      && execution.executionPlan == stack.executionOrder && execution.metadata == RunMetadata(dryRun, stack)
      && execution.status == e.status && execution.errorMessage == e.errorMessage && execution.unitResults == e.unitResults
  {
    var stack := CreateStackFromPath(sm, stackPath);
    if stack.None? {
      return null, Some("Stack not found: " + stackPath);
    }
    notFound := None;
    execution := new StackExecution(executionId, stackPath, command, startedAt, stack.value.executionOrder,
                                    RunMetadata(dryRun, stack.value));
    Run(execution, sm.run, StackRunArgs(sm.binary, command, dryRun), FullPath(sm, stackPath), completedAt);
  }

  /** The run itself, on a record that was just started: it ends as `EndOf` says, at `completedAt`. */
  method Run(execution: StackExecution, run: Runner, args: seq<string>, workingDir: string, completedAt: int)
    requires execution.errorMessage == None && execution.unitResults == map[]
    modifies execution
    ensures var e := EndOf(run(args, workingDir));
      execution.status == e.status && execution.errorMessage == e.errorMessage && execution.unitResults == e.unitResults
      && execution.completedAt == Some(completedAt)
  {
    execution.status := StackApplying;
    var outcome := run(args, workingDir);
    match outcome {
      case Raised(message) =>
        execution.status := StackFailed;
        execution.errorMessage := Some(message);
        execution.completedAt := Some(completedAt);
      case Completed(exitCode, stdout, stderr) =>
        execution.completedAt := Some(completedAt);
        if exitCode == 0 {
          execution.status := StackDeployed;
        } else {
          execution.status := StackFailed;
          execution.errorMessage := Some(stderr);
        }
        var results := ParseStackOutput(stdout, stderr);
        execution.unitResults := results;
    }
  }
}
