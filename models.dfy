/**
 * The records and enumerations of the tool: resources, plans, command results,
 * and the stack, unit and execution records of the stacks feature. Python
 * `Enum`s become datatypes with their string value; pydantic defaults become
 * default-valued constructor parameters.
 */
module Models {
  import opened Wrappers

  /** The closed set of resource kinds a `live/...` path may name. */
  datatype ResourceType = Folder | Project | VpcNetwork | PrivateServiceAccess | Compute | SqlServer | BigQuery | Secrets
  {
    function Value(): string
    {
      match this
      case Folder => "folder"
      case Project => "project"
      case VpcNetwork => "vpc-network"
      case PrivateServiceAccess => "private-service-access"
      case Compute => "compute"
      case SqlServer => "sqlserver"
      case BigQuery => "bigquery"
      case Secrets => "secrets"
    }
  }

  /** `ResourceType(s)`: `None` stands for the `ValueError` raised for any other string. */
  function ResourceTypeFromString(s: string): (r: Option<ResourceType>)
    ensures r.Some? ==> r.value.Value() == s
    ensures r.None? ==> forall t: ResourceType :: t.Value() != s
  {
    if s == "folder" then Some(Folder)
    else if s == "project" then Some(Project)
    else if s == "vpc-network" then Some(VpcNetwork)
    else if s == "private-service-access" then Some(PrivateServiceAccess)
    else if s == "compute" then Some(Compute)
    else if s == "sqlserver" then Some(SqlServer)
    else if s == "bigquery" then Some(BigQuery)
    else if s == "secrets" then Some(Secrets)
    else None
  }

  /** Every resource type is recovered from its own string value, so the values are distinct. */
  lemma ResourceTypeRoundTrip(t: ResourceType)
    ensures ResourceTypeFromString(t.Value()) == Some(t)
  {
  }

  datatype EnvironmentType = Production | NonProduction
  {
    function Value(): string
    {
      if Production? then "production" else "non-production"
    }
  }

  datatype DeploymentStatus = NotStarted | Planning | PlanReady | Applying | Completed | DeploymentFailed | Cancelled
  {
    function Value(): string
    {
      match this
      case NotStarted => "not_started"
      case Planning => "planning"
      case PlanReady => "plan_ready"
      case Applying => "applying"
      case Completed => "completed"
      case DeploymentFailed => "failed"
      case Cancelled => "cancelled"
    }
  }

  datatype ResourceStatus = Unknown | NotDeployed | Deployed | Outdated | ResourceFailed | DriftDetected
  {
    function Value(): string
    {
      match this
      case Unknown => "unknown"
      case NotDeployed => "not_deployed"
      case Deployed => "deployed"
      case Outdated => "outdated"
      case ResourceFailed => "failed"
      case DriftDetected => "drift_detected"
    }
  }

  /** Stack states, as the stacks feature reports and assigns them. */
  datatype StackStatus = StackUnknown | StackReady | StackPlanning | StackApplying | StackDeployed | StackFailed | StackDestroying

  datatype UnitType = TerragruntUnitType

  /** The JSON-like values held in configuration and metadata dictionaries. */
  datatype Value =
    | Null
    | Bool(b: bool)
    | Int(i: int)
    | Str(s: string)
    | List(items: seq<Value>)
    | Dict(entries: map<string, Value>)

  type Config = map<string, Value>

  function StrList(items: seq<string>): (r: Value)
    ensures r.List? && |r.items| == |items|
    ensures forall k :: 0 <= k < |items| ==> r.items[k] == Str(items[k])
  {
    List(seq(|items|, k requires 0 <= k < |items| => Str(items[k])))
  }

  /** A Terragrunt resource; modification, deployment times and state are not modelled. */
  datatype Resource = Resource(
    name: string,
    kind: ResourceType,
    path: string,
    environment: string,
    environmentType: EnvironmentType,
    region: Option<string> := None,
    status: ResourceStatus := Unknown,
    dependencies: seq<string> := [],
    configuration: Config := map[])

  /** A change listed in a plan summary. */
  datatype PlanChange = PlanChange(name: string, action: string)

  /** A deployment plan; `createdAt` is the caller's clock reading. */
  datatype DeploymentPlan = DeploymentPlan(
    id: string,
    resources: seq<string>,
    createdAt: int,
    changes: seq<PlanChange> := [],
    status: DeploymentStatus := NotStarted,
    dryRun: bool := false,
    metadata: Config := map[])

  /**
   * What the command runner gives for one command line: the exit code and
   * the two output streams, or the message of the exception it raised.
   */
  datatype RunOutcome = Completed(exitCode: int, stdout: string, stderr: string) | Raised(message: string)

  /** The command runner, given the argument vector and the working directory. */
  type Runner = (seq<string>, string) -> RunOutcome

  /** Result of one command; the elapsed time is kept as a real number of seconds. */
  datatype CommandResult = CommandResult(
    exitCode: int,
    stdout: string,
    stderr: string,
    executionTime: real,
    command: string,
    workingDir: string)

  datatype McpToolResult = McpToolResult(
    success: bool,
    message: string,
    data: Option<Config> := None,
    errorDetails: Option<string> := None,
    executionTime: Option<real> := None,
    resourceId: Option<string> := None)

  datatype ValidationResult = ValidationResult(
    valid: bool,
    resourcePath: string,
    validatedAt: int,
    errors: seq<string> := [],
    warnings: seq<string> := [])

  /** A unit of a stack: a directory holding `terragrunt.hcl` below the stack's directory. */
  datatype TerragruntUnit = TerragruntUnit(
    name: string,
    path: string,
    kind: UnitType,
    stackPath: string,
    dependencies: seq<string> := [],
    configuration: Config := map[],
    status: ResourceStatus := Unknown,
    dependents: seq<string> := [])

  /** One batch of the execution order: units that may run together. */
  type Batch = set<string>

  /** A stack: a directory holding `stack.hcl`, with its units and their execution order. */
  datatype TerragruntStack = TerragruntStack(
    name: string,
    path: string,
    units: seq<TerragruntUnit> := [],
    dependencies: seq<string> := [],
    status: StackStatus := StackUnknown,
    configuration: Config := map[],
    executionOrder: seq<Batch> := [],
    metadata: Config := map[])

  /** Per-unit outcome scraped from a stack run's output. */
  datatype UnitRunStatus = Running | UnitCompleted | UnitFailed

  datatype UnitResult = UnitResult(status: UnitRunStatus, output: seq<string>, errors: seq<string>)

  /** The defaults the record declarations give, as the model tests expect them. */
  lemma RecordDefaults(name: string, kind: ResourceType, path: string, env: string, envType: EnvironmentType)
    ensures var r := Resource(name, kind, path, env, envType);
      r.status == Unknown && r.dependencies == [] && r.configuration == map[] && r.region == None
    ensures var p := DeploymentPlan("plan", [path], 0);
      p.status == NotStarted && !p.dryRun && p.changes == [] && p.metadata == map[]
    ensures var v := ValidationResult(true, path, 0);
      v.errors == [] && v.warnings == []
    ensures var m := McpToolResult(true, name);
      m.data == None && m.errorDetails == None && m.executionTime == None && m.resourceId == None
    ensures var u := TerragruntUnit(name, path, TerragruntUnitType, path);
      u.status == Unknown && u.dependencies == [] && u.dependents == []
    ensures var s := TerragruntStack(name, path);
      s.status == StackUnknown && s.units == [] && s.dependencies == [] && s.executionOrder == []
  {
  }
}
