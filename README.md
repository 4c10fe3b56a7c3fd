# terragrunt-gcp-tool-mcp, modelled in Dafny

This project models the logic at the centre of the Terragrunt (Google Cloud) MCP tool. The tool discovers the Terraform units and stacks of a repository laid out as `live/<account>/<environment>/<project>[/<region>]/<type>[/<name>]`. It reads their definition files, decides their deployment status from a probe of the `terragrunt` binary, orders a stack's units for execution, and runs stack commands. It also scrapes the binary's output into plan summaries, per-unit results, resource trees and dependency graphs. The release script that stamps versions into the project files is modelled too.

The modules follow the program:

- `Strings`, `OsPath` and `Matching` give the Python behaviour the code leans on: `str.split`, `strip`, `join`, `os.path.join`, `normpath`, `relpath`, and `re.search` / `re.finditer`. A regular expression is a deterministic matcher at each position of the text, and a search scans for the leftmost match.
- `Models` holds the records and enumerations.
- `PathGrammar` and `Naming` hold the path layout, name sanitising and environment classification.
- `HclText` holds the scans of definition-file text. `PlanSummary`, `StackOutput`, `GraphFormats` and `TreeRender` hold the output scrapers and renderers.
- `TerragruntManager` and `StackManager` hold discovery, classification, status, dependencies and configuration.
- `Planner` holds the layered topological sort of a stack's units.
- `StackRun` holds the stack-execution record.
- `MergeConfig` holds the recursive configuration merge.
- `SystemPrompt` holds prompt selection and injection.
- `VersionScript` holds the release script.

The repository is an in-memory directory tree, and `os.walk` is modelled over it. Definition files are strings. The command runner is a function from the argument vector and working directory to an outcome: an exit code with stdout and stderr, or a raised exception. The clock and the execution id are parameters. Loops that append or assign are methods proved against the specification functions, and the properties the tool promises are lemmas about those functions.

## Model

| member | source | states |
|---|---|---|
| Models.ResourceTypeFromString | src/terragrunt_gcp_mcp/models.py:11-21 | a string names a resource type exactly when it is one of the eight values, and the type found has that value; any other string is refused |
| Models.ResourceTypeRoundTrip | src/terragrunt_gcp_mcp/models.py:11-21 | every resource type is recovered from its own value, so the eight values are distinct |
| Models.RecordDefaults | src/terragrunt_gcp_mcp/models.py:54-204 | a resource starts UNKNOWN with no region, dependencies or configuration; a plan starts NOT_STARTED, not a dry run, with no changes; a validation result has no errors or warnings; a tool result has no data, error details, time or id; units and stacks start with empty lists and unknown status |
| Naming.ReplaceInvalid | src/terragrunt_gcp_mcp/utils.py:36 | the text keeps its length; each ASCII letter, digit and '-' stays, every other character becomes '-' |
| Naming.CollapseHyphens | src/terragrunt_gcp_mcp/utils.py:39 | the result is no longer than the input, keeps its first and last characters, and has no two hyphens side by side |
| Naming.Sanitize | src/terragrunt_gcp_mcp/utils.py:33-40 | a sanitised name holds only a-z, 0-9 and '-', neither starts nor ends with '-', and has no "--" |
| Naming.SanitizeIdempotent | src/terragrunt_gcp_mcp/utils.py:33-40 | sanitising a sanitised name changes nothing |
| Naming.SanitizedFixpoint | src/terragrunt_gcp_mcp/utils.py:33-40 | a name of the allowed characters with no edge or doubled hyphen is its own sanitisation |
| Naming.CollapseFixpoint | src/terragrunt_gcp_mcp/utils.py:39 | collapsing a text without doubled hyphens gives it back |
| Naming.CollapseKeepsNameChars | src/terragrunt_gcp_mcp/utils.py:39 | collapsing hyphens adds no character outside a-z, 0-9 and '-' |
| Naming.TrimmedFixpoint | src/terragrunt_gcp_mcp/utils.py:36-38 | lower-casing, replacing and trimming edge hyphens leave an already clean name alone |
| Naming.EnvironmentTypeOf | src/terragrunt_gcp_mcp/utils.py:116-124 | "production" exactly when the lower-cased name contains "prod" or "live" ("production" needs no test of its own, since it contains "prod") |
| Naming.ResourceEnvironmentType | src/terragrunt_gcp_mcp/terragrunt_manager.py:167-168 | "production" exactly when the name, case-sensitively, contains "prod" |
| Naming.ClassificationsAgree | src/terragrunt_gcp_mcp/terragrunt_manager.py:167-168 | on lower-case names without "live" the resource classification and `get_environment_type` agree |
| PathGrammar.ParseParts | src/terragrunt_gcp_mcp/utils.py:57-91 | the account is present exactly when there are at least four parts and the first is "live", and absent means every field is absent; then account, environment and project are parts 2, 3 and 4, and the region is part 5 exactly when there is a fifth part and it is one of the four allowed names; a region is one of the four allowed names and leaves the resource type absent only at five parts; a name implies a type |
| PathGrammar.ParsePath | src/terragrunt_gcp_mcp/utils.py:43-91 | the same facts about `parse_terragrunt_path` of a path string, over the path's parts |
| PathGrammar.ParseDropsDeeper | src/terragrunt_gcp_mcp/utils.py:71-87 | segments after the second name segment are ignored: a `live/...` path parses as its first type-index + 3 parts do |
| PathGrammar.BuildJoins | src/terragrunt_gcp_mcp/utils.py:94-113 | a built path is the '/'-join of "live", the three components, the region if any, the type and the name's segments |
| PathGrammar.PartsOfJoin | src/terragrunt_gcp_mcp/utils.py:46 | taking the parts of a '/'-join of plain segments gives the segments back |
| PathGrammar.BuildThenParse | src/terragrunt_gcp_mcp/utils.py:43-113 | parsing a built path gives back every component, when the components are plain segments, the region is allowed or absent with a type that is not a region name, and the name has at most two segments |
| PathGrammar.ParseThenBuild | src/terragrunt_gcp_mcp/utils.py:43-113 | building from the parse of a canonical `live/...` path with at most two segments after the type gives the path back |
| PathGrammar.ParseCanonicalParts | src/terragrunt_gcp_mcp/utils.py:57-87 | the parse of a canonical path: segments 2-4, the region when segment 5 is allowed, the type after it and the name from what follows |
| PathGrammar.ParseExample | src/terragrunt_gcp_mcp/utils.py:43-113 | the documented layout with region "europe-west2" and name "web-server-01" parses back to its components |
| OsPath.NormFoldNormalized | src/terragrunt_gcp_mcp/terragrunt_manager.py:259-263 | `normpath` leaves no empty or "." component, and no ".." after a name in a relative path nor any ".." in an absolute one |
| OsPath.NormalizedFixpoint | src/terragrunt_gcp_mcp/terragrunt_manager.py:259-263 | `normpath` keeps an already normalised component list as it is |
| OsPath.NormFoldAppend | src/terragrunt_gcp_mcp/terragrunt_manager.py:259-263 | normalising `a + b` is normalising `b` after `a` |
| OsPath.LeadingParentPersists | src/terragrunt_gcp_mcp/terragrunt_manager.py:259-263 | a relative path that starts with ".." still starts with ".." after any further components |
| OsPath.PrefixUntouched | src/terragrunt_gcp_mcp/terragrunt_manager.py:259-263 | components before a part that never climbs out of itself are left untouched by normalisation |
| OsPath.CommonPrefixLength | src/terragrunt_gcp_mcp/terragrunt_manager.py:108 | the length of the longest common prefix: both lists agree below it and differ at it |
| OsPath.RelPathOfExtension | src/terragrunt_gcp_mcp/terragrunt_manager.py:108 | a path below the start is reported by its remaining names joined by '/', and the start itself as "." |
| Strings.SplitThenJoin | src/terragrunt_gcp_mcp/terragrunt_manager.py:725 | joining the pieces of a split with the separator gives the text back |
| Strings.JoinThenSplit | src/terragrunt_gcp_mcp/utils.py:113 | splitting a join of separator-free pieces gives the pieces back |
| Strings.StripEmptyIff | src/terragrunt_gcp_mcp/terragrunt_manager.py:202 | `strip()` leaves nothing exactly when every character is white space |
| Strings.NatToStringRoundTrip | src/terragrunt_gcp_mcp/utils.py:224-226 | reading back the decimal digits of a number gives the number |
| SystemPrompt.GetSystemPrompt | src/terragrunt_gcp_mcp/autodevops_prompt.py:179-194 | "extended" and "cli" select their own prompt; every other variant, "compact" among them, selects the compact prompt (each an if-and-only-if) |
| SystemPrompt.InjectedShape | src/terragrunt_gcp_mcp/autodevops_prompt.py:196-217 | the head is the variant's system message; a history without a system head grows by one and keeps all its messages behind it, one with a system head keeps its length and all but its head |
| SystemPrompt.InjectTwice | src/terragrunt_gcp_mcp/autodevops_prompt.py:196-217 | injecting a second time only exchanges the head: the result is the history injected once with the second variant |
| SystemPrompt.InjectSystemPrompt | src/terragrunt_gcp_mcp/autodevops_prompt.py:196-217 | the returned list holds the injected history; without a system head it is a new list and the caller's list is unchanged, otherwise it is the caller's list with its head replaced in place |
| MergeConfig.Merge | src/terragrunt_gcp_mcp/utils.py:317-327 | the merged keys are the keys of base and override together |
| MergeConfig.MergeEntries | src/terragrunt_gcp_mcp/utils.py:317-327 | a key only the base has keeps its value; the override's value wins unless both are dictionaries, which are merged recursively |
| MergeConfig.MergeEmpty | src/terragrunt_gcp_mcp/utils.py:317-327 | merging nothing in gives the base back |
| MergeConfig.MergeSelf | src/terragrunt_gcp_mcp/utils.py:317-327 | merging a configuration into itself gives it back |
| MergeConfig.MergeIdempotent | src/terragrunt_gcp_mcp/utils.py:317-327 | merging the same override a second time changes nothing |
| MergeConfig.MergeConfigurations | src/terragrunt_gcp_mcp/utils.py:317-327 | the copy-then-assign loop returns the merge; the inputs are values, so neither is changed |
| MergeConfig.MergeKey | src/terragrunt_gcp_mcp/utils.py:322-325 | the value assigned under one key: the recursive merge of two dictionaries, else the override's value |
| Strings.Split | src/terragrunt_gcp_mcp/terragrunt_manager.py:725 | `str.split` with one separator character gives at least one piece, and no piece holds the separator |
| Strings.TrimLeft | src/terragrunt_gcp_mcp/terragrunt_manager.py:684 | a suffix of the text that does not start with a character of the class, all of whose dropped characters are in the class |
| Strings.TrimRight | src/terragrunt_gcp_mcp/terragrunt_manager.py:684 | a prefix of the text that does not end with a character of the class, all of whose dropped characters are in the class |
| Strings.IndexOfChar | src/terragrunt_gcp_mcp/terragrunt_manager.py:887 | the first position from `from` on that holds the character, or the end |
| Strings.NatToString | src/terragrunt_gcp_mcp/terragrunt_manager.py:771 | the decimal writing of a number is a non-empty run of digits |
| TerragruntManager.ProbeStatus | src/terragrunt_gcp_mcp/terragrunt_manager.py:192-209 | DEPLOYED exactly when the probe completes with exit 0 and non-blank output, UNKNOWN exactly when it raises, NOT_DEPLOYED otherwise |
| TerragruntManager.StatusOf | src/terragrunt_gcp_mcp/terragrunt_manager.py:183-209 | no `.terragrunt-cache` directory gives NOT_DEPLOYED without a probe; otherwise `state list` is run in the unit's directory and decides |
| TerragruntManager.ResourceDependencies | src/terragrunt_gcp_mcp/terragrunt_manager.py:236-270 | a missing or unreadable file gives no dependencies; otherwise one entry per dependency block of the text, in order, each reference resolved |
| TerragruntManager.ResolveAll | src/terragrunt_gcp_mcp/terragrunt_manager.py:256-265 | one entry per block, in order and with duplicates, each the block's resolved `config_path` |
| TerragruntManager.GetResourceDependencies | src/terragrunt_gcp_mcp/terragrunt_manager.py:236-270 | the method returns the dependencies the specification function gives for the file |
| TerragruntManager.ResolveEach | src/terragrunt_gcp_mcp/terragrunt_manager.py:256-265 | the loop over the matches appends exactly the resolved references, in order |
| TerragruntManager.OtherReferencesVerbatim | src/terragrunt_gcp_mcp/terragrunt_manager.py:264-265 | a reference not starting with `../` is recorded as written |
| TerragruntManager.ResolveExample | src/terragrunt_gcp_mcp/terragrunt_manager.py:259-263 | `../d` from `live/a/b/c` is recorded as `live/a/b/d` |
| TerragruntManager.NormPathOfJoin | src/terragrunt_gcp_mcp/terragrunt_manager.py:260-262 | `normpath` of a relative path made of names is the '/'-join of the folded names, or "." when nothing is left |
| TerragruntManager.CreateResource | src/terragrunt_gcp_mcp/terragrunt_manager.py:124-181 | a resource exists exactly when account, environment, project and resource type are non-empty and the type is a known value; it then has the path, the type, the name or else the type's string, the environment, production exactly when the environment contains "prod", the region, the probed status, the dependencies and the configuration |
| TerragruntManager.DiscoverStep | src/terragrunt_gcp_mcp/terragrunt_manager.py:106-120 | one walked directory adds at most one resource |
| TerragruntManager.DiscoverResources | src/terragrunt_gcp_mcp/terragrunt_manager.py:87-122 | the loop over the walk of `live` collects exactly the resources the specification gives, in walk order |
| TerragruntManager.DiscoverOne | src/terragrunt_gcp_mcp/terragrunt_manager.py:98-120 | the loop body for one directory adds what the step function gives |
| TerragruntManager.DiscoveredFrom | src/terragrunt_gcp_mcp/terragrunt_manager.py:97-120 | each collected resource comes from a walked directory holding `terragrunt.hcl`, carries that directory's path below the root, and belongs to the requested environment |
| TerragruntManager.DiscoveredAvoidsCache | src/terragrunt_gcp_mcp/terragrunt_manager.py:97-120 | no discovered resource's path contains `.terragrunt-cache`, and with a filter each has the requested environment |
| TerragruntManager.NoLiveNoResources | src/terragrunt_gcp_mcp/terragrunt_manager.py:90-95 | without a `live` directory discovery returns an empty list |
| TerragruntManager.PlanArgs | src/terragrunt_gcp_mcp/terragrunt_manager.py:358-363 | `[binary, "run", "plan"]`, then `-out=tfplan` unless it is a dry run, then `--backend-bootstrap` |
| TerragruntManager.ApplyArgs | src/terragrunt_gcp_mcp/terragrunt_manager.py:409-425 | `[binary, "run", "apply"]`, then the plan file when one is named or else `-auto-approve`, then `--backend-bootstrap` |
| HclText.QuotedAt | src/terragrunt_gcp_mcp/stack_manager.py:280 | `"([^"]+)"` at a position: a match is the non-empty quote-free text between two quotes and its end; no match means no quote there, an empty pair, or no closing quote |
| HclText.AssignmentAt | src/terragrunt_gcp_mcp/stack_manager.py:257 | `<key>\s*=\s*"..."` at a position: a match starts with the key and ends inside the text |
| HclText.LastAssignment | src/terragrunt_gcp_mcp/stack_manager.py:280 | the greedy `[^}]*` before `config_path` chooses a `config_path` assignment in the given stretch |
| HclText.LastAssignmentIsLast | src/terragrunt_gcp_mcp/stack_manager.py:280 | no assignment starts after the chosen one in that stretch, and none at all when nothing is chosen |
| HclText.DependencyAt | src/terragrunt_gcp_mcp/stack_manager.py:280 | a match starts with `dependency`, has a non-empty quoted label, then '{', then no '}' up to a `config_path = "<p>"` assignment with a non-empty quote-free path; text not starting with `dependency` does not match |
| HclText.DependencyTable | src/terragrunt_gcp_mcp/stack_manager.py:282 | the match at each position, each ending after where it starts |
| HclText.BlocksAreMatches | src/terragrunt_gcp_mcp/stack_manager.py:282-283 | every block `finditer` yields is a match of the pattern at its own start |
| HclText.BlocksDoNotOverlap | src/terragrunt_gcp_mcp/stack_manager.py:282-283 | each block starts at or after the end of the one before |
| HclText.FirstBlockIsLeftmost | src/terragrunt_gcp_mcp/stack_manager.py:282-283 | no match starts before the first block found |
| HclText.BlocksAreLeftmost | src/terragrunt_gcp_mcp/stack_manager.py:282-283 | no match starts between the end of one block and the start of the next, nor after the last |
| HclText.NoKeywordNoBlocks | src/terragrunt_gcp_mcp/stack_manager.py:282-283 | text without the word `dependency` has no dependency block |
| HclText.ConfigPaths | src/terragrunt_gcp_mcp/stack_manager.py:164-165 | one `config_path` value per match, verbatim, in order, duplicates kept |
| HclText.SearchAssignment | src/terragrunt_gcp_mcp/stack_manager.py:257 | `re.search`: a match at the position found, and none before it |
| HclText.LocalsAt | src/terragrunt_gcp_mcp/stack_manager.py:170 | `locals\s*\{([^}]+)\}` at a position: the body is non-empty and holds no '}' |
| HclText.SearchLocals | src/terragrunt_gcp_mcp/utils.py:134 | `re.search` of the locals pattern: a match at the position found, and none before it |
| HclText.LocalsBody | src/terragrunt_gcp_mcp/utils.py:134-138 | a locals body is only found in text containing "locals" |
| HclText.EntryValue | src/terragrunt_gcp_mcp/stack_manager.py:180 | the value, stripped of white space, quotes at both ends and trailing ',', ends in no ',' |
| HclText.LineEntryShape | src/terragrunt_gcp_mcp/stack_manager.py:175-181 | a line sets a key exactly when its stripped text holds '=' and does not start with '#'; the key holds no '=' and the value ends in no ',' |
| HclText.LastLineWins | src/terragrunt_gcp_mcp/stack_manager.py:175-181 | a key's value is the one given by the last line that sets it |
| HclText.UnsetKeysKept | src/terragrunt_gcp_mcp/stack_manager.py:175-181 | a key no line sets is present afterwards exactly when it was before, with its old value |
| HclText.ParseLocals | src/terragrunt_gcp_mcp/utils.py:141-148 | the loop over the body's lines gives the entries applied in order |
| HclText.ApplyEach | src/terragrunt_gcp_mcp/utils.py:142-148 | the loop applies the lines' entries one by one, in order |
| HclText.SetLocal | src/terragrunt_gcp_mcp/utils.py:143-148 | one line: `config[key] = value` when the line holds an entry, nothing otherwise |
| HclText.LoadHclConfig | src/terragrunt_gcp_mcp/utils.py:127-154 | the locals of the first locals block, `{}` without one or for an unreadable file |
| HclText.HclConfigByEntries | src/terragrunt_gcp_mcp/utils.py:127-154 | `load_hcl_config` of a readable text is the first block's line entries applied to `{}` |
| HclText.ParseStackConfig | src/terragrunt_gcp_mcp/stack_manager.py:153-187 | the loop gives the stack configuration: `dependencies`, then the locals lines |
| HclText.CollectConfigPaths | src/terragrunt_gcp_mcp/stack_manager.py:164-165 | the loop appends exactly the `config_path` values, in order |
| HclText.UnreadableStackConfig | src/terragrunt_gcp_mcp/stack_manager.py:185-187 | an unreadable stack file gives `{}`, with no `dependencies` key |
| HclText.StackConfigByEntries | src/terragrunt_gcp_mcp/stack_manager.py:160-183 | the stack configuration is the locals entries, when "locals" occurs, applied over the `dependencies` list |
| HclText.StackDependenciesVerbatim | src/terragrunt_gcp_mcp/stack_manager.py:160-165 | unless a locals line overwrites it, `dependencies` lists the `config_path` values verbatim and in order |
| HclText.LocalsAgree | src/terragrunt_gcp_mcp/utils.py:133-148 | `load_hcl_config` and the stack-file parser read every key but `dependencies` alike |
| HclText.UnitConfig | src/terragrunt_gcp_mcp/stack_manager.py:247-266 | an unreadable file gives `{}`; otherwise `content` is the text, and `source` when present is the value of the leftmost `source = "..."` match |
| HclText.ResourceConfig | src/terragrunt_gcp_mcp/terragrunt_manager.py:211-234 | a missing or unreadable file gives `{}`; text without "source" gives only `content` |
| HclText.ResourceSourceOneLine | src/terragrunt_gcp_mcp/terragrunt_manager.py:227-229 | the source found by splitting is a string within one line |
| HclText.SourceWithoutEqualsDropsConfig | src/terragrunt_gcp_mcp/terragrunt_manager.py:227-233 | with no '=' between the first "source" and the next, the `IndexError` drops the configuration to `{}` |
| HclText.ValidateTerraformConfig | src/terragrunt_gcp_mcp/utils.py:245-276 | the messages for a missing file, an unreadable one, unbalanced braces and a missing include, in that order; valid exactly when the file is readable, its braces balance and it mentions `include` |
| Matching.First | src/terragrunt_gcp_mcp/stack_manager.py:257 | `re.search`: a match at the position found and none between the start and it; no result means no match at all |
| Matching.Last | src/terragrunt_gcp_mcp/stack_manager.py:280 | the rightmost match in a stretch: a match at the position found and none after it; no result means none in the stretch |
| Matching.FindAll | src/terragrunt_gcp_mcp/stack_manager.py:282 | `re.finditer`: each reported start is a match, and each starts at or after the end of the one before |
| Matching.FindAllLeftmost | src/terragrunt_gcp_mcp/stack_manager.py:282 | no match starts before the first reported one, between two, or after the last |
| Matching.FindAllOrdered | src/terragrunt_gcp_mcp/stack_manager.py:282 | any reported match ends no later than the start of every match reported after it |
| Matching.FindAllBefore | src/terragrunt_gcp_mcp/stack_manager.py:282 | no match starts before the first reported one |
| Matching.FindAllBetween | src/terragrunt_gcp_mcp/stack_manager.py:282 | no match starts after the end of a reported match and before the next one |
| Matching.Values | src/terragrunt_gcp_mcp/stack_manager.py:282-283 | one value per reported match, in order |
| Matching.ValuesStep | src/terragrunt_gcp_mcp/stack_manager.py:282-283 | a match at the search position is taken and the search resumes at its end; without one the search moves on by one |
| Matching.CollectAll | src/terragrunt_gcp_mcp/stack_manager.py:282-283 | the `for match in finditer` loop collects exactly the values of the reported matches, in order |
| FileTree.ChildFrom | src/terragrunt_gcp_mcp/terragrunt_manager.py:90-92 | a sub-directory found has the name asked for; none found means no sub-directory has it |
| FileTree.FileAt | src/terragrunt_gcp_mcp/terragrunt_manager.py:213-216 | no file exactly when the directory or the named file does not exist |
| FileTree.PathStringBelow | src/terragrunt_gcp_mcp/terragrunt_manager.py:97 | the path `os.walk` reports for a sub-directory is its parent's path, '/', and its name |
| FileTree.SkippedBelow | src/terragrunt_gcp_mcp/terragrunt_manager.py:99-100 | every directory below one whose path mentions `.terragrunt-cache` is skipped too |
| FileTree.CacheChildSkipped | src/terragrunt_gcp_mcp/terragrunt_manager.py:99-104 | a directory named `.terragrunt-cache` is skipped whether or not it was removed from `dirs` |
| FileTree.SkippedTreeEmpty | src/terragrunt_gcp_mcp/terragrunt_manager.py:99-100 | nothing below a skipped directory passes the skip test |
| FileTree.Unskipped | src/terragrunt_gcp_mcp/terragrunt_manager.py:99-100 | the directories kept are exactly those whose path does not mention `.terragrunt-cache`, in order |
| FileTree.UnskippedAppend | src/terragrunt_gcp_mcp/terragrunt_manager.py:99-100 | the skip test filters each part of a walk separately |
| FileTree.WalkIsUnskippedTree | src/terragrunt_gcp_mcp/terragrunt_manager.py:97-104 | the pruned walk hands over exactly the pre-order directories whose path does not mention `.terragrunt-cache`: removing it from `dirs` loses nothing the skip test would keep |
| FileTree.WalkAvoidsCache | src/terragrunt_gcp_mcp/terragrunt_manager.py:97-104 | no directory the walk hands over has a path mentioning `.terragrunt-cache` |
| Planner.UnitMap | src/terragrunt_gcp_mcp/stack_manager.py:301-302 | the map's keys are exactly the unit paths |
| Planner.LastUnitWins | src/terragrunt_gcp_mcp/stack_manager.py:301 | a path's dependencies are those of the last unit with that path |
| Planner.Unresolved | src/terragrunt_gcp_mcp/stack_manager.py:310-311 | the list of dependencies still waiting is empty exactly when none of them is waiting |
| Planner.Ready | src/terragrunt_gcp_mcp/stack_manager.py:307-312 | a waiting unit is ready exactly when none of its dependencies is still waiting |
| Planner.NextBatch | src/terragrunt_gcp_mcp/stack_manager.py:307-319 | a round's batch is drawn from the waiting units and is never empty while any wait |
| Planner.Layers | src/terragrunt_gcp_mcp/stack_manager.py:297-322 | at most as many batches as units (so none for no units), each non-empty and drawn from the units |
| Planner.LayersUnfold | src/terragrunt_gcp_mcp/stack_manager.py:305-320 | a round emits its batch, removes it from the waiting set, which shrinks, and continues with the rest |
| Planner.LayersPartition | src/terragrunt_gcp_mcp/stack_manager.py:297-322 | the batches are pairwise disjoint and together hold exactly the units |
| Planner.LayersDisjoint | src/terragrunt_gcp_mcp/stack_manager.py:319-320 | no unit is emitted twice |
| Planner.LayersCover | src/terragrunt_gcp_mcp/stack_manager.py:305-320 | every unit is emitted |
| Planner.LayersFrom | src/terragrunt_gcp_mcp/stack_manager.py:305-320 | round `i` goes on from the units still waiting before it |
| Planner.LayerAt | src/terragrunt_gcp_mcp/stack_manager.py:305-320 | batch `i` is what round `i` emits, and the units waiting then are those of batches `i` onwards |
| Planner.DependenciesComeFirst | src/terragrunt_gcp_mcp/stack_manager.py:308-320 | in a round that is not forced, every dependency of an emitted unit that is a unit is in an earlier batch |
| Planner.ReadyResolvedAt | src/terragrunt_gcp_mcp/stack_manager.py:310-312 | a unit of an unforced round has none of its dependencies still waiting |
| Planner.ForcedIsLast | src/terragrunt_gcp_mcp/stack_manager.py:314-317 | a forced round is the last batch, and it holds every unit still waiting |
| Planner.BatchIndex | src/terragrunt_gcp_mcp/stack_manager.py:305-320 | in an unforced round, a unit is in batch 0 exactly when it has no dependency among the units, and otherwise depends on a unit of the batch just before; with the previous row, its index is one more than the largest index among its dependencies |
| Planner.NotFirstRound | src/terragrunt_gcp_mcp/stack_manager.py:305-320 | a unit emitted after the first round has a dependency among the units |
| Planner.PreviousDependency | src/terragrunt_gcp_mcp/stack_manager.py:305-320 | a unit of unforced round `i > 0` depends on a unit of round `i - 1` |
| Planner.WaitingUnresolved | src/terragrunt_gcp_mcp/stack_manager.py:310-312 | a waiting unit left out of an unforced round still waits for a dependency |
| Planner.PreviousUnforced | src/terragrunt_gcp_mcp/stack_manager.py:314-317 | a round followed by another one was not forced |
| Planner.MinimalRank | src/terragrunt_gcp_mcp/stack_manager.py:305-312 | a non-empty set of ranked units has one of least rank |
| Planner.RankedHasReady | src/terragrunt_gcp_mcp/stack_manager.py:305-312 | without a cycle (a ranking in which every dependency ranks lower), every non-empty waiting set has a ready unit |
| Planner.AcyclicNeverForced | src/terragrunt_gcp_mcp/stack_manager.py:314-317 | without a cycle no round is forced, so the ordering rules hold for every batch |
| Planner.DependencyFreeSingleBatch | src/terragrunt_gcp_mcp/stack_manager.py:305-320 | units with no dependency among themselves run as one batch |
| Planner.SelfDependencyNeverReady | src/terragrunt_gcp_mcp/stack_manager.py:310-312 | a unit that depends on itself is never ready |
| Planner.MutualDependencyForced | src/terragrunt_gcp_mcp/stack_manager.py:314-317 | two units that depend on each other are forced out together as the only batch |
| Planner.ReadyUnits | src/terragrunt_gcp_mcp/stack_manager.py:307-312 | the inner loop collects exactly the ready units |
| Planner.CalculateExecutionOrder | src/terragrunt_gcp_mcp/stack_manager.py:295-322 | the while loop returns exactly the rounds of the specification over the unit map and the set of unit paths |
| Planner.OutsideDependenciesNeverBlock | src/terragrunt_gcp_mcp/stack_manager.py:308-312 | a unit whose dependencies all lie outside the unit set runs in the first batch |
| StackManager.ResolveAll | src/terragrunt_gcp_mcp/stack_manager.py:282-291 | one entry per block, in order and with duplicates, each the block's resolved `config_path` |
| StackManager.UnitDependencies | src/terragrunt_gcp_mcp/stack_manager.py:268-293 | an unreadable file gives no dependencies; otherwise one entry per dependency block, in order, a `../` reference resolved against the unit's directory and made relative to the root, any other kept verbatim |
| StackManager.ResolutionsAgree | src/terragrunt_gcp_mcp/stack_manager.py:284-288 | the stack manager's resolution (against the absolute directory, then relative to the root) equals the resource manager's (`normpath` of the joined relative path), when the reference does not climb above the unit's top directory |
| StackManager.RelativeResolution | src/terragrunt_gcp_mcp/terragrunt_manager.py:259-263 | `normpath(unit/ref)` is the '/'-join of the unit's names normalised with the reference's pieces |
| StackManager.AbsoluteResolution | src/terragrunt_gcp_mcp/stack_manager.py:285-287 | the absolute resolution, taken relative to the root, is the '/'-join of the same normalised names |
| StackManager.AbsoluteNormalized | src/terragrunt_gcp_mcp/stack_manager.py:285-286 | `normpath` of the absolute joined path keeps the root's names and normalises the rest like the relative path |
| StackManager.FullPathNames | src/terragrunt_gcp_mcp/stack_manager.py:219 | a unit's full path is '/' followed by the root's and the unit's names |
| StackManager.AbsoluteNames | src/terragrunt_gcp_mcp/stack_manager.py:287 | taking an absolute joined path apart gives its names back |
| StackManager.NamesNormalized | src/terragrunt_gcp_mcp/stack_manager.py:286 | `normpath` leaves a list of plain names unchanged |
| StackManager.JoinPathEndsWith | src/terragrunt_gcp_mcp/stack_manager.py:192 | `os.path.join(a, b)` ends with `b` |
| StackManager.UnitStatus | src/terragrunt_gcp_mcp/stack_manager.py:345-369 | DEPLOYED exactly when the cache directory exists and the probe completes with exit 0 and non-blank output; UNKNOWN exactly when the cache exists and the probe raises; NOT_DEPLOYED otherwise |
| StackManager.UnitStep | src/terragrunt_gcp_mcp/stack_manager.py:201-213 | one walked directory adds at most one unit |
| StackManager.DiscoverStackUnits | src/terragrunt_gcp_mcp/stack_manager.py:189-215 | the loop over the walk of the stack's directory collects exactly the specification's units, in walk order |
| StackManager.DiscoverUnit | src/terragrunt_gcp_mcp/stack_manager.py:201-213 | the loop body for one directory adds what the step function gives |
| StackManager.UnitFrom | src/terragrunt_gcp_mcp/stack_manager.py:201-213 | each unit comes from a walked directory holding `terragrunt.hcl` that is not the stack's own directory with `stack.hcl` |
| StackManager.StackUnitShape | src/terragrunt_gcp_mcp/stack_manager.py:194-241 | a unit's path is its directory's path below the stack, it records its stack, it is named after its last directory, and its path never mentions `.terragrunt-cache` |
| StackManager.SkippedBelowStack | src/terragrunt_gcp_mcp/stack_manager.py:194-196 | a unit path below the stack that mentions the cache directory makes the walked path mention it too |
| StackManager.StackUnitContents | src/terragrunt_gcp_mcp/stack_manager.py:217-241 | each unit carries the dependencies, configuration and status read from its own `terragrunt.hcl` |
| StackManager.MissingStackNoUnits | src/terragrunt_gcp_mcp/stack_manager.py:192-194 | a stack directory that does not exist has no units |
| StackManager.StackStatusOf | src/terragrunt_gcp_mcp/stack_manager.py:324-343 | DEPLOYED exactly when `stack run state list` completes with exit 0, UNKNOWN otherwise, an exception included |
| StackManager.StackDependencies | src/terragrunt_gcp_mcp/stack_manager.py:137 | no `dependencies` key gives an empty list; a list of strings gives those strings; any other value fails the record's validation |
| StackManager.StackFromPath | src/terragrunt_gcp_mcp/stack_manager.py:113-151 | a stack is named after the last name of its path and keeps the path |
| StackManager.CreateStackFromPath | src/terragrunt_gcp_mcp/stack_manager.py:113-151 | the method returns what the specification function gives |
| StackManager.NoStackFileNoStack | src/terragrunt_gcp_mcp/stack_manager.py:118-119 | without `stack.hcl` there is no stack |
| StackManager.StackOrderPartitions | src/terragrunt_gcp_mcp/stack_manager.py:126-145 | a stack's execution order splits its unit paths into disjoint batches, no more batches than units, and its metadata counts the units and the batches |
| StackManager.PathSetSize | src/terragrunt_gcp_mcp/stack_manager.py:302 | there are no more distinct unit paths than units |
| StackManager.StackDependenciesAreConfigPaths | src/terragrunt_gcp_mcp/stack_manager.py:133-137 | a readable stack file whose locals do not set `dependencies` gives a stack whose dependencies are its `config_path` values, verbatim and in order |
| StackManager.UnreadableStackFile | src/terragrunt_gcp_mcp/stack_manager.py:121-147 | an unreadable `stack.hcl` still gives a stack, with an empty configuration and no dependencies |
| StackManager.StackStep | src/terragrunt_gcp_mcp/stack_manager.py:101-107 | one walked directory adds at most one stack, from a directory holding `stack.hcl`, whose name mentions the requested environment |
| StackManager.FlatMapPrefix | src/terragrunt_gcp_mcp/stack_manager.py:93-107 | one more walked directory appends its own results |
| StackManager.FlatMapFrom | src/terragrunt_gcp_mcp/stack_manager.py:93-107 | every collected element comes from the results of one walked directory |
| StackManager.DiscoverStacks | src/terragrunt_gcp_mcp/stack_manager.py:79-111 | the loop collects exactly the specification's stacks: none when the feature is off or `live` is missing |
| StackManager.DiscoverAlong | src/terragrunt_gcp_mcp/stack_manager.py:93-107 | the loop over the walked directories appends each step's stacks in order |
| StackManager.DiscoverStack | src/terragrunt_gcp_mcp/stack_manager.py:101-107 | the loop body for one directory adds what the step function gives |
| StackManager.StackFrom | src/terragrunt_gcp_mcp/stack_manager.py:93-107 | each stack comes from a walked directory holding `stack.hcl`, has that directory's path, and mentions the requested environment in its name |
| StackManager.DiscoveredStacksAvoidCache | src/terragrunt_gcp_mcp/stack_manager.py:93-107 | no discovered stack's path mentions `.terragrunt-cache`, and with a filter each name contains it |
| StackManager.DisabledNoStacks | src/terragrunt_gcp_mcp/stack_manager.py:81-83 | with the feature switched off no stack is discovered |
| StackOutput.MarkerAt | src/terragrunt_gcp_mcp/stack_manager.py:472 | a match at a position starts with "Executing unit:" or "Running in" and captures a non-empty run of non-space characters |
| StackOutput.MarkerTable | src/terragrunt_gcp_mcp/stack_manager.py:472 | the match at every position of the line |
| StackOutput.UnitNamed | src/terragrunt_gcp_mcp/stack_manager.py:472-474 | a line names no unit exactly when the pattern matches nowhere in it |
| StackOutput.NamedHasMarker | src/terragrunt_gcp_mcp/stack_manager.py:469-473 | a line the pattern matches passes the marker test |
| StackOutput.Step | src/terragrunt_gcp_mcp/stack_manager.py:467-486 | one line keeps `current_unit` naming a record and drops no record |
| StackOutput.ScanLines | src/terragrunt_gcp_mcp/stack_manager.py:467-486 | the loop keeps `current_unit` naming a record |
| StackOutput.ParseStackOutput | src/terragrunt_gcp_mcp/stack_manager.py:457-493 | the two loops return exactly the specification's records over the stdout lines then the stderr lines |
| StackOutput.ScanLine | src/terragrunt_gcp_mcp/stack_manager.py:467-486 | the loop body updates the records and the current unit as one step says |
| StackOutput.SettleAll | src/terragrunt_gcp_mcp/stack_manager.py:489-491 | the second loop marks each running record without errors completed and changes nothing else |
| StackOutput.StepTracking | src/terragrunt_gcp_mcp/stack_manager.py:467-486 | during the first loop no record is completed, and a record is failed exactly when it has errors |
| StackOutput.ScanTracking | src/terragrunt_gcp_mcp/stack_manager.py:467-486 | that invariant holds over the whole first loop |
| StackOutput.ResultsSettled | src/terragrunt_gcp_mcp/stack_manager.py:457-493 | every returned record is "completed" or "failed", and "failed" exactly when its errors list is non-empty |
| StackOutput.ScanKeys | src/terragrunt_gcp_mcp/stack_manager.py:467-479 | the records are keyed by exactly the units that lines name |
| StackOutput.ResultKeys | src/terragrunt_gcp_mcp/stack_manager.py:457-493 | the returned records are keyed by exactly the units the output's lines name |
| StackOutput.StepKeys | src/terragrunt_gcp_mcp/stack_manager.py:467-479 | after a line, the keys are the earlier ones plus the unit the line names |
| StackOutput.ScanAppend | src/terragrunt_gcp_mcp/stack_manager.py:464-467 | scanning stdout's lines then stderr's is scanning the second from where the first leaves off |
| StackOutput.UnnamedLinesIgnored | src/terragrunt_gcp_mcp/stack_manager.py:481 | lines naming no unit, with no current unit, change nothing |
| StackOutput.LeadingLinesDropped | src/terragrunt_gcp_mcp/stack_manager.py:465-481 | lines before the first unit marker are dropped |
| StackOutput.MarkerResets | src/terragrunt_gcp_mcp/stack_manager.py:473-479 | a line naming a unit starts a fresh running record for it, even a repeated one, and makes it current |
| StackOutput.LineRecorded | src/terragrunt_gcp_mcp/stack_manager.py:481-486 | a non-blank non-marker line after a marker is recorded stripped: among the errors, marking the unit failed, when it holds "Error:" or "Failed:", else among the output |
| StackRun.StackRunArgs | src/terragrunt_gcp_mcp/stack_manager.py:421-424 | `[binary, "stack", "run"]`, then `--dry-run` for a dry run, then the command: the flag is passed on, not acted upon |
| StackRun.EndOf | src/terragrunt_gcp_mcp/stack_manager.py:437-455 | DEPLOYED exactly when the run exits with 0, FAILED otherwise; an error message exactly when FAILED, the stderr on a non-zero exit and the exception's message when it raises; a completed run's unit results are the parsed output, a raised one has none |
| StackRun.StackExecution.constructor | src/terragrunt_gcp_mcp/stack_manager.py:405-417 | a new record is PLANNING, with no completion time, no error and no unit results |
| StackRun.ExecuteStackCommand | src/terragrunt_gcp_mcp/stack_manager.py:391-455 | without a stack no run happens and "Stack not found: <path>" is reported; otherwise a new record with the id, path, command, start time, plan and metadata, completed at the given time, with status, error and unit results as the run's ending says |
| StackRun.Run | src/terragrunt_gcp_mcp/stack_manager.py:419-455 | the run moves the record to APPLYING, then to its ending, setting the completion time on both paths |
| PlanSummary.NumberThen | src/terragrunt_gcp_mcp/utils.py:220 | `(\d+)` then a fixed text: a match ends after where it starts and inside the text |
| PlanSummary.CountsAt | src/terragrunt_gcp_mcp/utils.py:219-222 | a match of the plan line starts with "Plan: " |
| PlanSummary.CountsTable | src/terragrunt_gcp_mcp/utils.py:219-222 | the plan-line match at every position |
| PlanSummary.ChangeAt | src/terragrunt_gcp_mcp/utils.py:235 | a change match starts with "# ", names a non-empty run of non-space characters, and its action is created, destroyed or updated |
| PlanSummary.ChangeTable | src/terragrunt_gcp_mcp/utils.py:235-236 | the change match at every position, each ending after where it starts |
| PlanSummary.ExtractPlanSummary | src/terragrunt_gcp_mcp/utils.py:208-242 | the method returns the summary the specification gives |
| PlanSummary.CollectChanges | src/terragrunt_gcp_mcp/utils.py:236-240 | the loop over `finditer` appends exactly the reported changes, in order |
| PlanSummary.SummaryCounts | src/terragrunt_gcp_mcp/utils.py:210-232 | the counts are those of the first plan line, or all zero with no changes without one; there are changes exactly when a count is non-zero |
| PlanSummary.FirstCountsLeftmost | src/terragrunt_gcp_mcp/utils.py:219-222 | no counts exactly when no position matches; otherwise the counts come from a match with none before it |
| PlanSummary.ChangesAreMatches | src/terragrunt_gcp_mcp/utils.py:235-240 | every reported change is the change match at some position |
| PlanSummary.ChangesLeftmost | src/terragrunt_gcp_mcp/utils.py:235-240 | no change match starts outside the reported ones |
| GraphFormats.ArrowsApart | src/terragrunt_gcp_mcp/terragrunt_manager.py:887 | two occurrences of "->" are at least two characters apart |
| GraphFormats.TwoParts | src/terragrunt_gcp_mcp/terragrunt_manager.py:887-888 | splitting at "->" gives two sides exactly when no other "->" follows the first, and they are the text before and after it |
| GraphFormats.AnotherArrow | src/terragrunt_gcp_mcp/terragrunt_manager.py:887-888 | after the first "->" another one follows exactly when "->" occurs anywhere else |
| GraphFormats.SplitEdgeOneArrow | src/terragrunt_gcp_mcp/terragrunt_manager.py:886-890 | a stripped line yields an edge exactly when "->" occurs in it exactly once, and the ends are the stripped texts on either side |
| GraphFormats.EdgeIffOneArrow | src/terragrunt_gcp_mcp/terragrunt_manager.py:882-890 | the same for a raw output line, which is stripped first |
| GraphFormats.Edges | src/terragrunt_gcp_mcp/terragrunt_manager.py:882-891 | no more edges than lines |
| GraphFormats.EdgesAppend | src/terragrunt_gcp_mcp/terragrunt_manager.py:882-891 | each line contributes its own edges, in order, duplicates kept |
| GraphFormats.EdgesOfLine | src/terragrunt_gcp_mcp/terragrunt_manager.py:882-891 | a single line gives its own edge, if any |
| GraphFormats.EndpointsMembers | src/terragrunt_gcp_mcp/terragrunt_manager.py:892-893 | the node set holds exactly the ends of the edges |
| GraphFormats.EndpointsSnoc | src/terragrunt_gcp_mcp/terragrunt_manager.py:891-893 | one more edge adds its two ends to the node set |
| GraphFormats.ScrapeEdges | src/terragrunt_gcp_mcp/terragrunt_manager.py:879-893 | the loop collects the edges the lines name, in order, and the set of their ends |
| GraphFormats.AddEdge | src/terragrunt_gcp_mcp/terragrunt_manager.py:883-893 | the loop body appends the line's edge, if any, and keeps the node set equal to the ends of the edges |
| GraphFormats.NodeId | src/terragrunt_gcp_mcp/terragrunt_manager.py:899 | an identifier of the same length with every '/' and '-' turned into '_' and nothing else changed |
| GraphFormats.Label | src/terragrunt_gcp_mcp/terragrunt_manager.py:900 | the label is a '/'-free suffix of the name |
| GraphFormats.Filter | src/terragrunt_gcp_mcp/terragrunt_manager.py:896-906 | filtering keeps no more than it is given |
| GraphFormats.FilterMembers | src/terragrunt_gcp_mcp/terragrunt_manager.py:896-906 | an element is kept exactly when it is in the list and passes the environment test |
| GraphFormats.FilterAll | src/terragrunt_gcp_mcp/terragrunt_manager.py:897 | a test that passes every element keeps the list as it is |
| GraphFormats.Render | src/terragrunt_gcp_mcp/terragrunt_manager.py:896-909 | one text line per element, in order |
| GraphFormats.WriteKept | src/terragrunt_gcp_mcp/terragrunt_manager.py:896-909 | the loop appends one line per element that passes the filter, in order |
| GraphFormats.ConvertToDot | src/terragrunt_gcp_mcp/terragrunt_manager.py:872-917 | the edges are all edges of the output, unfiltered, and the nodes all their ends, in set order; the text is the header, a node line per kept node, an edge line per kept edge and "}", joined by newlines |
| GraphFormats.ConvertToMermaid | src/terragrunt_gcp_mcp/terragrunt_manager.py:919-956 | the same unfiltered edges and nodes; the text is "graph TD" and a line per kept edge, joined by newlines |
| GraphFormats.UnfilteredDot | src/terragrunt_gcp_mcp/terragrunt_manager.py:872-917 | without a filter the DOT text has a node line per node, an edge line per edge and four lines of frame |
| GraphFormats.UnfilteredNames | src/terragrunt_gcp_mcp/terragrunt_manager.py:897 | without a filter every node is kept |
| GraphFormats.UnfilteredEdges | src/terragrunt_gcp_mcp/terragrunt_manager.py:905 | without a filter every edge is kept |
| GraphFormats.UnfilteredMermaid | src/terragrunt_gcp_mcp/terragrunt_manager.py:940-950 | without a filter the Mermaid text has one line per edge, in the edges' order |
| TreeRender.FoundLine | src/terragrunt_gcp_mcp/terragrunt_manager.py:683-702 | a line describes a resource exactly when, stripped, it is non-empty, not a `#` comment and holds a '/'; the resource's path is the stripped line and it has no dependencies |
| TreeRender.FoundAll | src/terragrunt_gcp_mcp/terragrunt_manager.py:680-704 | no more resources than lines |
| TreeRender.ParseFindOutput | src/terragrunt_gcp_mcp/terragrunt_manager.py:678-704 | the method returns the resources of the stripped output's lines |
| TreeRender.ParseFindLines | src/terragrunt_gcp_mcp/terragrunt_manager.py:683-702 | the loop appends each line's resource, in order |
| TreeRender.FoundAllStep | src/terragrunt_gcp_mcp/terragrunt_manager.py:683-702 | one more line adds its own resource, if any |
| TreeRender.LiveParts | src/terragrunt_gcp_mcp/terragrunt_manager.py:691 | prefixing "live/" adds the segment "live" in front of the line's own non-empty segments |
| TreeRender.FoundFields | src/terragrunt_gcp_mcp/terragrunt_manager.py:691-699 | a listed resource has its account exactly when its path has three segments; its type is absent exactly when no fourth segment is left after an optional region; its name is absent exactly when its type is |
| TreeRender.TypeAbsent | src/terragrunt_gcp_mcp/utils.py:57-82 | the path grammar finds no resource type exactly when too few segments remain after `live`, the account, the environment, the project and an optional region |
| TreeRender.ChildIndex | src/terragrunt_gcp_mcp/terragrunt_manager.py:735 | the index found holds a child of that name with none before it, or is past the end when there is none |
| TreeRender.Insert | src/terragrunt_gcp_mcp/terragrunt_manager.py:731-746 | inserting below a node never changes the node's own fields |
| TreeRender.Reach | src/terragrunt_gcp_mcp/terragrunt_manager.py:732-733 | insertion stops between the part it starts at and the end of the path |
| TreeRender.InsertLookup | src/terragrunt_gcp_mcp/terragrunt_manager.py:731-746 | after inserting a path, every node that existed is still there with its own fields, and a path newly present is exactly a run of the inserted parts, holding the node the resource creates for that part |
| TreeRender.AlongStep | src/terragrunt_gcp_mcp/terragrunt_manager.py:731-746 | a run from one part is that part followed by a run from the next |
| TreeRender.SameChildIndex | src/terragrunt_gcp_mcp/terragrunt_manager.py:735 | children with the same names are searched alike |
| TreeRender.AppendChildIndex | src/terragrunt_gcp_mcp/terragrunt_manager.py:735-743 | a child added at the end is found only when no earlier child has its name |
| TreeRender.InsertBelowExisting | src/terragrunt_gcp_mcp/terragrunt_manager.py:735-746 | when the part's child exists, insertion below it keeps the lookups as stated |
| TreeRender.InsertIntoExisting | src/terragrunt_gcp_mcp/terragrunt_manager.py:735-746 | the same for a path that goes through the reused child |
| TreeRender.InsertBesideExisting | src/terragrunt_gcp_mcp/terragrunt_manager.py:735-746 | the same for a path that leaves the reused child aside |
| TreeRender.InsertBelowNew | src/terragrunt_gcp_mcp/terragrunt_manager.py:735-746 | when the part's child is new, insertion below it keeps the lookups as stated |
| TreeRender.InsertIntoNew | src/terragrunt_gcp_mcp/terragrunt_manager.py:736-746 | the same for a path through the new child |
| TreeRender.InsertBesideNew | src/terragrunt_gcp_mcp/terragrunt_manager.py:736-746 | the same for a path beside the new child |
| TreeRender.BuildTreeStructure | src/terragrunt_gcp_mcp/terragrunt_manager.py:706-748 | the method returns the trie of the resources' paths, inserted in order |
| TreeRender.BuiltRoot | src/terragrunt_gcp_mcp/terragrunt_manager.py:713-720 | the root stays "Infrastructure" of type "root" whatever is inserted |
| TreeRender.BuiltContainsPaths | src/terragrunt_gcp_mcp/terragrunt_manager.py:723-746 | every prefix of every resource's path, up to where `max_depth` stops it, can be looked up in the tree |
| TreeRender.TypeInfo | src/terragrunt_gcp_mcp/terragrunt_manager.py:767 | the type suffix is empty exactly for folders and for a missing or empty type |
| TreeRender.DepInfo | src/terragrunt_gcp_mcp/terragrunt_manager.py:768-771 | the dependency suffix is empty exactly when the node has no dependencies |
| TreeRender.RenderNode | src/terragrunt_gcp_mcp/terragrunt_manager.py:754-781 | the recursive method appends exactly the pre-order lines of the node's sub-trie |
| TreeRender.RenderChildNodes | src/terragrunt_gcp_mcp/terragrunt_manager.py:777-781 | the loop appends the lines of each child in turn, the last child drawn as the last |
| TreeRender.RenderUnfold | src/terragrunt_gcp_mcp/terragrunt_manager.py:754-781 | a drawn node gives its own line followed by its children's lines |
| TreeRender.RenderChildrenStep | src/terragrunt_gcp_mcp/terragrunt_manager.py:778-781 | one more child adds its own lines at the end |
| TreeRender.GenerateTreeVisual | src/terragrunt_gcp_mcp/terragrunt_manager.py:750-784 | the outline is the rendering of the root at level 0 with an empty prefix |
| TreeRender.RenderCount | src/terragrunt_gcp_mcp/terragrunt_manager.py:754-781 | the outline has one line per node not deeper than `max_depth`, whatever the prefixes |
| TreeRender.RenderChildrenCount | src/terragrunt_gcp_mcp/terragrunt_manager.py:778-781 | the same for the first children of a node |
| TreeRender.CountStep | src/terragrunt_gcp_mcp/terragrunt_manager.py:774-781 | appended lines add up |
| TreeRender.RenderKeepsPrefix | src/terragrunt_gcp_mcp/terragrunt_manager.py:773-781 | below the root, every line of a sub-trie starts with the prefix handed to it |
| TreeRender.RenderChildrenKeepPrefix | src/terragrunt_gcp_mcp/terragrunt_manager.py:778-781 | the same for the first children of a node |
| TreeRender.ConcatKeepsPrefix | src/terragrunt_gcp_mcp/terragrunt_manager.py:774 | two lists of lines with a common prefix keep it when joined |
| TreeRender.RootLine | src/terragrunt_gcp_mcp/terragrunt_manager.py:755-774 | the outline of a built tree is empty exactly when `max_depth` is negative, and otherwise opens with "Infrastructure (root)" |
| TreeRender.RootLineOf | src/terragrunt_gcp_mcp/terragrunt_manager.py:755-774 | the same for any tree whose root has the root's fields |
| TreeRender.EdgeLines | src/terragrunt_gcp_mcp/terragrunt_manager.py:795-796 | one entry per dependency |
| TreeRender.Indented | src/terragrunt_gcp_mcp/terragrunt_manager.py:806-807 | each entry, in order, with two spaces in front |
| TreeRender.CollectDependencies | src/terragrunt_gcp_mcp/terragrunt_manager.py:791-799 | the recursive method appends the `dep -> path` entries of the sub-trie, in pre-order |
| TreeRender.ChildEdgesStep | src/terragrunt_gcp_mcp/terragrunt_manager.py:798-799 | one more child adds its own entries at the end |
| TreeRender.AppendEdgeLines | src/terragrunt_gcp_mcp/terragrunt_manager.py:795-796 | the loop appends one entry per dependency, in order |
| TreeRender.GenerateDagVisual | src/terragrunt_gcp_mcp/terragrunt_manager.py:786-811 | the method returns the heading and the indented entries, or "No dependencies found" |
| TreeRender.IndentEdges | src/terragrunt_gcp_mcp/terragrunt_manager.py:806-807 | the loop appends every entry indented |
| TreeRender.FreeNoEdges | src/terragrunt_gcp_mcp/terragrunt_manager.py:791-799 | a sub-trie without dependencies gives no entries |
| TreeRender.FreeChildrenNoEdges | src/terragrunt_gcp_mcp/terragrunt_manager.py:798-799 | the same for the first children of a node |
| TreeRender.InsertKeepsFree | src/terragrunt_gcp_mcp/terragrunt_manager.py:742 | inserting a resource that brings no dependencies keeps a tree free of them |
| TreeRender.BuiltFree | src/terragrunt_gcp_mcp/terragrunt_manager.py:723-746 | a tree built without dependencies, or from resources without any, has none |
| TreeRender.FoundAllFree | src/terragrunt_gcp_mcp/terragrunt_manager.py:700 | no listed resource has dependencies |
| TreeRender.NoDependenciesFound | src/terragrunt_gcp_mcp/terragrunt_manager.py:700-809 | the dependency view of a tree from `terragrunt find` output, or built without dependencies, is always "No dependencies found" |
| VersionScript.JoinAvoids | scripts/update_version.py:89 | a character in neither the parts nor the separator is not in their join |
| VersionScript.IndexAfter | scripts/update_version.py:89 | the first `c` of `a + c + b` is the one after `a` when `a` has none |
| VersionScript.JoinThree | scripts/update_version.py:89 | three numbers joined by a separator |
| VersionScript.IdentAvoids | scripts/update_version.py:89 | an identifier of `[0-9a-zA-Z-]` holds no '.', '+' or newline |
| VersionScript.NumericAvoids | scripts/update_version.py:89 | a numeric identifier holds no hyphen |
| VersionScript.BeforeAfter | scripts/update_version.py:89 | a text is what precedes its first `c` followed by that `c` and the identifiers after it |
| VersionScript.BeforeAfterOf | scripts/update_version.py:89 | splitting at the first `c` gives back the text and the identifiers it was built from |
| VersionScript.BodyCases | scripts/update_version.py:89-91 | `$` matches at the end or before one final newline |
| VersionScript.ParseSound | scripts/update_version.py:86-95 | a version the pattern accepts is well formed, and the text is exactly its formatting, perhaps followed by one newline |
| VersionScript.WellFormedAvoids | scripts/update_version.py:89 | every part of a well-formed version is made of identifier characters, and the three numbers hold no hyphen |
| VersionScript.IdentsAvoid | scripts/update_version.py:89 | dot-joined identifiers hold no '+' or newline |
| VersionScript.FormatBody | scripts/update_version.py:89-91 | a formatted version, with or without one final newline, is matched as the formatted text |
| VersionScript.FormatSplits | scripts/update_version.py:89 | a formatted version splits at '+' and '-' into its numbers, pre-release and build identifiers |
| VersionScript.FormatParses | scripts/update_version.py:86-95 | the pattern reads every well-formed version back, also with a final newline |
| VersionScript.ValidateIff | scripts/update_version.py:86-95 | a version is accepted exactly when it is the formatting of a well-formed version, perhaps followed by one newline |
| VersionScript.NumericIdentCanonical | scripts/update_version.py:89 | `0|[1-9]\d*` accepts exactly the numerals that are the canonical decimal of their own value |
| VersionScript.NumericInit | scripts/update_version.py:89 | a longer numeric identifier starts with a non-zero digit and stays numeric without its last digit |
| VersionScript.ZeroLed | scripts/update_version.py:89 | a longer digit string that is not a numeric identifier starts with '0' |
| VersionScript.NumeralCanonical | scripts/update_version.py:89 | a canonical numeral stays canonical with one more digit |
| VersionScript.DigitsValueMod | scripts/update_version.py:89 | the last digit of a numeral is its value modulo ten, the rest its value divided by ten |
| VersionScript.LeadingDigitPositive | scripts/update_version.py:89 | a numeral without a leading zero has a positive value |
| VersionScript.LeadingZeroValue | scripts/update_version.py:89 | a longer numeral with a leading zero is not the decimal of its own value |
| VersionScript.NatToStringLead | scripts/update_version.py:89 | only zero is written with a leading '0', and numbers from ten up take two digits or more |
| VersionScript.AssignmentAt | scripts/update_version.py:19-22 | a match of `<key>\s*=\s*"[^"]*"` at a position covers the text from there to where it ends, which is past the position and inside the content |
| VersionScript.AssignmentTable | scripts/update_version.py:19-22 | the match at every position, each ending after where it starts |
| VersionScript.AllReadValues | scripts/update_version.py:22 | the scan sees only copies of the replacement exactly when every match `re.sub` finds is one |
| VersionScript.AllEqualCons | scripts/update_version.py:22 | all matches equal the replacement exactly when the first does and the rest do |
| VersionScript.SubFromKeeps | scripts/update_version.py:22 | substituting matches that already read the replacement leaves the text as it was |
| VersionScript.SubFromKeepsOnlyCopies | scripts/update_version.py:22 | conversely, a substitution that leaves the text as it was met only such matches |
| VersionScript.ReplacementLayout | scripts/update_version.py:20 | `<key> = "<version>"` is the key, a space, '=', a space and the quoted version |
| VersionScript.ReplacementMatches | scripts/update_version.py:19-22 | the replacement text, with a version free of quotes, is itself a match of the pattern |
| VersionScript.CopiesMatch | scripts/update_version.py:19-22 | every copy of the replacement in the content is a match covering exactly that copy |
| VersionScript.SubstituteKeepsOnlyCopies | scripts/update_version.py:22-24 | content that the substitution leaves as it was holds only matches that already read the replacement |
| VersionScript.SubstituteKeeps | scripts/update_version.py:22-24 | content whose matches all read the replacement comes back unchanged |
| VersionScript.SubstituteUnchangedIff | scripts/update_version.py:22-24 | with a version free of quotes, the substitution changes nothing exactly when every assignment found already reads `<key> = "<version>"` |
| VersionScript.NoAssignmentUnchanged | scripts/update_version.py:22-30 | content without an assignment comes back unchanged, so nothing is written |
| VersionScript.SuffixKeyMatches | scripts/update_version.py:19 | a longer key that ends in the key, such as `python_version`, is matched from where the key starts |
| VersionScript.TextFile.constructor | scripts/update_version.py:16 | a file with the given contents, readability and writability |
| VersionScript.TextUpdatesIff | scripts/update_version.py:13-34 | a readable, writable file is updated exactly when some assignment in it does not already read `<key> = "<version>"`, so stamping the version a file already has reports failure |
| VersionScript.UpdateAssignment | scripts/update_version.py:13-58 | the update reports success exactly when the file's content is read, changed by the substitution and written back, and the file then holds the substituted content; otherwise it is untouched |
| VersionScript.UpdatePyprojectToml | scripts/update_version.py:13-34 | the same for the key `version` |
| VersionScript.UpdateInitPy | scripts/update_version.py:37-58 | the same for the key `__version__` |
| VersionScript.PackageJson.constructor | scripts/update_version.py:63-70 | a manifest that exists or not, with its decoded document |
| VersionScript.UpdatePackageJson | scripts/update_version.py:61-83 | a missing manifest counts as success and stays missing; otherwise success exactly when the document is an object and can be written, and then its "version" key holds the new version |
| VersionScript.UpdateVersion | scripts/update_version.py:98-164 | an invalid version or a dry run changes no file; after a real run with a valid version each text file holds its substituted text exactly when its update succeeded and is otherwise unchanged, and `package.json`'s document has the new "version" key exactly when it exists and its update succeeded; the exit status is 0 exactly when the version is valid, both required files exist and, outside a dry run, all three updates succeed |

## Left out

- Output formatting: JSON encoding and indentation of results, `print` and logging output, and the prose of the three system prompts (three distinct constants stand for them).
- StackRun.ExecuteStackCommand: `execute_stack_command` raises `Exception("Stack not found: <path>")` when there is no stack; the model returns no record and that message instead of raising.
- `run_command` (src/terragrunt_gcp_mcp/utils.py:156-205) is the runner parameter. The real one returns exit code -1 with a message instead of raising; the model lets the runner raise, as the callers expect.
- `_prepare_environment`: the environment variables it adds depend on the ambient environment and working directory. The runner does not see them.
- Timestamps and modification times: `datetime.now()`, `_get_last_modified`, `_get_stack_created_time`, `_get_unit_last_modified`. The execution record's start and completion times are clock parameters.
- `discover_resources`' per-unit exception handler has nothing to catch here. Every probe, read and scan handles its own failure, so a unit is skipped only when it is not classified.
- The shell-outs of `draw_resource_tree`, `get_dependency_graph`, `get_state_info` and `get_stack_outputs`, and `validate_resource`, `destroy_resource`, `run_custom_command` and `_ensure_initialized`. Only the parsers and renderers over a given output are modelled, plus the argument vectors of plan and apply.
- `calculate_health_score` and `format_duration` (floating point); `get_git_info`, `find_files_by_pattern`, `generate_resource_id`, `safe_json_loads`, `setup_logging` (library calls); `server.py`, `cli.py`, `cost_manager.py` and `config.py` (tool registration, console output, cloud billing clients and configuration loading).
- Character classes are ASCII: `str.lower` and regex `\d` ignore non-ASCII letters and digits; white space (`str.isspace`, `str.strip()`, regex `\s`) is exactly the space, '\t', '\n', '\r', '\v', '\f' and U+001C to U+001F, so non-ASCII spaces such as U+0085 and U+00A0 are not white space here.
- Where the source builds a dictionary (configurations, locals, per-unit results, merged configurations), the model uses a map, so insertion order is not modelled.
- A batch of the execution order is a set of unit paths. The Python list order inside a batch is set-iteration order, which the code does not fix.
- The DOT node list comes from a Python set. Its order is a parameter of the converter, so any enumeration of the node set is allowed.
- The repository root is an absolute, normalized path. Stack paths are taken as '/'-separated names below it.
- The trie of `_build_tree_structure` is a value rebuilt along the inserted path, not a dictionary changed in place. Aliasing between nodes is not modelled; the source has none.
- `TerragruntStack`, `TerragruntUnit`, `StackExecution`, `StackStatus` and `UnitType` are not defined in `models.py`. They are defined here from the way `stack_manager.py` and `server.py` use them.
- The substitution in the release script inserts the replacement literally. `re.sub` would interpret backslash escapes in it, but a version that passes the semantic-version check holds no backslash.
- `update_package_json` rewrites the file as indented JSON. The model changes only the decoded document's `"version"` key; the file's text layout is not modelled.
- tests/test_utils.py:36-46 expects a three-segment path to be partly parsed. `parse_terragrunt_path` needs at least four segments starting with `live`; the model follows the code.
- The two environment classifiers differ. `get_environment_type` lowercases and looks for "prod", "production" or "live". `_create_resource_from_path` looks for a case-sensitive "prod". Each is modelled as written, and `Naming.ClassificationsAgree` states where they agree.
