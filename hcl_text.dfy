/**
 * The best-effort scans of definition-file text: `dependency "<label>" {
 * ... config_path = "<path>"` blocks, `source = "<s>"` assignments and the
 * `locals { ... }` block with its `key = value` lines.
 *
 * Each regular expression is modelled by a deterministic matcher at one
 * position, and `re.search` / `re.finditer` by the leftmost scan over
 * positions. The patterns used have at most one way of matching at a
 * position: `\s*` and `\s+` stop at the first non-space, `"([^"]+)"` stops at
 * the next quote, and the greedy `[^}]*` before `config_path` settles on the
 * LAST `config_path` assignment that starts before the block's first '}'.
 */
module HclText {
  import opened Wrappers
  import opened Strings
  import opened Models
  import opened FileTree
  import opened Matching

  /** A match of `"([^"]+)"`: the quoted text and the index just past the closing quote. */
  datatype Quoted = Quoted(text: string, end: nat)

  function QuotedAt(s: string, j: nat): (r: Option<Quoted>)
    requires j <= |s|
    ensures r.Some? ==> (j + 2 < r.value.end + 1 && r.value.end <= |s| && s[j] == '"' && s[r.value.end - 1] == '"'
      && r.value.text == s[j + 1..r.value.end - 1] && r.value.text != "" && '"' !in r.value.text)
    ensures r.None? ==> j == |s| || s[j] != '"' || j + 1 == |s| || s[j + 1] == '"' || '"' !in s[j + 1..]
  {
    if j < |s| && s[j] == '"' then
      var q := IndexOfChar(s, '"', j + 1);
      if j + 1 < q < |s| then
        var text := s[j + 1..q];
        assert forall k :: 0 <= k < |text| ==> text[k] == s[j + 1 + k];
        Some(Quoted(s[j + 1..q], q + 1))
      else
        var rest := s[j + 1..];
        assert q == |s| ==> forall k :: 0 <= k < |rest| ==> rest[k] == s[j + 1 + k];
        None
    else None
  }

  /** A match of `<key>\s*=\s*"([^"]+)"` starting at `p`. */
  function AssignmentAt(s: string, key: string, p: nat): (r: Option<Quoted>)
    requires p <= |s|
    ensures r.Some? ==> (OccursAt(s, key, p) && p + |key| < r.value.end <= |s|
      && r.value.text != "" && '"' !in r.value.text && s[r.value.end - 1] == '"')
  {
    if !OccursAt(s, key, p) then None
    else
      var e := SkipSpace(s, p + |key|);
      if e < |s| && s[e] == '=' then QuotedAt(s, SkipSpace(s, e + 1)) else None
  }

  /** The assignment matched at each position of `s`, the end of the text included. */
  function AssignmentTable(s: string, key: string): (t: seq<Option<Quoted>>)
    ensures |t| == |s| + 1 && forall p :: 0 <= p <= |s| ==> t[p] == AssignmentAt(s, key, p)
  {
    seq(|s| + 1, p requires 0 <= p <= |s| => AssignmentAt(s, key, p))
  }

  /**
   * The start in `[lo, hi)` that the greedy `[^}]*` lets `key` begin at: the
   * last one where the assignment matches.
   */
  function LastAssignment(s: string, key: string, lo: nat, hi: nat): (r: Option<(nat, Quoted)>)
    requires lo <= hi <= |s|
    ensures r.Some? ==> lo <= r.value.0 < hi && AssignmentAt(s, key, r.value.0) == Some(r.value.1)
  {
    var t := AssignmentTable(s, key);
    match Last(t, lo, hi)
    case Some(p) => Some((p, t[p].value))
    case None => None
  }

  /** No assignment starts after the chosen one, and none at all when there is no choice. */
  lemma LastAssignmentIsLast(s: string, key: string, lo: nat, hi: nat)
    requires lo <= hi <= |s|
    ensures var r := LastAssignment(s, key, lo, hi);
      forall p :: (if r.Some? then r.value.0 + 1 else lo) <= p < hi ==> AssignmentAt(s, key, p).None?
  {
    var t := AssignmentTable(s, key);
    var last := Last(t, lo, hi);
    forall p | (if last.Some? then last.value + 1 else lo) <= p < hi
      ensures AssignmentAt(s, key, p).None?
    {
      assert t[p].None?;
    }
  }

  /** One match of `dependency\s+"([^"]+)"\s*\{[^}]*config_path\s*=\s*"([^"]+)"`. */
  datatype DependencyBlock = DependencyBlock(start: nat, name: string, brace: nat, pathAt: nat, configPath: string, end: nat)

  const DependencyKeyword := "dependency"
  const ConfigPathKey := "config_path"

  /** The dependency-block pattern matched at `i`. */
  function DependencyAt(s: string, i: nat): (r: Option<DependencyBlock>)
    requires i <= |s|
    ensures r.Some? ==> var m := r.value;
      m.start == i && OccursAt(s, DependencyKeyword, i) && i < m.brace < m.pathAt < m.end <= |s|
      && m.name != "" && '"' !in m.name
      && s[m.brace] == '{' && '}' !in s[m.brace + 1..m.pathAt]
      && AssignmentAt(s, ConfigPathKey, m.pathAt) == Some(Quoted(m.configPath, m.end))
      && m.configPath != "" && '"' !in m.configPath
    ensures !OccursAt(s, DependencyKeyword, i) ==> r.None?
  {
    if !OccursAt(s, DependencyKeyword, i) then None
    else
      var w := SkipSpace(s, i + |DependencyKeyword|);
      if w == i + |DependencyKeyword| then None
      else
        match QuotedAt(s, w)
        case None => None
        case Some(quotedName) =>
          var b := SkipSpace(s, quotedName.end);
          if b < |s| && s[b] == '{' then
            var c := IndexOfChar(s, '}', b + 1);
            match LastAssignment(s, ConfigPathKey, b + 1, c)
            case Some((p, v)) =>
              assert '}' !in s[b + 1..p] by {
                var between := s[b + 1..p];
                assert forall k :: 0 <= k < |between| ==> between[k] == s[b + 1 + k];
              }
              Some(DependencyBlock(i, quotedName.text, b, p, v.text, v.end))
            case None => None
          else None
  }

  /** A match as a `finditer` table entry: the block and where it ends. */
  function BlockEntry(m: Option<DependencyBlock>): Option<(DependencyBlock, nat)>
  {
    match m
    case Some(b) => Some((b, b.end))
    case None => None
  }

  /** The dependency-block match at each position of `s`. */
  function DependencyTable(s: string): (t: seq<Option<(DependencyBlock, nat)>>)
    ensures |t| == |s| && Advancing(t)
    ensures forall p :: 0 <= p < |s| ==> t[p] == BlockEntry(DependencyAt(s, p))
  {
    seq(|s|, p requires 0 <= p < |s| => BlockEntry(DependencyAt(s, p)))
  }

  /** `re.finditer` of the dependency pattern from `from`: leftmost matches, each search resuming where the last match ended. */
  function DependencyBlocks(s: string, from: nat): (r: seq<DependencyBlock>)
    requires from <= |s|
  {
    var t := DependencyTable(s);
    Values(t, FindAll(t, from))
  }

  /** Every block found is a match of the pattern at its start. */
  lemma BlocksAreMatches(s: string, from: nat, k: nat)
    requires from <= |s| && k < |DependencyBlocks(s, from)|
    ensures var b := DependencyBlocks(s, from)[k]; from <= b.start <= |s| && DependencyAt(s, b.start) == Some(b)
  {
    var t := DependencyTable(s);
    var r := FindAll(t, from);
    assert t[r[k]] == BlockEntry(DependencyAt(s, r[k]));
  }

  /** The blocks found do not overlap: each starts at or after the end of the one before. */
  lemma BlocksDoNotOverlap(s: string, from: nat, k: nat)
    requires from <= |s| && k + 1 < |DependencyBlocks(s, from)|
    ensures DependencyBlocks(s, from)[k].end <= DependencyBlocks(s, from)[k + 1].start
  {
    var t := DependencyTable(s);
    var r := FindAll(t, from);
    assert t[r[k]] == BlockEntry(DependencyAt(s, r[k]));
    assert t[r[k + 1]] == BlockEntry(DependencyAt(s, r[k + 1]));
  }

  /** No match starts before the first block found. */
  lemma FirstBlockIsLeftmost(s: string, from: nat, p: nat)
    requires from <= p < |s|
    requires DependencyBlocks(s, from) == [] || p < DependencyBlocks(s, from)[0].start
    ensures DependencyAt(s, p).None?
  {
    var t := DependencyTable(s);
    var r := FindAll(t, from);
    if r != [] {
      assert t[r[0]] == BlockEntry(DependencyAt(s, r[0]));
    }
    FindAllBefore(t, from, p);
    assert t[p] == BlockEntry(DependencyAt(s, p));
  }

  /** Between two consecutive matches, and after the last one, no match starts. */
  lemma BlocksAreLeftmost(s: string, from: nat, k: nat, p: nat)
    requires from <= |s|
    requires k < |DependencyBlocks(s, from)|
    requires DependencyBlocks(s, from)[k].end <= p < |s|
    requires k + 1 < |DependencyBlocks(s, from)| ==> p < DependencyBlocks(s, from)[k + 1].start
    ensures DependencyAt(s, p).None?
  {
    var t := DependencyTable(s);
    var r := FindAll(t, from);
    assert t[r[k]] == BlockEntry(DependencyAt(s, r[k]));
    if k + 1 < |r| {
      assert t[r[k + 1]] == BlockEntry(DependencyAt(s, r[k + 1]));
    }
    FindAllBetween(t, from, k, p);
    assert t[p] == BlockEntry(DependencyAt(s, p));
  }

  /** Text without the word `dependency` yields no dependency. */
  lemma NoKeywordNoBlocks(s: string)
    requires !Contains(s, DependencyKeyword)
    ensures DependencyBlocks(s, 0) == []
  {
    var r := DependencyBlocks(s, 0);
    if r != [] {
      BlocksAreMatches(s, 0, 0);
      assert DependencyAt(s, r[0].start) == Some(r[0]);
      ContainsAt(s, DependencyKeyword, r[0].start);
    }
  }

  /** The `config_path` value of every match, in order of appearance, duplicates kept. */
  function ConfigPaths(blocks: seq<DependencyBlock>): (r: seq<string>)
    ensures |r| == |blocks| && forall k :: 0 <= k < |blocks| ==> r[k] == blocks[k].configPath
  {
    seq(|blocks|, k requires 0 <= k < |blocks| => blocks[k].configPath)
  }

  /** `re.search(r'source\s*=\s*"([^"]+)"', content)`: the leftmost match. */
  function SearchAssignment(s: string, key: string, from: nat): (r: Option<(nat, Quoted)>)
    requires from <= |s|
    ensures r.Some? ==> from <= r.value.0 <= |s| && AssignmentAt(s, key, r.value.0) == Some(r.value.1)
    ensures forall p :: from <= p <= |s| && (r.None? || p < r.value.0) ==> AssignmentAt(s, key, p).None?
  {
    var t := AssignmentTable(s, key);
    match First(t, from)
    case Some(p) => Some((p, t[p].value))
    case None => None
  }

  /** The `locals\s*\{([^}]+)\}` pattern matched at `i`: the block body. */
  function LocalsAt(s: string, i: nat): (r: Option<string>)
    requires i <= |s|
    ensures r.Some? ==> OccursAt(s, "locals", i) && r.value != "" && '}' !in r.value
  {
    if !OccursAt(s, "locals", i) then None
    else
      var b := SkipSpace(s, i + 6);
      if b < |s| && s[b] == '{' then
        var c := IndexOfChar(s, '}', b + 1);
        if b + 1 < c < |s| then
          var body := s[b + 1..c];
          assert forall k :: 0 <= k < |body| ==> body[k] == s[b + 1 + k];
          Some(s[b + 1..c])
        else None
      else None
  }

  /** The locals pattern matched at each position of `s`, the end of the text included. */
  function LocalsTable(s: string): (t: seq<Option<string>>)
    ensures |t| == |s| + 1 && forall p :: 0 <= p <= |s| ==> t[p] == LocalsAt(s, p)
  {
    seq(|s| + 1, p requires 0 <= p <= |s| => LocalsAt(s, p))
  }

  /** `re.search` of the locals pattern: the leftmost position where it matches. */
  function SearchLocals(s: string, from: nat): (r: Option<nat>)
    requires from <= |s|
    ensures r.Some? ==> from <= r.value <= |s| && LocalsAt(s, r.value).Some?
    ensures forall p :: from <= p <= |s| && (r.None? || p < r.value) ==> LocalsAt(s, p).None?
  {
    First(LocalsTable(s), from)
  }

  /** The body of the first locals block, if the text has one. */
  function LocalsBody(s: string): (r: Option<string>)
    ensures r.Some? ==> Contains(s, "locals")
  {
    match SearchLocals(s, 0)
    case None => None
    case Some(i) =>
      ContainsAt(s, "locals", i);
      LocalsAt(s, i)
  }

  /**
   * What one line of a locals block contributes: a stripped line holding '='
   * and not starting with '#' splits at its first '='; the key is stripped,
   * and the value is stripped of whitespace, then of '"' and of '\'' at both
   * ends, and then of trailing ','.
   */
  function LineEntry(line: string): Option<(string, string)>
  {
    var l := Strip(line);
    if '=' in l && !("#" <= l) then
      var i := IndexOfChar(l, '=', 0);
      Some((Strip(l[..i]), EntryValue(l[i + 1..])))
    else None
  }

  /** The value of an entry: the text after '=' stripped of whitespace, of quotes at both ends and of trailing ','. */
  function EntryValue(v: string): (r: string)
    ensures r == "" || r[|r| - 1] != ','
  {
    RStripChar(StripChar(StripChar(Strip(v), '"'), '\''), ',')
  }

  /** A line holds an entry exactly when its stripped text holds '=' and is no comment; its key holds no '=' and its value ends in no ','. */
  lemma LineEntryShape(line: string)
    ensures var r := LineEntry(line);
      (r.Some? <==> '=' in Strip(line) && !("#" <= Strip(line)))
      && (r.Some? ==> '=' !in r.value.0)
      && (r.Some? ==> r.value.1 == "" || r.value.1[|r.value.1| - 1] != ',')
  {
    var l := Strip(line);
    if '=' in l && !("#" <= l) {
      var i := IndexOfChar(l, '=', 0);
      assert '=' !in l[..i];
      StripAvoids(l[..i], '=');
      var v := EntryValue(l[i + 1..]);
      assert LineEntry(line) == Some((Strip(l[..i]), v));
      assert v == "" || v[|v| - 1] != ',';
    }
  }

  /** What each line of `lines` contributes. */
  function Entries(lines: seq<string>): (r: seq<Option<(string, string)>>)
    ensures |r| == |lines|
  {
    if lines == [] then [] else Entries(lines[..|lines| - 1]) + [LineEntry(lines[|lines| - 1])]
  }

  lemma {:induction false} EntriesAt(lines: seq<string>, j: nat)
    requires j < |lines|
    ensures Entries(lines)[j] == LineEntry(lines[j])
    decreases |lines|
  {
    if j < |lines| - 1 {
      EntriesAt(lines[..|lines| - 1], j);
    }
  }

  /** Whether an entry sets `key`. */
  predicate Sets(entry: Option<(string, string)>, key: string)
  {
    entry.Some? && entry.value.0 == key
  }

  /** The configuration after the line entries are applied to `config`, in order. */
  function ApplyEntries(config: Config, entries: seq<Option<(string, string)>>): Config
    decreases |entries|
  {
    if entries == [] then config
    else
      Apply(ApplyEntries(config, entries[..|entries| - 1]), entries[|entries| - 1])
  }

  /** `config[key] = value` for a line that sets a key. */
  function Apply(config: Config, entry: Option<(string, string)>): Config
  {
    match entry
    case Some((k, v)) => config[k := Str(v)]
    case None => config
  }

  lemma ApplyEntriesPrefix(config: Config, entries: seq<Option<(string, string)>>, i: nat)
    requires i < |entries|
    ensures ApplyEntries(config, entries[..i + 1]) == Apply(ApplyEntries(config, entries[..i]), entries[i])
  {
    assert entries[..i + 1][..i] == entries[..i];
  }

  /** The configuration after the locals lines `lines` are applied to `config`. */
  function ApplyLines(config: Config, lines: seq<string>): Config
  {
    ApplyEntries(config, Entries(lines))
  }

  /** A key's value comes from the last line that sets it. */
  lemma {:induction false} LastLineWins(config: Config, entries: seq<Option<(string, string)>>, i: nat)
    requires i < |entries| && entries[i].Some?
    requires forall j :: i < j < |entries| ==> !Sets(entries[j], entries[i].value.0)
    ensures entries[i].value.0 in ApplyEntries(config, entries)
    ensures ApplyEntries(config, entries)[entries[i].value.0] == Str(entries[i].value.1)
    decreases |entries|
  {
    var init := entries[..|entries| - 1];
    if i < |entries| - 1 {
      assert forall j :: i < j < |init| ==> init[j] == entries[j];
      LastLineWins(config, init, i);
    }
  }

  /** A key no line sets keeps its value from `config`, and no key appears that no line sets. */
  lemma {:induction false} UnsetKeysKept(config: Config, entries: seq<Option<(string, string)>>, key: string)
    requires forall j :: 0 <= j < |entries| ==> !Sets(entries[j], key)
    ensures key in ApplyEntries(config, entries) <==> key in config
    ensures key in config ==> ApplyEntries(config, entries)[key] == config[key]
    decreases |entries|
  {
    if entries != [] {
      var init := entries[..|entries| - 1];
      assert forall j :: 0 <= j < |init| ==> init[j] == entries[j];
      UnsetKeysKept(config, init, key);
    }
  }

  /** `load_hcl_config`'s loop over the lines of a locals block, updating `config` line by line. */
  method ParseLocals(config: Config, body: string) returns (result: Config)
    ensures result == ApplyLines(config, Split(body, '\n'))
  {
    result := ApplyEach(config, Split(body, '\n'));
  }

  method ApplyEach(config: Config, lines: seq<string>) returns (result: Config)
    ensures result == ApplyLines(config, lines)
  {
    result := config;
    var i := 0;
    while i < |lines|
      invariant i <= |lines|
      invariant result == ApplyLines(config, lines[..i])
    {
      ApplyLinesPrefix(config, lines, i);
      result := SetLocal(result, lines[i]);
      i := i + 1;
    }
    assert lines[..|lines|] == lines;
  }

  lemma ApplyLinesPrefix(config: Config, lines: seq<string>, i: nat)
    requires i < |lines|
    ensures ApplyLines(config, lines[..i + 1]) == Apply(ApplyLines(config, lines[..i]), LineEntry(lines[i]))
  {
    var e := Entries(lines[..i + 1]);
    assert lines[..i + 1][..i] == lines[..i];
    assert e == Entries(lines[..i]) + [LineEntry(lines[i])];
    assert e[..i] == Entries(lines[..i]);
  }

  /** One line of the loop: `config[key] = value` when the line holds an entry. */
  method SetLocal(config: Config, line: string) returns (result: Config)
    ensures result == Apply(config, LineEntry(line))
  {
    var entry := LineEntry(line);
    result := config;
    if entry.Some? {
      result := result[entry.value.0 := Str(entry.value.1)];
    }
  }

  /** `load_hcl_config`: the locals of the first locals block, or `{}` when there is none or the file cannot be read. */
  function HclConfig(file: FileText): Config
  {
    match file
    case Unreadable(_) => map[]
    case Readable(content) =>
      match LocalsBody(content)
      case None => map[]
      case Some(body) => ApplyLines(map[], Split(body, '\n'))
  }

  method LoadHclConfig(file: FileText) returns (config: Config)
    ensures config == HclConfig(file)
  {
    if file.Unreadable? {
      return map[];
    }
    var body := LocalsBody(file.text);
    if body.None? {
      return map[];
    }
    config := ParseLocals(map[], body.value);
  }

  /** `_parse_stack_config`: the `config_path` values verbatim, then the locals lines. */
  function StackConfig(file: FileText): Config
  {
    match file
    case Unreadable(_) => map[]
    case Readable(content) =>
      var config := map["dependencies" := StrList(ConfigPaths(DependencyBlocks(content, 0)))];
      if Contains(content, "locals") then
        match LocalsBody(content)
        case None => config
        case Some(body) => ApplyLines(config, Split(body, '\n'))
      else config
  }

  method ParseStackConfig(file: FileText) returns (config: Config)
    ensures config == StackConfig(file)
  {
    if file.Unreadable? {
      return map[];
    }
    var content := file.text;
    var deps := CollectConfigPaths(DependencyBlocks(content, 0));
    config := map["dependencies" := StrList(deps)];
    if Contains(content, "locals") {
      var body := LocalsBody(content);
      if body.Some? {
        config := ParseLocals(config, body.value);
      }
    }
  }

  /** The loop collecting the `config_path` value of each match. */
  method CollectConfigPaths(blocks: seq<DependencyBlock>) returns (deps: seq<string>)
    ensures deps == ConfigPaths(blocks)
  {
    deps := [];
    var k := 0;
    while k < |blocks|
      invariant k <= |blocks|
      invariant |deps| == k && forall j :: 0 <= j < k ==> deps[j] == blocks[j].configPath
    {
      deps := deps + [blocks[k].configPath];
      k := k + 1;
    }
  }

  /** An unreadable stack file gives `{}`, without even a `dependencies` key. */
  lemma UnreadableStackConfig(reason: string)
    ensures StackConfig(Unreadable(reason)) == map[]
  {
  }

  /** The entries of the lines of the first locals block; none when there is no block. */
  function LocalsEntries(content: string): seq<Option<(string, string)>>
  {
    match LocalsBody(content)
    case None => []
    case Some(body) => Entries(Split(body, '\n'))
  }

  /** The `dependencies` entry a readable stack file starts from. */
  function DependencyEntry(content: string): Config
  {
    map["dependencies" := StrList(ConfigPaths(DependencyBlocks(content, 0)))]
  }

  lemma StackConfigByEntries(content: string)
    ensures StackConfig(Readable(content)) == ApplyEntries(DependencyEntry(content), if Contains(content, "locals") then LocalsEntries(content) else [])
  {
  }

  lemma HclConfigByEntries(content: string)
    ensures HclConfig(Readable(content)) == ApplyEntries(map[], LocalsEntries(content))
  {
  }

  /**
   * Unless a locals line sets `dependencies`, a readable stack file's
   * `dependencies` entry lists every `config_path` value in order.
   */
  lemma StackDependenciesVerbatim(content: string)
    requires forall j :: 0 <= j < |LocalsEntries(content)| ==> !Sets(LocalsEntries(content)[j], "dependencies")
    ensures "dependencies" in StackConfig(Readable(content))
    ensures StackConfig(Readable(content))["dependencies"] == StrList(ConfigPaths(DependencyBlocks(content, 0)))
  {
    StackConfigByEntries(content);
    UnsetKeysKept(DependencyEntry(content), if Contains(content, "locals") then LocalsEntries(content) else [], "dependencies");
  }

  /** `load_hcl_config` reads the locals exactly as the stack-file parser does, apart from `dependencies`. */
  lemma LocalsAgree(content: string, key: string)
    requires key != "dependencies"
    ensures key in HclConfig(Readable(content)) <==> key in StackConfig(Readable(content))
    ensures key in HclConfig(Readable(content)) ==> HclConfig(Readable(content))[key] == StackConfig(Readable(content))[key]
  {
    StackConfigByEntries(content);
    HclConfigByEntries(content);
    if Contains(content, "locals") {
      ApplyLinesAgree(map[], DependencyEntry(content), LocalsEntries(content), key);
    } else {
      assert LocalsBody(content).None?;
    }
  }

  lemma {:induction false} ApplyLinesAgree(a: Config, b: Config, entries: seq<Option<(string, string)>>, key: string)
    requires key in a <==> key in b
    requires key in a ==> a[key] == b[key]
    ensures key in ApplyEntries(a, entries) <==> key in ApplyEntries(b, entries)
    ensures key in ApplyEntries(a, entries) ==> ApplyEntries(a, entries)[key] == ApplyEntries(b, entries)[key]
    decreases |entries|
  {
    if entries != [] {
      ApplyLinesAgree(a, b, entries[..|entries| - 1], key);
    }
  }

  /** `_parse_unit_config`: the whole text, and the first `source = "..."` value when there is one. */
  function UnitConfig(file: FileText): (r: Config)
    ensures file.Unreadable? ==> r == map[]
    ensures file.Readable? ==> "content" in r && r["content"] == Str(file.text)
    ensures "source" in r ==> (file.Readable? && Contains(file.text, "source")
      && exists p :: (0 <= p <= |file.text| && AssignmentAt(file.text, "source", p).Some?
         && r["source"] == Str(AssignmentAt(file.text, "source", p).value.text)
         && forall p' :: 0 <= p' < p ==> AssignmentAt(file.text, "source", p').None?))
  {
    match file
    case Unreadable(_) => map[]
    case Readable(content) =>
      var config := map["content" := Str(content)];
      if Contains(content, "source") then
        match SearchAssignment(content, "source", 0)
        case Some((_, q)) => config["source" := Str(q.text)]
        case None => config
      else config
  }

  /**
   * `_get_resource_configuration`: the source is what follows the first '='
   * after the first "source", up to the next "source" and the end of that
   * line; when no '=' follows before the next "source" the whole result is
   * `{}`, as the `IndexError` is caught.
   */
  function ResourceConfig(file: Option<FileText>): (r: Config)
    ensures file.None? || file.value.Unreadable? ==> r == map[]
    ensures file.Some? && file.value.Readable? && !Contains(file.value.text, "source") ==> r == map["content" := Str(file.value.text)]
  {
    match file
    case None => map[]
    case Some(Unreadable(_)) => map[]
    case Some(Readable(content)) =>
      var config := map["content" := Str(content)];
      if Contains(content, "source") then
        var pieces := SplitStr(content, "source");
        SplitStrSingle(content, "source");
        var afterEquals := Split(pieces[1], '=');
        if |afterEquals| < 2 then map[]
        else
          var line := Split(afterEquals[1], '\n')[0];
          config["source" := Str(StripChar(Strip(line), '"'))]
      else config
  }

  /** The source value found by splitting stays within one line. */
  lemma ResourceSourceOneLine(content: string)
    requires "source" in ResourceConfig(Some(Readable(content)))
    ensures ResourceConfig(Some(Readable(content)))["source"].Str?
    ensures '\n' !in ResourceConfig(Some(Readable(content)))["source"].s
  {
    SplitStrSingle(content, "source");
    var pieces := SplitStr(content, "source");
    var afterEquals := Split(pieces[1], '=');
    var line := Split(afterEquals[1], '\n')[0];
    StripAvoids(line, '\n');
    StripCharAvoids(Strip(line), '"', '\n');
  }

  /** A "source" with no '=' before the next "source" drops the whole configuration. */
  lemma SourceWithoutEqualsDropsConfig(content: string)
    requires Contains(content, "source")
    requires '=' !in SplitStr(content, "source")[1]
    ensures ResourceConfig(Some(Readable(content))) == map[]
  {
    SplitStrSingle(content, "source");
    var piece := SplitStr(content, "source")[1];
    assert Split(piece, '=') == [piece] by {
      assert IndexOfChar(piece, '=', 0) == |piece|;
    }
  }

  /** The messages `validate_terraform_config` collects for a directory's `terragrunt.hcl` (`None`: absent). */
  function ValidationErrors(file: Option<FileText>): seq<string>
  {
    match file
    case None => ["Missing required file: terragrunt.hcl"]
    case Some(Unreadable(reason)) => ["Error reading terragrunt.hcl: " + reason]
    case Some(Readable(content)) =>
      (if multiset(content)['{'] != multiset(content)['}'] then ["Unbalanced braces in terragrunt.hcl"] else [])
      + (if !Contains(content, "include") then ["Missing include block in terragrunt.hcl"] else [])
  }

  /** `validate_terraform_config`. */
  method ValidateTerraformConfig(file: Option<FileText>) returns (valid: bool, errors: seq<string>)
    ensures errors == ValidationErrors(file)
    ensures valid <==> (file.Some? && file.value.Readable?
      && multiset(file.value.text)['{'] == multiset(file.value.text)['}'] && Contains(file.value.text, "include"))
  {
    errors := [];
    if file.None? {
      errors := errors + ["Missing required file: terragrunt.hcl"];
    }
    if file.Some? {
      match file.value
      case Unreadable(reason) =>
        errors := errors + ["Error reading terragrunt.hcl: " + reason];
      case Readable(content) =>
        if multiset(content)['{'] != multiset(content)['}'] {
          errors := errors + ["Unbalanced braces in terragrunt.hcl"];
        }
        if !Contains(content, "include") {
          errors := errors + ["Missing include block in terragrunt.hcl"];
        }
    }
    valid := |errors| == 0;
  }
}
