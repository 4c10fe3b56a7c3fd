/**
 * The release script that stamps a new version into the project files: the
 * semantic-version check (Semantic Versioning 2.0.0, items 2, 9 and 10), the
 * `re.sub` that rewrites `version = "..."` and `__version__ = "..."`
 * assignments, the per-file updates and the driver that combines them.
 * Files are objects whose contents the updates replace; a file that cannot be
 * read, parsed or written stands for the exception the script catches.
 */
module VersionScript {
  import opened Wrappers
  import opened Strings
  import opened Matching
  import opened Models

  // ---------------------------------------------------------------------------
  // validate_version

  /** `[0-9a-zA-Z-]` */
  predicate IsIdentChar(c: char)
  {
    IsDigit(c) || IsAsciiLower(c) || IsAsciiUpper(c) || c == '-'
  }

  predicate IdentChars(s: string)
  {
    forall i :: 0 <= i < |s| ==> IsIdentChar(s[i])
  }

  /** `0|[1-9]\d*`: a decimal numeral without leading zeros. */
  predicate NumericIdent(s: string)
  {
    s == "0" || (s != "" && '1' <= s[0] <= '9' && AllDigits(s))
  }

  /** `0|[1-9]\d*|\d*[a-zA-Z-][0-9a-zA-Z-]*`: a numeral without leading zeros, or an identifier with a non-digit. */
  predicate PreReleaseIdent(s: string)
  {
    NumericIdent(s) || (IdentChars(s) && !AllDigits(s))
  }

  /** `[0-9a-zA-Z-]+` */
  predicate BuildIdent(s: string)
  {
    s != "" && IdentChars(s)
  }

  /** A version as its parts: the three numbers, the pre-release and the build identifiers. */
  datatype Version = Version(major: string, minor: string, patch: string, preRelease: seq<string>, build: seq<string>)

  /** The identifiers of each part are of the part's kind. */
  predicate WellFormed(v: Version)
  {
    && NumericIdent(v.major) && NumericIdent(v.minor) && NumericIdent(v.patch)
    && (forall k :: 0 <= k < |v.preRelease| ==> PreReleaseIdent(v.preRelease[k]))
    && (forall k :: 0 <= k < |v.build| ==> BuildIdent(v.build[k]))
  }

  /** `c` and the dot-joined identifiers, or nothing when there are none. */
  function Tagged(c: char, ids: seq<string>): string
  {
    if ids == [] then "" else [c] + Join(ids, ".")
  }

  /** The version written out: `MAJOR.MINOR.PATCH[-pre][+build]`. */
  function Format(v: Version): string
  {
    v.major + "." + v.minor + "." + v.patch + Tagged('-', v.preRelease) + Tagged('+', v.build)
  }

  /** The text the pattern is matched against: `$` also matches before one final newline. */
  function Body(s: string): string
  {
    if s != "" && s[|s| - 1] == '\n' then s[..|s| - 1] else s
  }

  /** The text before the first `c`. */
  function Before(t: string, c: char): string
  {
    t[..IndexOfChar(t, c, 0)]
  }

  /** The dot-separated identifiers after the first `c`, none when there is no `c`. */
  function After(t: string, c: char): seq<string>
  {
    var i := IndexOfChar(t, c, 0);
    if i < |t| then Split(t[i + 1..], '.') else []
  }

  /**
   * The version the pattern recognises in `s`: the build part follows the
   * first `+`, the pre-release part the first `-` before it, and the rest
   * is the three dot-separated numbers.
   */
  function ParseVersion(s: string): Option<Version>
  {
    var main := Before(Body(s), '+');
    var core := Split(Before(main, '-'), '.');
    if |core| != 3 then None
    else
      var v := Version(core[0], core[1], core[2], After(main, '-'), After(Body(s), '+'));
      if WellFormed(v) then Some(v) else None
  }

  /** `validate_version`: whether `re.match` of the semantic-version pattern succeeds. */
  function ValidateVersion(version: string): bool
  {
    ParseVersion(version).Some?
  }

  /** A separator character that no part contains does not occur in their join. */
  lemma {:induction false} JoinAvoids(parts: seq<string>, sep: string, c: char)
    requires c !in sep && forall k :: 0 <= k < |parts| ==> c !in parts[k]
    ensures c !in Join(parts, sep)
    decreases |parts|
  {
    if |parts| > 1 {
      JoinAvoids(parts[1..], sep, c);
    }
  }

  /** `IndexOfChar` stops at the first `c`. */
  lemma IndexAfter(a: string, b: string, c: char)
    requires c !in a
    ensures IndexOfChar(a, c, 0) == |a|
    ensures IndexOfChar(a + [c] + b, c, 0) == |a|
  {
    var s := a + [c] + b;
    assert forall j :: 0 <= j < |a| ==> s[j] == a[j] && a[j] != c;
    IndexOfCharIs(a, c, 0, |a|);
    IndexOfCharIs(s, c, 0, |a|);
  }

  lemma JoinThree(a: string, b: string, c: string, sep: string)
    ensures Join([a, b, c], sep) == a + sep + b + sep + c
  {
    assert [a, b, c][1..] == [b, c];
    assert [b, c][1..] == [c];
    assert Join([b, c], sep) == b + sep + c;
    assert a + sep + (b + sep + c) == a + sep + b + sep + c;
  }

  /** An identifier character is none of the characters the pattern treats specially. */
  lemma IdentAvoids(s: string)
    requires IdentChars(s)
    ensures '.' !in s && '+' !in s && '\n' !in s
  {
    forall i | 0 <= i < |s|
      ensures s[i] != '.' && s[i] != '+' && s[i] != '\n'
    {
      assert IsIdentChar(s[i]);
    }
  }

  lemma NumericAvoids(s: string)
    requires NumericIdent(s)
    ensures IdentChars(s) && '-' !in s
  {
    assert forall i :: 0 <= i < |s| ==> IsDigit(s[i]);
  }

  /** A text is what precedes its first `c`, then `c` and what follows. */
  lemma BeforeAfter(t: string, c: char)
    ensures t == Before(t, c) + Tagged(c, After(t, c))
  {
    var i := IndexOfChar(t, c, 0);
    if i < |t| {
      var rest := t[i + 1..];
      var ids := Split(rest, '.');
      SplitThenJoin(rest, '.');
      assert After(t, c) == ids;
      assert Tagged(c, ids) == [c] + rest;
      assert t == t[..i] + ([c] + rest);
    } else {
      assert After(t, c) == [];
      assert t[..i] == t;
    }
  }

  /** Splitting at the first `c` takes apart what `Tagged` put together. */
  lemma BeforeAfterOf(a: string, c: char, ids: seq<string>)
    requires c !in a
    requires forall k :: 0 <= k < |ids| ==> '.' !in ids[k]
    ensures Before(a + Tagged(c, ids), c) == a && After(a + Tagged(c, ids), c) == ids
  {
    if ids == [] {
      IndexAfter(a, "", c);
      assert a + Tagged(c, ids) == a;
    } else {
      var t := a + Tagged(c, ids);
      IndexAfter(a, Join(ids, "."), c);
      assert t == a + [c] + Join(ids, ".");
      assert t[|a| + 1..] == Join(ids, ".");
      JoinThenSplit(ids, '.');
    }
  }

  /** `$` leaves off at most one final newline. */
  lemma BodyCases(s: string)
    ensures s == Body(s) || s == Body(s) + "\n"
  {
    if s != "" && s[|s| - 1] == '\n' {
      assert s == s[..|s| - 1] + "\n";
    }
  }

  /** Every version the pattern accepts is well formed and written out by `Format`, perhaps with one newline after it. */
  lemma ParseSound(s: string)
    requires ParseVersion(s).Some?
    ensures WellFormed(ParseVersion(s).value)
    ensures s == Format(ParseVersion(s).value) || s == Format(ParseVersion(s).value) + "\n"
  {
    var v := ParseVersion(s).value;
    var t := Body(s);
    var main := Before(t, '+');
    var head := Before(main, '-');
    var core := Split(head, '.');
    assert core == [v.major, v.minor, v.patch];
    assert v.preRelease == After(main, '-') && v.build == After(t, '+');
    SplitThenJoin(head, '.');
    JoinThree(v.major, v.minor, v.patch, ".");
    assert head == v.major + "." + v.minor + "." + v.patch;
    BeforeAfter(main, '-');
    BeforeAfter(t, '+');
    assert t == head + Tagged('-', v.preRelease) + Tagged('+', v.build);
    assert Format(v) == t;
    BodyCases(s);
  }

  /** No identifier of a well-formed version holds a character the pattern splits at. */
  lemma WellFormedAvoids(v: Version)
    requires WellFormed(v)
    ensures IdentChars(v.major) && IdentChars(v.minor) && IdentChars(v.patch)
    ensures '-' !in v.major && '-' !in v.minor && '-' !in v.patch
    ensures forall k :: 0 <= k < |v.preRelease| ==> IdentChars(v.preRelease[k])
    ensures forall k :: 0 <= k < |v.build| ==> IdentChars(v.build[k])
  {
    NumericAvoids(v.major);
    NumericAvoids(v.minor);
    NumericAvoids(v.patch);
    forall k | 0 <= k < |v.preRelease|
      ensures IdentChars(v.preRelease[k])
    {
      if NumericIdent(v.preRelease[k]) {
        NumericAvoids(v.preRelease[k]);
      }
    }
  }

  /** The identifiers joined by dots avoid '+' and the newline, like each identifier. */
  lemma IdentsAvoid(ids: seq<string>)
    requires forall k :: 0 <= k < |ids| ==> IdentChars(ids[k])
    ensures forall k :: 0 <= k < |ids| ==> '.' !in ids[k]
    ensures '+' !in Join(ids, ".") && '\n' !in Join(ids, ".")
  {
    forall k | 0 <= k < |ids|
      ensures '.' !in ids[k] && '+' !in ids[k] && '\n' !in ids[k]
    {
      IdentAvoids(ids[k]);
    }
    JoinAvoids(ids, ".", '+');
    JoinAvoids(ids, ".", '\n');
  }

  /** A written-out version has no newline, so `$` sees the whole of it with or without one more. */
  lemma FormatBody(v: Version)
    requires WellFormed(v)
    ensures Body(Format(v)) == Format(v) && Body(Format(v) + "\n") == Format(v)
  {
    WellFormedAvoids(v);
    IdentAvoids(v.major);
    IdentAvoids(v.minor);
    IdentAvoids(v.patch);
    IdentsAvoid(v.preRelease);
    IdentsAvoid(v.build);
    var f := Format(v);
    assert '\n' !in Tagged('-', v.preRelease) && '\n' !in Tagged('+', v.build);
    assert '\n' !in f;
    assert f[|f| - 1] in f;
    assert (f + "\n")[..|f|] == f;
  }

  /** Splitting a written-out version at its first '+' and then its first '-' gives back its parts. */
  lemma FormatSplits(v: Version)
    requires WellFormed(v)
    ensures var head := v.major + "." + v.minor + "." + v.patch;
      var main := head + Tagged('-', v.preRelease);
      && Before(Format(v), '+') == main && After(Format(v), '+') == v.build
      && Before(main, '-') == head && After(main, '-') == v.preRelease
  {
    WellFormedAvoids(v);
    IdentAvoids(v.major);
    IdentAvoids(v.minor);
    IdentAvoids(v.patch);
    IdentsAvoid(v.preRelease);
    IdentsAvoid(v.build);
    var head := v.major + "." + v.minor + "." + v.patch;
    var main := head + Tagged('-', v.preRelease);
    assert '+' !in main;
    assert Format(v) == main + Tagged('+', v.build);
    BeforeAfterOf(main, '+', v.build);
    BeforeAfterOf(head, '-', v.preRelease);
  }

  /** A well-formed version, written out, is accepted as itself, with or without one newline after it. */
  lemma FormatParses(v: Version)
    requires WellFormed(v)
    ensures ParseVersion(Format(v)) == Some(v)
    ensures ParseVersion(Format(v) + "\n") == Some(v)
  {
    WellFormedAvoids(v);
    IdentAvoids(v.major);
    IdentAvoids(v.minor);
    IdentAvoids(v.patch);
    FormatBody(v);
    FormatSplits(v);
    JoinThree(v.major, v.minor, v.patch, ".");
    JoinThenSplit([v.major, v.minor, v.patch], '.');
  }

  /** `validate_version` accepts exactly the written-out well-formed versions, each perhaps followed by one newline. */
  lemma ValidateIff(s: string)
    ensures ValidateVersion(s) <==> exists v :: WellFormed(v) && (s == Format(v) || s == Format(v) + "\n")
  {
    if ValidateVersion(s) {
      ParseSound(s);
    }
    forall v | WellFormed(v) && (s == Format(v) || s == Format(v) + "\n")
      ensures ValidateVersion(s)
    {
      FormatParses(v);
    }
  }

  /** The digit string of a numeral without leading zeros is exactly how Python writes its value. */
  lemma {:induction false} NumericIdentCanonical(s: string)
    ensures NumericIdent(s) <==> s != "" && AllDigits(s) && NatToString(DigitsValue(s)) == s
    decreases |s|
  {
    if s != "" && AllDigits(s) {
      if |s| == 1 {
        assert DigitsValue(s) == DigitValue(s[0]);
        assert NatToString(DigitsValue(s)) == [DigitChar(DigitsValue(s))];
      } else {
        var init := s[..|s| - 1];
        var d := s[|s| - 1];
        assert s == init + [d];
        if NumericIdent(s) {
          NumericInit(s);
          NumericIdentCanonical(init);
          NumeralCanonical(init, d);
        } else {
          ZeroLed(s);
          LeadingZeroValue(s);
        }
      }
    }
  }

  /** All but the last digit of a numeral without a leading zero form one too. */
  lemma NumericInit(s: string)
    requires |s| >= 2 && NumericIdent(s)
    ensures NumericIdent(s[..|s| - 1]) && s[0] != '0'
  {
    var init := s[..|s| - 1];
    assert init[0] == s[0];
    assert forall i :: 0 <= i < |init| ==> init[i] == s[i];
  }

  /** Two or more digits that are not a numeral without a leading zero start with '0'. */
  lemma ZeroLed(s: string)
    requires |s| >= 2 && AllDigits(s) && !NumericIdent(s)
    ensures s[0] == '0'
  {
    assert IsDigit(s[0]);
  }

  /** A numeral without a leading zero, written as Python writes its value, stays so with one more digit. */
  lemma NumeralCanonical(init: string, d: char)
    requires init != "" && AllDigits(init) && init[0] != '0' && IsDigit(d)
    requires NatToString(DigitsValue(init)) == init
    ensures AllDigits(init + [d]) && NatToString(DigitsValue(init + [d])) == init + [d]
  {
    var n := DigitsValue(init + [d]);
    DigitsValueMod(init, d);
    LeadingDigitPositive(init);
    assert n >= 10;
    assert NatToString(n) == NatToString(n / 10) + [DigitChar(n % 10)];
  }

  lemma DigitsValueMod(init: string, d: char)
    requires AllDigits(init) && IsDigit(d)
    ensures AllDigits(init + [d])
    ensures DigitsValue(init + [d]) / 10 == DigitsValue(init)
    ensures DigitsValue(init + [d]) % 10 == DigitValue(d)
    ensures DigitChar(DigitValue(d)) == d
  {
    assert (init + [d])[..|init|] == init;
  }

  lemma {:induction false} LeadingDigitPositive(s: string)
    requires s != "" && AllDigits(s) && s[0] != '0'
    ensures DigitsValue(s) >= 1
    decreases |s|
  {
    if |s| > 1 {
      var init := s[..|s| - 1];
      assert init[0] == s[0];
      LeadingDigitPositive(init);
    }
  }

  /** A numeral of two or more digits that starts with '0' is not how its value is written. */
  lemma LeadingZeroValue(s: string)
    requires |s| >= 2 && AllDigits(s) && s[0] == '0'
    ensures NatToString(DigitsValue(s)) != s
  {
    var n := DigitsValue(s);
    if NatToString(n) == s {
      NatToStringLead(n);
    }
  }

  /** Python writes no number with a leading '0' other than 0 itself. */
  lemma {:induction false} NatToStringLead(n: nat)
    ensures NatToString(n)[0] == '0' ==> n == 0
    ensures n >= 10 ==> |NatToString(n)| >= 2
    ensures n < 10 ==> |NatToString(n)| == 1
    decreases n
  {
    if n >= 10 {
      NatToStringLead(n / 10);
      assert NatToString(n)[0] == NatToString(n / 10)[0];
    }
  }

  // ---------------------------------------------------------------------------
  // re.sub(r'<key>\s*=\s*"[^"]*"', '<key> = "<version>"', content)

  /**
   * A match of `<key>\s*=\s*"[^"]*"` at `i`: the matched text and where it
   * ends. `\s*` stops at the first non-space and `[^"]*` at the first quote,
   * so the match is unique; nothing before `i` is looked at.
   */
  function AssignmentAt(s: string, key: string, i: nat): (r: Option<(string, nat)>)
    requires i <= |s|
    ensures r.Some? ==> i < r.value.1 <= |s| && r.value.0 == s[i..r.value.1]
  {
    if !OccursAt(s, key, i) then None
    else
      var j := SkipSpace(s, i + |key|);
      if j == |s| || s[j] != '=' then None
      else
        var k := SkipSpace(s, j + 1);
        if k == |s| || s[k] != '"' then None
        else
          var e := IndexOfChar(s, '"', k + 1);
          if e == |s| then None else Some((s[i..e + 1], e + 1))
  }

  /** The match of the pattern at each position of `s`. */
  function AssignmentTable(s: string, key: string): (t: seq<Option<(string, nat)>>)
    ensures |t| == |s| && Advancing(t)
    ensures forall i :: 0 <= i < |s| ==> t[i] == AssignmentAt(s, key, i)
  {
    seq(|s|, i requires 0 <= i < |s| => AssignmentAt(s, key, i))
  }

  /** The replacement text `<key> = "<version>"`. */
  function Replacement(key: string, version: string): string
  {
    key + " = \"" + version + "\""
  }

  /** Each match records the text it covers. */
  predicate Covers(s: string, t: seq<Option<(string, nat)>>)
  {
    |t| == |s| && Advancing(t) &&
    forall i :: 0 <= i < |t| && t[i].Some? ==> t[i].value.0 == s[i..t[i].value.1]
  }

  /** `re.sub` from `from` on: each leftmost match gives way to `repl` and the scan resumes after it. */
  function SubFrom(s: string, t: seq<Option<(string, nat)>>, repl: string, from: nat): string
    requires |t| == |s| && Advancing(t) && from <= |s|
    decreases |s| - from
  {
    if from == |s| then ""
    else
      match t[from]
      case Some((_, e)) => repl + SubFrom(s, t, repl, e)
      case None => [s[from]] + SubFrom(s, t, repl, from + 1)
  }

  /** The new content: every assignment `re.sub` finds replaced by `<key> = "<version>"`. */
  function Substitute(content: string, key: string, version: string): string
  {
    SubFrom(content, AssignmentTable(content, key), Replacement(key, version), 0)
  }

  /** The texts `re.sub` replaces, in order. */
  function Assignments(content: string, key: string): seq<string>
  {
    var t := AssignmentTable(content, key);
    Values(t, FindAll(t, 0))
  }

  /** Every match the scan from `from` takes reads `repl`. */
  predicate AllRead(t: seq<Option<(string, nat)>>, repl: string, from: nat)
    requires Advancing(t) && from <= |t|
    decreases |t| - from
  {
    from == |t| ||
    match t[from]
    case Some((m, e)) => m == repl && AllRead(t, repl, e)
    case None => AllRead(t, repl, from + 1)
  }

  /** `AllRead` says that every value `finditer` reports is `repl`. */
  lemma {:induction false} AllReadValues(t: seq<Option<(string, nat)>>, repl: string, from: nat)
    requires Advancing(t) && from <= |t|
    ensures AllRead(t, repl, from) <==> forall x :: x in Values(t, FindAll(t, from)) ==> x == repl
    decreases |t| - from
  {
    if from < |t| {
      ValuesStep(t, from);
      match t[from]
      case Some((m, e)) =>
        AllReadValues(t, repl, e);
        var rest := Values(t, FindAll(t, e));
        assert Values(t, FindAll(t, from)) == [m] + rest;
        assert AllRead(t, repl, from) == (m == repl && AllRead(t, repl, e));
        AllEqualCons(m, rest, repl);
      case None =>
        AllReadValues(t, repl, from + 1);
    }
  }

  lemma AllEqualCons(m: string, rest: seq<string>, repl: string)
    ensures (forall x :: x in [m] + rest ==> x == repl) <==> m == repl && forall x :: x in rest ==> x == repl
  {
    assert m in [m] + rest;
    assert forall x :: x in rest ==> x in [m] + rest;
  }

  /** When every match already reads `repl`, the substitution gives the text back. */
  lemma {:induction false} SubFromKeeps(s: string, t: seq<Option<(string, nat)>>, repl: string, from: nat)
    requires Covers(s, t) && from <= |s|
    requires AllRead(t, repl, from)
    ensures SubFrom(s, t, repl, from) == s[from..]
    decreases |s| - from
  {
    if from < |s| {
      match t[from]
      case Some((m, e)) =>
        SubFromKeeps(s, t, repl, e);
        assert s[from..] == s[from..e] + s[e..];
      case None =>
        SubFromKeeps(s, t, repl, from + 1);
        assert s[from..] == [s[from]] + s[from + 1..];
    }
  }

  /** Wherever `repl` itself stands in the text, the pattern matches exactly it. */
  predicate CopiesRead(s: string, t: seq<Option<(string, nat)>>, repl: string)
    requires |t| == |s|
  {
    forall i :: 0 <= i < |s| && OccursAt(s, repl, i) ==> t[i] == Some((repl, i + |repl|))
  }

  /**
   * Wherever `repl` itself stands in the text, the pattern matches exactly it;
   * then a substitution that gives the text back found only copies of `repl`.
   */
  lemma {:induction false} SubFromKeepsOnlyCopies(s: string, t: seq<Option<(string, nat)>>, repl: string, from: nat)
    requires Covers(s, t) && from <= |s|
    requires CopiesRead(s, t, repl)
    requires SubFrom(s, t, repl, from) == s[from..]
    ensures AllRead(t, repl, from)
    decreases |s| - from
  {
    if from < |s| {
      match t[from]
      case Some((m, e)) =>
        var tail := SubFrom(s, t, repl, e);
        assert repl + tail == s[from..];
        assert OccursAt(s, repl, from) by {
          assert s[from..][..|repl|] == repl;
        }
        assert m == repl && e == from + |repl|;
        assert tail == s[e..] by {
          assert s[from..] == repl + s[e..];
        }
        SubFromKeepsOnlyCopies(s, t, repl, e);
      case None =>
        assert s[from..] == [s[from]] + s[from + 1..];
        SubFromKeepsOnlyCopies(s, t, repl, from + 1);
    }
  }

  /** The characters of a replacement text standing at `i`. */
  lemma ReplacementLayout(s: string, key: string, version: string, i: nat)
    requires OccursAt(s, Replacement(key, version), i)
    ensures var n := i + |key|; var e := n + 4 + |version|;
      && e < |s| && OccursAt(s, key, i)
      && s[n] == ' ' && s[n + 1] == '=' && s[n + 2] == ' ' && s[n + 3] == '"'
      && (forall q :: 0 <= q < |version| ==> s[n + 4 + q] == version[q])
      && s[e] == '"'
      && e + 1 == i + |Replacement(key, version)|
  {
    var r := Replacement(key, version);
    var w := s[i..i + |r|];
    var n := |key|;
    assert w == key + [' ', '=', ' ', '"'] + version + ['"'];
    assert w[..n] == key;
    assert s[i..i + n] == w[..n];
    assert s[i + n] == w[n] && s[i + n + 1] == w[n + 1] && s[i + n + 2] == w[n + 2] && s[i + n + 3] == w[n + 3];
    forall q | 0 <= q < |version|
      ensures s[i + n + 4 + q] == version[q]
    {
      assert w[n + 4 + q] == version[q];
    }
    assert s[i + n + 4 + |version|] == w[n + 4 + |version|];
  }

  /** Where a replacement text stands, the pattern matches it and nothing more, whatever comes before it. */
  lemma ReplacementMatches(s: string, key: string, version: string, i: nat)
    requires '"' !in version
    requires i < |s| && OccursAt(s, Replacement(key, version), i)
    ensures AssignmentAt(s, key, i) == Some((Replacement(key, version), i + |Replacement(key, version)|))
  {
    ReplacementLayout(s, key, version, i);
    var n := i + |key|;
    var e := n + 4 + |version|;
    assert SkipSpace(s, n + 1) == n + 1;
    assert SkipSpace(s, n) == n + 1;
    assert SkipSpace(s, n + 3) == n + 3;
    assert SkipSpace(s, n + 2) == n + 3;
    forall j | n + 4 <= j < e
      ensures s[j] != '"'
    {
      assert s[n + 4 + (j - (n + 4))] == version[j - (n + 4)];
    }
    IndexOfCharIs(s, '"', n + 4, e);
  }

  /** In the table of matches, every copy of the replacement text is matched as itself. */
  lemma CopiesMatch(content: string, key: string, version: string)
    requires '"' !in version
    ensures CopiesRead(content, AssignmentTable(content, key), Replacement(key, version))
  {
    var r := Replacement(key, version);
    var t := AssignmentTable(content, key);
    forall i | 0 <= i < |content| && OccursAt(content, r, i)
      ensures t[i] == Some((r, i + |r|))
    {
      ReplacementMatches(content, key, version, i);
    }
  }

  /** A substitution that gives the content back found only copies of the replacement. */
  lemma SubstituteKeepsOnlyCopies(content: string, key: string, version: string)
    requires '"' !in version
    requires Substitute(content, key, version) == content
    ensures AllRead(AssignmentTable(content, key), Replacement(key, version), 0)
  {
    var t := AssignmentTable(content, key);
    assert Covers(content, t);
    assert content[0..] == content;
    CopiesMatch(content, key, version);
    SubFromKeepsOnlyCopies(content, t, Replacement(key, version), 0);
  }

  /** A substitution that finds only copies of the replacement gives the content back. */
  lemma SubstituteKeeps(content: string, key: string, version: string)
    requires AllRead(AssignmentTable(content, key), Replacement(key, version), 0)
    ensures Substitute(content, key, version) == content
  {
    var t := AssignmentTable(content, key);
    assert Covers(content, t);
    assert content[0..] == content;
    SubFromKeeps(content, t, Replacement(key, version), 0);
  }

  /**
   * With a version free of quotes, the substitution leaves the content as it
   * was exactly when every assignment it finds already reads `<key> = "<version>"`.
   */
  lemma SubstituteUnchangedIff(content: string, key: string, version: string)
    requires '"' !in version
    ensures Substitute(content, key, version) == content <==>
      forall x :: x in Assignments(content, key) ==> x == Replacement(key, version)
  {
    var t := AssignmentTable(content, key);
    if Substitute(content, key, version) == content {
      SubstituteKeepsOnlyCopies(content, key, version);
    }
    if AllRead(t, Replacement(key, version), 0) {
      SubstituteKeeps(content, key, version);
    }
    AllReadValues(t, Replacement(key, version), 0);
    assert Assignments(content, key) == Values(t, FindAll(t, 0));
  }

  /** Content without any assignment the pattern finds comes back unchanged. */
  lemma NoAssignmentUnchanged(content: string, key: string, version: string)
    requires Assignments(content, key) == []
    ensures Substitute(content, key, version) == content
  {
    var t := AssignmentTable(content, key);
    assert Covers(content, t);
    AllReadValues(t, Replacement(key, version), 0);
    SubFromKeeps(content, t, Replacement(key, version), 0);
  }

  /**
   * A key that merely ends in `key`, such as `python_version` for `version`,
   * is matched from where `key` starts, so its value is rewritten too.
   */
  lemma SuffixKeyMatches(prefix: string, key: string, value: string, rest: string)
    requires '"' !in value
    ensures var s := prefix + Replacement(key, value) + rest;
      AssignmentAt(s, key, |prefix|) == Some((Replacement(key, value), |prefix| + |Replacement(key, value)|))
  {
    var s := prefix + Replacement(key, value) + rest;
    var r := Replacement(key, value);
    assert s[|prefix|..|prefix| + |r|] == r;
    assert |prefix| < |s| by {
      assert |r| > 0;
    }
    ReplacementMatches(s, key, value, |prefix|);
  }

  // ---------------------------------------------------------------------------
  // The files and the updates

  /** A text file: its contents, or None when it does not exist. */
  class TextFile {
    var text: Option<string>
    const readable: bool
    const writable: bool

    constructor(text: Option<string>, readable: bool, writable: bool)
      ensures this.text == text && this.readable == readable && this.writable == writable
    {
      this.text := text;
      this.readable := readable;
      this.writable := writable;
    }
  }

  /** Whether a file update succeeds: the content is read, the substitution changes it, and it is written back. */
  predicate TextUpdates(text: Option<string>, readable: bool, writable: bool, key: string, version: string)
  {
    text.Some? && readable && Substitute(text.value, key, version) != text.value && writable
  }

  /**
   * An update of a readable, writable file succeeds exactly when some
   * assignment it finds does not already read `<key> = "<version>"`; so
   * stamping the version the file already has reports failure.
   */
  lemma TextUpdatesIff(text: string, readable: bool, writable: bool, key: string, version: string)
    requires '"' !in version
    ensures TextUpdates(Some(text), readable, writable, key, version) <==>
      readable && writable && exists x :: x in Assignments(text, key) && x != Replacement(key, version)
  {
    SubstituteUnchangedIff(text, key, version);
  }

  /** `update_pyproject_toml` and `update_init_py`: rewrite the assignments of `key` and report whether anything changed. */
  method UpdateAssignment(key: string, version: string, file: TextFile) returns (updated: bool)
    modifies file
    ensures updated == TextUpdates(old(file.text), file.readable, file.writable, key, version)
    ensures file.text == if updated then Some(Substitute(old(file.text).value, key, version)) else old(file.text)
  {
    if file.text.None? || !file.readable {
      return false;
    }
    var content := file.text.value;
    var newContent := Substitute(content, key, version);
    if newContent != content {
      if !file.writable {
        return false;
      }
      file.text := Some(newContent);
      updated := true;
    } else {
      updated := false;
    }
  }

  method UpdatePyprojectToml(version: string, file: TextFile) returns (updated: bool)
    modifies file
    ensures updated == TextUpdates(old(file.text), file.readable, file.writable, "version", version)
    ensures file.text == if updated then Some(Substitute(old(file.text).value, "version", version)) else old(file.text)
  {
    updated := UpdateAssignment("version", version, file);
  }

  method UpdateInitPy(version: string, file: TextFile) returns (updated: bool)
    modifies file
    ensures updated == TextUpdates(old(file.text), file.readable, file.writable, "__version__", version)
    ensures file.text == if updated then Some(Substitute(old(file.text).value, "__version__", version)) else old(file.text)
  {
    updated := UpdateAssignment("__version__", version, file);
  }

  /** `package.json`: whether it exists, and its decoded document (None when it is not valid JSON). */
  class PackageJson {
    var present: bool
    var document: Option<Value>
    const writable: bool

    constructor(present: bool, document: Option<Value>, writable: bool)
      ensures this.present == present && this.document == document && this.writable == writable
    {
      this.present := present;
      this.document := document;
      this.writable := writable;
    }
  }

  /**
   * Whether `update_package_json` reports success: always for a missing file,
   * otherwise when the document is an object and can be written back.
   */
  predicate PackageUpdates(present: bool, document: Option<Value>, writable: bool)
  {
    !present || (document.Some? && document.value.Dict? && writable)
  }

  /** `update_package_json`: set the "version" key of the document, or do nothing when there is no file. */
  method UpdatePackageJson(version: string, file: PackageJson) returns (ok: bool)
    modifies file
    ensures ok == PackageUpdates(old(file.present), old(file.document), file.writable)
    ensures !old(file.present) ==> file.document == old(file.document)
    ensures file.present == old(file.present)
    ensures file.document == if old(file.present) && ok
      then Some(Dict(old(file.document).value.entries["version" := Str(version)]))
      else old(file.document)
  {
    if !file.present {
      return true;
    }
    if file.document.None? || !file.document.value.Dict? || !file.writable {
      return false;
    }
    file.document := Some(Dict(file.document.value.entries["version" := Str(version)]));
    ok := true;
  }

  /** The exit status of the script. */
  function ExitStatus(success: bool): int
  {
    if success then 0 else 1
  }

  /**
   * `main`: validate the version, then update `pyproject.toml` and
   * `__init__.py` (both must exist) and `package.json` (optional), folding
   * each outcome into `success`; a dry run changes nothing.
   */
  method UpdateVersion(version: string, dryRun: bool, pyproject: TextFile, init: TextFile, package: PackageJson)
    returns (exitCode: int)
    requires pyproject != init
    modifies pyproject, init, package
    ensures !ValidateVersion(version) || dryRun ==> unchanged(pyproject, init, package)
    ensures exitCode == ExitStatus(
      && ValidateVersion(version)
      && old(pyproject.text).Some? && old(init.text).Some?
      && (dryRun ||
          (&& TextUpdates(old(pyproject.text), pyproject.readable, pyproject.writable, "version", version)
           && TextUpdates(old(init.text), init.readable, init.writable, "__version__", version)
           && PackageUpdates(old(package.present), old(package.document), package.writable))))
    ensures ValidateVersion(version) && !dryRun ==>
      && pyproject.text == (if TextUpdates(old(pyproject.text), pyproject.readable, pyproject.writable, "version", version)
                            then Some(Substitute(old(pyproject.text).value, "version", version)) else old(pyproject.text))
      && init.text == (if TextUpdates(old(init.text), init.readable, init.writable, "__version__", version)
                       then Some(Substitute(old(init.text).value, "__version__", version)) else old(init.text))
      && package.present == old(package.present)
      && package.document == (if old(package.present) && PackageUpdates(old(package.present), old(package.document), package.writable)
                              then Some(Dict(old(package.document).value.entries["version" := Str(version)]))
                              else old(package.document))
  {
    if !ValidateVersion(version) {
      return 1;
    }
    var success := true;
    if pyproject.text.Some? {
      if !dryRun {
        var ok := UpdatePyprojectToml(version, pyproject);
        success := success && ok;
      }
    } else {
      success := false;
    }
    if init.text.Some? {
      if !dryRun {
        var ok := UpdateInitPy(version, init);
        success := success && ok;
      }
    } else {
      success := false;
    }
    if !dryRun {
      var ok := UpdatePackageJson(version, package);
      success := success && ok;
    }
    exitCode := ExitStatus(success);
  }
}
