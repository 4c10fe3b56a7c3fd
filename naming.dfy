/**
 * Resource-name sanitising and environment classification.
 */
module Naming {
  import opened Strings
  import opened Models

  /** Characters a sanitised name may hold: lower-case ASCII letters, digits and '-'. */
  predicate NameChar(c: char)
  {
    IsAsciiLower(c) || IsDigit(c) || c == '-'
  }

  /** `re.sub(r'[^a-zA-Z0-9-]', '-', s)`. */
  function ReplaceInvalid(s: string): (r: string)
    ensures |r| == |s|
    ensures forall i :: 0 <= i < |s| ==> r[i] == (if IsAsciiLower(s[i]) || IsAsciiUpper(s[i]) || IsDigit(s[i]) || s[i] == '-' then s[i] else '-')
  {
    seq(|s|, i requires 0 <= i < |s| =>
      if IsAsciiLower(s[i]) || IsAsciiUpper(s[i]) || IsDigit(s[i]) || s[i] == '-' then s[i] else '-')
  }

  /** No two neighbouring characters are both hyphens. */
  predicate NoAdjacentHyphens(s: string)
  {
    forall i, j :: 0 <= i < |s| && 0 <= j < |s| && j == i + 1 ==> !(s[i] == '-' && s[j] == '-')
  }

  /** `re.sub(r'-+', '-', s)`: every run of hyphens becomes one. */
  function CollapseHyphens(s: string): (r: string)
    ensures |r| <= |s|
    ensures s != [] ==> r != [] && r[0] == s[0] && r[|r| - 1] == s[|s| - 1]
    ensures NoAdjacentHyphens(r)
    decreases |s|
  {
    if |s| <= 1 then s
    else if s[0] == '-' && s[1] == '-' then CollapseHyphens(s[1..])
    else [s[0]] + CollapseHyphens(s[1..])
  }

  /** `sanitize_resource_name`. */
  function Sanitize(name: string): (r: string)
    ensures forall i :: 0 <= i < |r| ==> NameChar(r[i])
    ensures r != [] ==> r[0] != '-' && r[|r| - 1] != '-'
    ensures NoAdjacentHyphens(r)
  {
    var trimmed := Trimmed(name);
    CollapseKeepsNameChars(trimmed);
    CollapseHyphens(trimmed)
  }

  /** The first two substitutions of `sanitize_resource_name`: invalid characters, then edge hyphens. */
  function Trimmed(name: string): (t: string)
    ensures forall i :: 0 <= i < |t| ==> NameChar(t[i])
    ensures t != [] ==> t[0] != '-' && t[|t| - 1] != '-'
  {
    TrimmedNameChars(name);
    TrimRight(TrimLeft(ReplaceInvalid(Lower(name)), Exactly('-')), Exactly('-'))
  }

  lemma LowerCharNotUpper(c: char)
    ensures !IsAsciiUpper(LowerChar(c))
  {
  }

  lemma TrimmedNameChars(name: string)
    ensures var t := TrimRight(TrimLeft(ReplaceInvalid(Lower(name)), Exactly('-')), Exactly('-'));
      (forall i :: 0 <= i < |t| ==> NameChar(t[i])) && (t != [] ==> t[0] != '-' && t[|t| - 1] != '-')
  {
    ReplacedNameChars(name);
    TrimKeepsNameChars(ReplaceInvalid(Lower(name)));
  }

  lemma ReplacedNameChars(name: string)
    ensures forall i :: 0 <= i < |ReplaceInvalid(Lower(name))| ==> NameChar(ReplaceInvalid(Lower(name))[i])
  {
    var lowered := Lower(name);
    var replaced := ReplaceInvalid(lowered);
    forall i | 0 <= i < |replaced|
      ensures NameChar(replaced[i])
    {
      LowerCharNotUpper(name[i]);
      assert !IsAsciiUpper(lowered[i]);
    }
  }

  lemma TrimKeepsNameChars(s: string)
    requires forall i :: 0 <= i < |s| ==> NameChar(s[i])
    ensures var t := TrimRight(TrimLeft(s, Exactly('-')), Exactly('-'));
      (forall i :: 0 <= i < |t| ==> NameChar(t[i])) && (t != [] ==> t[0] != '-' && t[|t| - 1] != '-')
  {
    var left := TrimLeft(s, Exactly('-'));
    forall i | 0 <= i < |left|
      ensures NameChar(left[i])
    {
      assert left[i] == s[|s| - |left| + i];
    }
    var trimmed := TrimRight(left, Exactly('-'));
    forall i | 0 <= i < |trimmed|
      ensures NameChar(trimmed[i])
    {
      assert trimmed[i] == left[i];
    }
    if trimmed != [] {
      assert trimmed[0] == left[0];
    }
  }

  lemma {:induction false} CollapseKeepsNameChars(s: string)
    requires forall i :: 0 <= i < |s| ==> NameChar(s[i])
    ensures forall i :: 0 <= i < |CollapseHyphens(s)| ==> NameChar(CollapseHyphens(s)[i])
    decreases |s|
  {
    if |s| > 1 {
      var t := s[1..];
      assert forall i :: 0 <= i < |t| ==> t[i] == s[i + 1];
      CollapseKeepsNameChars(t);
      var rt := CollapseHyphens(t);
      if s[0] == '-' && s[1] == '-' {
        assert CollapseHyphens(s) == rt;
      } else {
        assert CollapseHyphens(s) == [s[0]] + rt;
        assert forall i :: 1 <= i < |rt| + 1 ==> ([s[0]] + rt)[i] == rt[i - 1];
      }
    }
  }

  lemma {:induction false} CollapseFixpoint(s: string)
    requires NoAdjacentHyphens(s)
    ensures CollapseHyphens(s) == s
    decreases |s|
  {
    if |s| > 1 {
      var t := s[1..];
      forall i, j | 0 <= i < |t| && 0 <= j < |t| && j == i + 1
        ensures !(t[i] == '-' && t[j] == '-')
      {
        assert t[i] == s[i + 1] && t[j] == s[j + 1];
      }
      CollapseFixpoint(t);
      assert s == [s[0]] + t;
    }
  }

  /** A sanitised name is its own sanitisation, so sanitising twice equals sanitising once. */
  lemma SanitizeIdempotent(name: string)
    ensures Sanitize(Sanitize(name)) == Sanitize(name)
  {
    SanitizedFixpoint(Sanitize(name));
  }

  lemma SanitizedFixpoint(s: string)
    requires forall i :: 0 <= i < |s| ==> NameChar(s[i])
    requires s != [] ==> s[0] != '-' && s[|s| - 1] != '-'
    requires NoAdjacentHyphens(s)
    ensures Sanitize(s) == s
  {
    TrimmedFixpoint(s);
    CollapseFixpoint(s);
  }

  /** The first two substitutions leave a name of name characters without edge hyphens alone. */
  lemma TrimmedFixpoint(s: string)
    requires forall i :: 0 <= i < |s| ==> NameChar(s[i])
    requires s != [] ==> s[0] != '-' && s[|s| - 1] != '-'
    ensures Trimmed(s) == s
  {
    LowerFixpoint(s);
    var lowered := Lower(s);
    forall i | 0 <= i < |s|
      ensures ReplaceInvalid(lowered)[i] == s[i]
    {
      assert lowered[i] == s[i];
    }
    assert ReplaceInvalid(lowered) == s;
    assert TrimLeft(s, Exactly('-')) == s;
    assert TrimRight(s, Exactly('-')) == s;
  }

  lemma LowerFixpoint(s: string)
    requires forall i :: 0 <= i < |s| ==> NameChar(s[i])
    ensures Lower(s) == s
  {
    forall i | 0 <= i < |s|
      ensures Lower(s)[i] == s[i]
    {
      assert NameChar(s[i]);
    }
  }

  const ProductionPatterns: seq<string> := ["prod", "production", "live"]

  /** `get_environment_type`: the first production pattern found in the lower-cased name decides. */
  function EnvironmentTypeOf(environment: string): (r: EnvironmentType)
    ensures r == Production <==> Contains(Lower(environment), "prod") || Contains(Lower(environment), "live")
  {
    var lowered := Lower(environment);
    ProductionMentionsProd(lowered);
    if Contains(lowered, ProductionPatterns[0]) || Contains(lowered, ProductionPatterns[1]) || Contains(lowered, ProductionPatterns[2])
    then Production
    else NonProduction
  }

  lemma ProductionMentionsProd(s: string)
    ensures Contains(s, "production") ==> Contains(s, "prod")
  {
    if Contains(s, "production") {
      ContainsPrefixOf(s, "production", "prod");
    }
  }

  /**
   * The classification a discovered resource gets instead: a case-sensitive
   * test for "prod" alone.
   */
  function ResourceEnvironmentType(environment: string): (r: EnvironmentType)
    ensures r == Production <==> Contains(environment, "prod")
  {
    if Contains(environment, "prod") then Production else NonProduction
  }

  /** The two classifications agree on lower-case names that do not mention "live". */
  lemma ClassificationsAgree(environment: string)
    requires Lower(environment) == environment && !Contains(environment, "live")
    ensures EnvironmentTypeOf(environment) == ResourceEnvironmentType(environment)
  {
  }
}
