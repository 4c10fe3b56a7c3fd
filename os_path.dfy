/**
 * POSIX `os.path` as the tool uses it: `join`, `normpath` and `relpath`.
 * `normpath` is modelled by its component loop: empty and "." components are
 * dropped, ".." removes the previous component, except that a relative path
 * keeps leading ".." components and an absolute one drops them.
 */
module OsPath {
  import opened Strings

  /** One turn of `normpath`'s loop over components. */
  function NormStep(stack: seq<string>, comp: string, absolute: bool): seq<string>
  {
    if comp == "" || comp == "." then stack
    else if comp != ".." || (!absolute && stack == []) || (stack != [] && stack[|stack| - 1] == "..") then stack + [comp]
    else if stack != [] then stack[..|stack| - 1]
    else stack
  }

  /** `normpath`'s loop over `comps`, starting from the components already kept in `stack`. */
  function NormFold(stack: seq<string>, comps: seq<string>, absolute: bool): seq<string>
    decreases |comps|
  {
    if comps == [] then stack
    else NormFold(NormStep(stack, comps[0], absolute), comps[1..], absolute)
  }

  /** Python's `os.path.normpath` (POSIX). */
  function NormPath(path: string): string
  {
    var slashes := if "//" <= path && !("///" <= path) then "//" else if "/" <= path then "/" else "";
    var r := slashes + Join(NormFold([], Split(path, '/'), slashes != ""), "/");
    if r == "" then "." else r
  }

  /** Python's `os.path.join(a, b)` (POSIX). */
  function JoinPath(a: string, b: string): string
  {
    if "/" <= b then b
    else if a == "" || a[|a| - 1] == '/' then a + b
    else a + "/" + b
  }

  /**
   * The components `normpath` can produce: no empty or "." component, and ".."
   * only in a leading run of a relative path.
   */
  predicate Normalized(comps: seq<string>, absolute: bool)
  {
    (forall k :: 0 <= k < |comps| ==> comps[k] != "" && comps[k] != ".")
    && (forall k :: 0 <= k < |comps| && comps[k] == ".." ==> !absolute && forall j :: 0 <= j < k ==> comps[j] == "..")
  }

  lemma {:induction false} NormFoldNormalized(stack: seq<string>, comps: seq<string>, absolute: bool)
    requires Normalized(stack, absolute)
    ensures Normalized(NormFold(stack, comps, absolute), absolute)
    decreases |comps|
  {
    if comps != [] {
      var next := NormStep(stack, comps[0], absolute);
      assert Normalized(next, absolute) by {
        if stack != [] && next == stack[..|stack| - 1] {
          assert forall k :: 0 <= k < |next| ==> next[k] == stack[k];
        }
      }
      NormFoldNormalized(next, comps[1..], absolute);
    }
  }

  /** `normpath` leaves already normalized components as they are. */
  lemma {:induction false} NormalizedFixpoint(stack: seq<string>, comps: seq<string>, absolute: bool)
    requires Normalized(stack + comps, absolute)
    ensures NormFold(stack, comps, absolute) == stack + comps
    decreases |comps|
  {
    if comps != [] {
      var all := stack + comps;
      assert all[|stack|] == comps[0];
      if comps[0] == ".." && stack != [] {
        assert all[|stack| - 1] == stack[|stack| - 1];
      }
      assert NormStep(stack, comps[0], absolute) == stack + [comps[0]];
      assert (stack + [comps[0]]) + comps[1..] == all;
      NormalizedFixpoint(stack + [comps[0]], comps[1..], absolute);
    }
  }

  lemma {:induction false} NormFoldAppend(stack: seq<string>, a: seq<string>, b: seq<string>, absolute: bool)
    ensures NormFold(stack, a + b, absolute) == NormFold(NormFold(stack, a, absolute), b, absolute)
    decreases |a|
  {
    if a == [] {
      assert a + b == b;
    } else {
      assert (a + b)[0] == a[0] && (a + b)[1..] == a[1..] + b;
      NormFoldAppend(NormStep(stack, a[0], absolute), a[1..], b, absolute);
    }
  }

  /** Once a relative path starts with "..", that first ".." is never removed. */
  lemma {:induction false} LeadingParentPersists(stack: seq<string>, comps: seq<string>)
    requires stack != [] && stack[0] == ".."
    ensures var r := NormFold(stack, comps, false); r != [] && r[0] == ".."
    decreases |comps|
  {
    if comps != [] {
      LeadingParentPersists(NormStep(stack, comps[0], false), comps[1..]);
    }
  }

  /**
   * If the relative normalization of `comps` from `stack` never climbs out of
   * `stack` (its result has no ".."), then the same components behave the same
   * on top of any further ".."-free `prefix`, for absolute and relative paths.
   */
  lemma {:induction false} PrefixUntouched(prefix: seq<string>, stack: seq<string>, comps: seq<string>, absolute: bool)
    requires ".." !in prefix && ".." !in stack
    requires ".." !in NormFold(stack, comps, false)
    ensures NormFold(prefix + stack, comps, absolute) == prefix + NormFold(stack, comps, false)
    decreases |comps|
  {
    if comps != [] {
      var c := comps[0];
      var relNext := NormStep(stack, c, false);
      if c == ".." && stack == [] {
        LeadingParentPersists(relNext, comps[1..]);
      } else {
        if c == ".." {
          assert (prefix + stack)[|prefix + stack| - 1] == stack[|stack| - 1];
          assert (prefix + stack)[..|prefix + stack| - 1] == prefix + stack[..|stack| - 1];
          assert ".." !in stack[..|stack| - 1] by {
            assert forall k :: 0 <= k < |stack| - 1 ==> stack[..|stack| - 1][k] == stack[k];
          }
        } else if c != "" && c != "." {
          assert (prefix + stack) + [c] == prefix + (stack + [c]);
        }
        assert NormStep(prefix + stack, c, absolute) == prefix + relNext;
        PrefixUntouched(prefix, relNext, comps[1..], absolute);
      }
    }
  }

  /** Length of the longest common prefix of two component lists (`os.path.commonprefix`). */
  function CommonPrefixLength(a: seq<string>, b: seq<string>): (n: nat)
    ensures n <= |a| && n <= |b| && a[..n] == b[..n]
    ensures n < |a| && n < |b| ==> a[n] != b[n]
  {
    if a == [] || b == [] || a[0] != b[0] then 0
    else
      var m := CommonPrefixLength(a[1..], b[1..]);
      assert a[..m + 1] == [a[0]] + a[1..][..m];
      assert b[..m + 1] == [b[0]] + b[1..][..m];
      1 + m
  }

  lemma {:induction false} CommonPrefixOfExtension(a: seq<string>, rest: seq<string>)
    ensures CommonPrefixLength(a, a + rest) == |a|
  {
    assert forall k :: 0 <= k < |a| ==> (a + rest)[k] == a[k];
  }

  function Parents(n: nat): (r: seq<string>)
    ensures |r| == n && forall k :: 0 <= k < n ==> r[k] == ".."
  {
    if n == 0 then [] else Parents(n - 1) + [".."]
  }

  /** The non-empty names of a path string, as `relpath` takes an absolute path apart. */
  function AbsNames(path: string): seq<string>
  {
    NonEmpty(Split(path, '/'))
  }

  function NonEmpty(pieces: seq<string>): (r: seq<string>)
    ensures forall k :: 0 <= k < |r| ==> r[k] != ""
  {
    if pieces == [] then []
    else (if pieces[0] == "" then [] else [pieces[0]]) + NonEmpty(pieces[1..])
  }

  lemma {:induction false} NonEmptyOfNonEmpty(pieces: seq<string>)
    requires forall k :: 0 <= k < |pieces| ==> pieces[k] != ""
    ensures NonEmpty(pieces) == pieces
  {
    if pieces != [] {
      NonEmptyOfNonEmpty(pieces[1..]);
      assert pieces == [pieces[0]] + pieces[1..];
    }
  }

  /**
   * Python's `os.path.relpath(path, start)` where both are absolute and
   * already normalized, given by their components.
   */
  function RelPath(path: seq<string>, start: seq<string>): string
  {
    var i := CommonPrefixLength(start, path);
    var rel := Parents(|start| - i) + path[i..];
    if rel == [] then "." else Join(rel, "/")
  }

  /** A path below `start` is reported relative to it by its remaining names. */
  lemma RelPathOfExtension(start: seq<string>, rest: seq<string>)
    ensures RelPath(start + rest, start) == if rest == [] then "." else Join(rest, "/")
  {
    CommonPrefixOfExtension(start, rest);
    assert Parents(0) == [];
    assert (start + rest)[|start|..] == rest;
    assert Parents(0) + rest == rest;
  }
}
