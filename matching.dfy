/**
 * `re.search` and `re.finditer` over a table that gives, for each position
 * of the text, the match of the pattern starting there (if any) and where
 * that match ends. A search takes the leftmost match; `finditer` takes the
 * leftmost match and resumes the search where that match ended.
 */
module Matching {
  import opened Wrappers

  /** The leftmost position at or after `from` where the pattern matches. */
  function First<T>(table: seq<Option<T>>, from: nat): (r: Option<nat>)
    requires from <= |table|
    ensures r.Some? ==> from <= r.value < |table| && table[r.value].Some?
    ensures r.Some? ==> forall j :: from <= j < r.value ==> table[j].None?
    ensures r.None? ==> forall j :: from <= j < |table| ==> table[j].None?
    decreases |table| - from
  {
    if from == |table| then None
    else if table[from].Some? then Some(from)
    else First(table, from + 1)
  }

  /** The rightmost position in `[lo, hi)` where the pattern matches. */
  function Last<T>(table: seq<Option<T>>, lo: nat, hi: nat): (r: Option<nat>)
    requires lo <= hi <= |table|
    ensures r.Some? ==> lo <= r.value < hi && table[r.value].Some?
    ensures r.Some? ==> forall j :: r.value < j < hi ==> table[j].None?
    ensures r.None? ==> forall j :: lo <= j < hi ==> table[j].None?
    decreases hi - lo
  {
    if hi == lo then None
    else if table[hi - 1].Some? then Some(hi - 1)
    else Last(table, lo, hi - 1)
  }

  /** Every match ends after it starts, and within the text. */
  predicate Advancing<T>(table: seq<Option<(T, nat)>>)
  {
    forall i :: 0 <= i < |table| && table[i].Some? ==> i < table[i].value.1 <= |table|
  }

  /** The start of each match `finditer` reports from `from`, in order. */
  function FindAll<T>(table: seq<Option<(T, nat)>>, from: nat): (r: seq<nat>)
    requires Advancing(table) && from <= |table|
    ensures forall k :: 0 <= k < |r| ==> from <= r[k] < |table| && table[r[k]].Some?
    ensures forall k :: 0 <= k < |r| - 1 ==> table[r[k]].value.1 <= r[k + 1]
    decreases |table| - from
  {
    if from == |table| then []
    else
      match table[from]
      case Some((_, end)) => [from] + FindAll(table, end)
      case None => FindAll(table, from + 1)
  }

  /** No match starts outside the matches reported: before the first, between two, or after the last. */
  lemma {:induction false} FindAllLeftmost<T>(table: seq<Option<(T, nat)>>, from: nat, p: nat)
    requires Advancing(table) && from <= p < |table|
    requires forall k :: 0 <= k < |FindAll(table, from)| ==>
      p < FindAll(table, from)[k] || table[FindAll(table, from)[k]].value.1 <= p
    ensures table[p].None?
    decreases |table| - from
  {
    var r := FindAll(table, from);
    match table[from]
    case Some((_, end)) =>
      assert r[0] == from;
      var rest := FindAll(table, end);
      assert r == [from] + rest;
      if end <= p {
        forall k | 0 <= k < |rest|
          ensures p < rest[k] || table[rest[k]].value.1 <= p
        {
          assert rest[k] == r[k + 1];
        }
        FindAllLeftmost(table, end, p);
      }
    case None =>
      if from < p {
        FindAllLeftmost(table, from + 1, p);
      }
  }

  /** A match reported ends no later than any match reported after it starts. */
  lemma {:induction false} FindAllOrdered<T>(table: seq<Option<(T, nat)>>, from: nat, i: nat, j: nat)
    requires Advancing(table) && from <= |table| && i < j < |FindAll(table, from)|
    ensures table[FindAll(table, from)[i]].value.1 <= FindAll(table, from)[j]
    decreases j - i
  {
    var r := FindAll(table, from);
    if i + 1 < j {
      FindAllOrdered(table, from, i + 1, j);
      assert r[i + 1] < table[r[i + 1]].value.1;
    }
  }

  /** No match starts before the first one reported. */
  lemma FindAllBefore<T>(table: seq<Option<(T, nat)>>, from: nat, p: nat)
    requires Advancing(table) && from <= p < |table|
    requires FindAll(table, from) == [] || p < FindAll(table, from)[0]
    ensures table[p].None?
  {
    var r := FindAll(table, from);
    forall k | 0 <= k < |r|
      ensures p < r[k]
    {
      if k > 0 {
        StartsInOrder(table, from, 0, k);
      }
    }
    FindAllLeftmost(table, from, p);
  }

  /** No match starts after the end of the `k`-th one reported and before the next (or the end). */
  lemma FindAllBetween<T>(table: seq<Option<(T, nat)>>, from: nat, k: nat, p: nat)
    requires Advancing(table) && from <= |table| && k < |FindAll(table, from)|
    requires table[FindAll(table, from)[k]].value.1 <= p < |table|
    requires k + 1 < |FindAll(table, from)| ==> p < FindAll(table, from)[k + 1]
    ensures table[p].None?
  {
    var r := FindAll(table, from);
    forall q | 0 <= q < |r|
      ensures p < r[q] || table[r[q]].value.1 <= p
    {
      if q < k {
        EndsInOrder(table, from, q, k);
      } else if q > k + 1 {
        StartsInOrder(table, from, k + 1, q);
      }
    }
    FindAllLeftmost(table, from, p);
  }

  lemma EndsInOrder<T>(table: seq<Option<(T, nat)>>, from: nat, i: nat, j: nat)
    requires Advancing(table) && from <= |table| && i < j < |FindAll(table, from)|
    ensures table[FindAll(table, from)[i]].value.1 <= table[FindAll(table, from)[j]].value.1
  {
    var r := FindAll(table, from);
    FindAllOrdered(table, from, i, j);
    assert r[j] < table[r[j]].value.1;
  }

  lemma StartsInOrder<T>(table: seq<Option<(T, nat)>>, from: nat, i: nat, j: nat)
    requires Advancing(table) && from <= |table| && i < j < |FindAll(table, from)|
    ensures FindAll(table, from)[i] < FindAll(table, from)[j]
  {
    var r := FindAll(table, from);
    FindAllOrdered(table, from, i, j);
    assert r[i] < table[r[i]].value.1;
  }

  /** The values of the matches starting at `starts`. */
  function Values<T>(table: seq<Option<(T, nat)>>, starts: seq<nat>): (r: seq<T>)
    requires forall k :: 0 <= k < |starts| ==> starts[k] < |table| && table[starts[k]].Some?
    ensures |r| == |starts| && forall k :: 0 <= k < |starts| ==> r[k] == table[starts[k]].value.0
  {
    if starts == [] then [] else [table[starts[0]].value.0] + Values(table, starts[1..])
  }

  /** One turn of the `finditer` loop: a match at `i` is taken and the search resumes at its end. */
  lemma ValuesStep<T>(table: seq<Option<(T, nat)>>, i: nat)
    requires Advancing(table) && i < |table|
    ensures table[i].Some? ==> Values(table, FindAll(table, i)) == [table[i].value.0] + Values(table, FindAll(table, table[i].value.1))
    ensures table[i].None? ==> Values(table, FindAll(table, i)) == Values(table, FindAll(table, i + 1))
  {
    if table[i].Some? {
      var rest := FindAll(table, table[i].value.1);
      assert FindAll(table, i) == [i] + rest;
      assert ([i] + rest)[1..] == rest;
    }
  }

  /** The loop `for match in finditer(...)` collecting each match's value. */
  method CollectAll<T>(table: seq<Option<(T, nat)>>) returns (values: seq<T>)
    requires Advancing(table)
    ensures values == Values(table, FindAll(table, 0))
  {
    values := [];
    var i := 0;
    while i < |table|
      invariant i <= |table|
      invariant values + Values(table, FindAll(table, i)) == Values(table, FindAll(table, 0))
      decreases |table| - i
    {
      ValuesStep(table, i);
      match table[i] {
        case Some((v, end)) =>
          values := values + [v];
          i := end;
        case None =>
          i := i + 1;
      }
    }
  }
}
