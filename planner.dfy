/**
 * The execution order of a stack's units: a layered topological sort.
 * Each round emits, as one batch, every unit none of whose dependencies is
 * still waiting; when no unit is ready (a dependency cycle), every waiting
 * unit is emitted together as a last, forced batch.
 */
module Planner {
  import opened Models

  /** Each unit path with the dependency list of the unit kept for it. */
  type DepMap = map<string, seq<string>>

  function PathSet(units: seq<TerragruntUnit>): set<string>
  {
    set i | 0 <= i < |units| :: units[i].path
  }

  /** `{unit.path: unit for unit in units}`: a later unit with the same path replaces an earlier one. */
  function UnitMap(units: seq<TerragruntUnit>): (m: DepMap)
    ensures m.Keys == PathSet(units)
  {
    if units == [] then map[]
    else
      var init := units[..|units| - 1];
      var last := units[|units| - 1];
      assert PathSet(units) == PathSet(init) + {last.path} by {
        assert forall i :: 0 <= i < |init| ==> init[i] == units[i];
      }
      UnitMap(init)[last.path := last.dependencies]
  }

  /** The dependencies recorded for a path are those of the last unit with that path. */
  lemma {:induction false} LastUnitWins(units: seq<TerragruntUnit>, i: nat)
    requires i < |units|
    requires forall j :: i < j < |units| ==> units[j].path != units[i].path
    ensures UnitMap(units)[units[i].path] == units[i].dependencies
  {
    if i < |units| - 1 {
      var init := units[..|units| - 1];
      assert forall j :: i < j < |init| ==> init[j] == units[j];
      LastUnitWins(init, i);
    }
  }

  /** No dependency of the list is still waiting. */
  predicate Resolved(deps: seq<string>, remaining: set<string>)
  {
    forall k :: 0 <= k < |deps| ==> deps[k] !in remaining
  }

  /** `[dep for dep in deps if dep in remaining]`. */
  function Unresolved(deps: seq<string>, remaining: set<string>): (r: seq<string>)
    ensures r == [] <==> Resolved(deps, remaining)
  {
    if deps == [] then []
    else
      assert Resolved(deps, remaining) <==> deps[0] !in remaining && Resolved(deps[1..], remaining) by {
        assert forall k :: 1 <= k < |deps| ==> deps[k] == deps[1..][k - 1];
      }
      (if deps[0] in remaining then [deps[0]] else []) + Unresolved(deps[1..], remaining)
  }

  /** The units ready in a round. */
  function Ready(m: DepMap, remaining: set<string>): (r: set<string>)
    requires remaining <= m.Keys
    ensures r <= remaining
    ensures forall p :: p in r <==> p in remaining && Resolved(m[p], remaining)
  {
    set p | p in remaining && Resolved(m[p], remaining)
  }

  /** No unit is ready: the round emits everything that is left. */
  predicate Forced(m: DepMap, remaining: set<string>)
    requires remaining <= m.Keys
  {
    Ready(m, remaining) == {}
  }

  /** The batch a round emits. */
  function NextBatch(m: DepMap, remaining: set<string>): (b: Batch)
    requires remaining <= m.Keys
    ensures b <= remaining
    ensures remaining != {} ==> b != {}
  {
    if Forced(m, remaining) then remaining else Ready(m, remaining)
  }

  lemma Shrinks(remaining: set<string>, b: set<string>)
    requires b <= remaining && b != {}
    ensures |remaining - b| < |remaining|
  {
    var x :| x in b;
    assert remaining - b <= remaining - {x};
    assert |remaining - {x}| == |remaining| - 1;
  }

  /** The batches emitted, round after round, for the waiting units `remaining`. */
  function Layers(m: DepMap, remaining: set<string>): (r: seq<Batch>)
    requires remaining <= m.Keys
    ensures |r| <= |remaining|
    ensures forall i :: 0 <= i < |r| ==> r[i] != {} && r[i] <= remaining
    decreases |remaining|
  {
    if remaining == {} then []
    else
      var b := NextBatch(m, remaining);
      Shrinks(remaining, b);
      [b] + Layers(m, remaining - b)
  }

  lemma LayersUnfold(m: DepMap, remaining: set<string>)
    requires remaining <= m.Keys && remaining != {}
    ensures NextBatch(m, remaining) <= remaining
    ensures Layers(m, remaining) == [NextBatch(m, remaining)] + Layers(m, remaining - NextBatch(m, remaining))
    ensures |remaining - NextBatch(m, remaining)| < |remaining|
  {
    Shrinks(remaining, NextBatch(m, remaining));
  }

  /** The units waiting before round `i`. */
  function RemainingAt(m: DepMap, remaining: set<string>, i: nat): (r: set<string>)
    requires remaining <= m.Keys
    ensures r <= remaining
    decreases i
  {
    if i == 0 || remaining == {} then remaining
    else RemainingAt(m, remaining - NextBatch(m, remaining), i - 1)
  }

  function Flatten(batches: seq<Batch>): set<string>
  {
    if batches == [] then {} else batches[0] + Flatten(batches[1..])
  }

  lemma {:induction false} FlattenAppend(a: seq<Batch>, b: seq<Batch>)
    ensures Flatten(a + b) == Flatten(a) + Flatten(b)
    decreases |a|
  {
    if a == [] {
      assert a + b == b;
    } else {
      assert (a + b)[0] == a[0];
      assert (a + b)[1..] == a[1..] + b;
      FlattenAppend(a[1..], b);
    }
  }

  lemma {:induction false} FlattenMember(batches: seq<Batch>, x: string) returns (j: nat)
    requires x in Flatten(batches)
    ensures j < |batches| && x in batches[j]
    decreases |batches|
  {
    if x in batches[0] {
      j := 0;
    } else {
      var j' := FlattenMember(batches[1..], x);
      j := j' + 1;
    }
  }

  /** No two batches share a unit. */
  predicate PairwiseDisjoint(batches: seq<Batch>)
  {
    forall i, j :: 0 <= i < j < |batches| ==> batches[i] !! batches[j]
  }

  /** The batches partition the units: no two share a unit, and together they hold every unit. */
  lemma LayersPartition(m: DepMap, remaining: set<string>)
    requires remaining <= m.Keys
    ensures PairwiseDisjoint(Layers(m, remaining)) && Flatten(Layers(m, remaining)) == remaining
  {
    LayersDisjoint(m, remaining);
    LayersCover(m, remaining);
  }

  lemma {:induction false} LayersDisjoint(m: DepMap, remaining: set<string>)
    requires remaining <= m.Keys
    ensures PairwiseDisjoint(Layers(m, remaining))
    decreases |remaining|
  {
    if remaining != {} {
      var b := NextBatch(m, remaining);
      var rest := remaining - b;
      LayersUnfold(m, remaining);
      LayersDisjoint(m, rest);
      ConsDisjoint(b, Layers(m, rest), rest);
    }
  }

  /** A batch disjoint from a set stays disjoint from batches inside that set. */
  lemma ConsDisjoint(b: Batch, tail: seq<Batch>, rest: set<string>)
    requires PairwiseDisjoint(tail) && b !! rest
    requires forall i :: 0 <= i < |tail| ==> tail[i] != {} && tail[i] <= rest
    ensures PairwiseDisjoint([b] + tail)
  {
    var layers := [b] + tail;
    forall i, j | 0 <= i < j < |layers|
      ensures layers[i] !! layers[j]
    {
      assert layers[j] == tail[j - 1];
      if i > 0 {
        assert layers[i] == tail[i - 1];
      }
    }
  }

  lemma {:induction false} LayersCover(m: DepMap, remaining: set<string>)
    requires remaining <= m.Keys
    ensures Flatten(Layers(m, remaining)) == remaining
    decreases |remaining|
  {
    if remaining != {} {
      var b := NextBatch(m, remaining);
      LayersUnfold(m, remaining);
      LayersCover(m, remaining - b);
      var layers := Layers(m, remaining);
      assert layers[0] == b && layers[1..] == Layers(m, remaining - b);
    }
  }

  /** Round `i` continues from the units still waiting then. */
  lemma {:induction false} LayersFrom(m: DepMap, remaining: set<string>, i: nat)
    requires remaining <= m.Keys && i <= |Layers(m, remaining)|
    ensures Layers(m, RemainingAt(m, remaining, i)) == Layers(m, remaining)[i..]
    decreases i
  {
    if i > 0 {
      var b := NextBatch(m, remaining);
      LayersUnfold(m, remaining);
      LayersFrom(m, remaining - b, i - 1);
      ConsDrop(b, Layers(m, remaining - b), i);
    }
  }

  lemma ConsDrop<T>(x: T, t: seq<T>, i: nat)
    requires 1 <= i <= |t| + 1
    ensures ([x] + t)[i..] == t[i - 1..]
  {
  }

  /** Batch `i` is what round `i` emits, and the units waiting then are those of batches `i` onwards. */
  lemma LayerAt(m: DepMap, remaining: set<string>, i: nat)
    requires remaining <= m.Keys && i < |Layers(m, remaining)|
    ensures var layers := Layers(m, remaining); var rem := RemainingAt(m, remaining, i);
      rem != {} && layers[i] == NextBatch(m, rem) && rem == Flatten(layers[i..])
  {
    var rem := RemainingAt(m, remaining, i);
    LayersFrom(m, remaining, i);
    LayersCover(m, rem);
  }

  /**
   * When round `i` is not forced, every dependency a unit of batch `i` has
   * inside the unit set sits in an earlier batch.
   */
  lemma DependenciesComeFirst(m: DepMap, remaining: set<string>, i: nat, u: string, k: nat)
    requires remaining <= m.Keys && i < |Layers(m, remaining)|
    requires !Forced(m, RemainingAt(m, remaining, i))
    requires u in Layers(m, remaining)[i] && k < |m[u]| && m[u][k] in remaining
    ensures exists j :: 0 <= j < i && m[u][k] in Layers(m, remaining)[j]
  {
    var layers := Layers(m, remaining);
    var d := m[u][k];
    var rem := RemainingAt(m, remaining, i);
    LayerAt(m, remaining, i);
    ReadyResolvedAt(m, rem, u, k);
    LayersCover(m, remaining);
    FlattenSplit(layers, i);
    var j := FlattenMember(layers[..i], d);
    assert layers[..i][j] == layers[j];
  }

  /** A unit of an unforced round has none of its dependencies still waiting. */
  lemma ReadyResolvedAt(m: DepMap, rem: set<string>, u: string, k: nat)
    requires rem <= m.Keys && !Forced(m, rem)
    requires u in NextBatch(m, rem) && k < |m[u]|
    ensures m[u][k] !in rem
  {
  }

  lemma FlattenSplit(batches: seq<Batch>, i: nat)
    requires i <= |batches|
    ensures Flatten(batches) == Flatten(batches[..i]) + Flatten(batches[i..])
  {
    assert batches == batches[..i] + batches[i..];
    FlattenAppend(batches[..i], batches[i..]);
  }

  /** A forced round empties the waiting set: it is the last batch, holding every unit left. */
  lemma ForcedIsLast(m: DepMap, remaining: set<string>, i: nat)
    requires remaining <= m.Keys && i < |Layers(m, remaining)|
    requires Forced(m, RemainingAt(m, remaining, i))
    ensures i == |Layers(m, remaining)| - 1
    ensures Layers(m, remaining)[i] == RemainingAt(m, remaining, i)
  {
    var rem := RemainingAt(m, remaining, i);
    LayersFrom(m, remaining, i);
    LayerAt(m, remaining, i);
    assert Layers(m, rem) == [rem] + Layers(m, {});
    assert |Layers(m, remaining)[i..]| == 1;
  }

  /**
   * The batch index of a unit emitted in an unforced round is 0 when it has no
   * dependency inside the unit set, and otherwise one more than the latest
   * batch holding one of its dependencies.
   */
  lemma BatchIndex(m: DepMap, remaining: set<string>, i: nat, u: string)
    requires remaining <= m.Keys && i < |Layers(m, remaining)|
    requires !Forced(m, RemainingAt(m, remaining, i))
    requires u in Layers(m, remaining)[i]
    ensures i == 0 <==> Resolved(m[u], remaining)
    ensures i > 0 ==> exists k :: 0 <= k < |m[u]| && m[u][k] in Layers(m, remaining)[i - 1]
  {
    LayerAt(m, remaining, i);
    if i == 0 {
      ReadyResolved(m, remaining, u);
    } else {
      NotFirstRound(m, remaining, i, u);
      var k := PreviousDependency(m, remaining, i, u);
    }
  }

  /** A unit of an unforced round has all of its dependencies out of the waiting set. */
  lemma ReadyResolved(m: DepMap, rem: set<string>, u: string)
    requires rem <= m.Keys && !Forced(m, rem) && u in NextBatch(m, rem)
    ensures Resolved(m[u], rem)
  {
  }

  /** A unit emitted after the first round has a dependency inside the unit set. */
  lemma NotFirstRound(m: DepMap, remaining: set<string>, i: nat, u: string)
    requires remaining <= m.Keys && 0 < i < |Layers(m, remaining)|
    requires u in Layers(m, remaining)[i]
    ensures !Resolved(m[u], remaining)
  {
    var layers := Layers(m, remaining);
    LayersDisjoint(m, remaining);
    assert layers[0] !! layers[i];
    LayerAt(m, remaining, 0);
    assert u in remaining && u !in NextBatch(m, remaining);
  }

  /** A unit of an unforced round `i > 0` depends on some unit of round `i - 1`. */
  lemma PreviousDependency(m: DepMap, remaining: set<string>, i: nat, u: string) returns (k: nat)
    requires remaining <= m.Keys && 0 < i < |Layers(m, remaining)|
    requires !Forced(m, RemainingAt(m, remaining, i))
    requires u in Layers(m, remaining)[i]
    ensures k < |m[u]| && m[u][k] in Layers(m, remaining)[i - 1]
  {
    var layers := Layers(m, remaining);
    var prev := RemainingAt(m, remaining, i - 1);
    var rem := RemainingAt(m, remaining, i);
    PreviousUnforced(m, remaining, i);
    RoundSplit(m, remaining, i);
    LayersDisjoint(m, remaining);
    assert layers[i - 1] !! layers[i];
    WaitingUnresolved(m, prev, u);
    k :| 0 <= k < |m[u]| && m[u][k] in prev;
    ReadyResolvedAt(m, rem, u, k);
  }

  /** A waiting unit left out of an unforced round still waits for a dependency. */
  lemma WaitingUnresolved(m: DepMap, prev: set<string>, u: string)
    requires prev <= m.Keys && !Forced(m, prev)
    requires u in prev && u !in NextBatch(m, prev)
    ensures !Resolved(m[u], prev)
  {
  }

  /** A round followed by another is not forced. */
  lemma PreviousUnforced(m: DepMap, remaining: set<string>, i: nat)
    requires remaining <= m.Keys && 0 < i < |Layers(m, remaining)|
    ensures !Forced(m, RemainingAt(m, remaining, i - 1))
  {
    if Forced(m, RemainingAt(m, remaining, i - 1)) {
      ForcedIsLast(m, remaining, i - 1);
    }
  }

  /** The units waiting before round `i - 1` are the batch of that round and those waiting before round `i`. */
  lemma RoundSplit(m: DepMap, remaining: set<string>, i: nat)
    requires remaining <= m.Keys && 0 < i < |Layers(m, remaining)|
    ensures RemainingAt(m, remaining, i - 1) == Layers(m, remaining)[i - 1] + RemainingAt(m, remaining, i)
    ensures Layers(m, remaining)[i - 1] == NextBatch(m, RemainingAt(m, remaining, i - 1))
    ensures Layers(m, remaining)[i] == NextBatch(m, RemainingAt(m, remaining, i))
  {
    var layers := Layers(m, remaining);
    LayerAt(m, remaining, i - 1);
    LayerAt(m, remaining, i);
    var from := layers[i - 1..];
    assert from[0] == layers[i - 1] && from[1..] == layers[i..];
  }

  /**
   * Acyclic dependencies: some ranking of the units puts every in-set
   * dependency strictly below its dependent.
   */
  predicate Ranked(m: DepMap, units: set<string>, rank: map<string, nat>)
    requires units <= m.Keys
  {
    units <= rank.Keys
    && forall u, k :: u in units && 0 <= k < |m[u]| && m[u][k] in units ==> rank[m[u][k]] < rank[u]
  }

  lemma {:induction false} MinimalRank(s: set<string>, rank: map<string, nat>) returns (u: string)
    requires s != {} && s <= rank.Keys
    ensures u in s && forall v :: v in s ==> rank[u] <= rank[v]
    decreases |s|
  {
    var x :| x in s;
    if s == {x} {
      u := x;
    } else {
      var y := MinimalRank(s - {x}, rank);
      u := if rank[x] <= rank[y] then x else y;
    }
  }

  /** Under a ranking, every non-empty set of waiting units has a ready unit. */
  lemma RankedHasReady(m: DepMap, units: set<string>, rank: map<string, nat>, s: set<string>)
    requires units <= m.Keys && Ranked(m, units, rank)
    requires s <= units && s != {}
    ensures Ready(m, s) != {}
  {
    var u := MinimalRank(s, rank);
    forall k | 0 <= k < |m[u]|
      ensures m[u][k] !in s
    {
    }
    assert u in Ready(m, s);
  }

  /** Without cycles no round is forced, so the batch-index rule holds for every unit. */
  lemma AcyclicNeverForced(m: DepMap, units: set<string>, rank: map<string, nat>, i: nat)
    requires units <= m.Keys && Ranked(m, units, rank)
    requires i < |Layers(m, units)|
    ensures !Forced(m, RemainingAt(m, units, i))
  {
    LayerAt(m, units, i);
    RankedHasReady(m, units, rank, RemainingAt(m, units, i));
  }

  /** A set of units with no dependency inside it runs as a single batch. */
  lemma DependencyFreeSingleBatch(m: DepMap, units: set<string>)
    requires units <= m.Keys && units != {}
    requires forall u :: u in units ==> Resolved(m[u], units)
    ensures Layers(m, units) == [units]
  {
    assert Ready(m, units) == units;
    assert Layers(m, units) == [units] + Layers(m, {});
  }

  /** A unit that depends on itself is never ready. */
  lemma SelfDependencyNeverReady(m: DepMap, remaining: set<string>, u: string, k: nat)
    requires remaining <= m.Keys && u in remaining && k < |m[u]| && m[u][k] == u
    ensures u !in Ready(m, remaining)
  {
  }

  /** Two units that depend on each other are forced out together in one batch. */
  lemma MutualDependencyForced()
    ensures Layers(map["a" := ["b"], "b" := ["a"]], {"a", "b"}) == [{"a", "b"}]
  {
    var m := map["a" := ["b"], "b" := ["a"]];
    SelfOrMutual(m, {"a", "b"});
    assert Layers(m, {"a", "b"}) == [{"a", "b"}] + Layers(m, {});
  }

  lemma SelfOrMutual(m: DepMap, s: set<string>)
    requires s == {"a", "b"} && m == map["a" := ["b"], "b" := ["a"]]
    ensures Ready(m, s) == {}
  {
    assert m["a"][0] == "b" && m["b"][0] == "a";
    assert "a" !in Ready(m, s) && "b" !in Ready(m, s);
  }

  /** One pass of `_calculate_execution_order` over the waiting units: those whose dependencies are all done. */
  method ReadyUnits(unitMap: DepMap, remaining: set<string>) returns (ready: set<string>)
    requires remaining <= unitMap.Keys
    ensures ready == Ready(unitMap, remaining)
  {
    ready := {};
    var pending := remaining;
    while pending != {}
      invariant pending <= remaining
      invariant ready == Ready(unitMap, remaining) - pending
      decreases |pending|
    {
      var path :| path in pending;
      var unresolved := Unresolved(unitMap[path], remaining);
      if unresolved == [] {
        ready := ready + {path};
      }
      pending := pending - {path};
    }
  }

  /** `_calculate_execution_order`. */
  method CalculateExecutionOrder(units: seq<TerragruntUnit>) returns (order: seq<Batch>)
    ensures order == Layers(UnitMap(units), PathSet(units))
  {
    if units == [] {
      return [];
    }
    var unitMap := UnitMap(units);
    var remaining := PathSet(units);
    ghost var total := Layers(unitMap, remaining);
    order := [];
    while remaining != {}
      invariant remaining <= unitMap.Keys
      invariant order + Layers(unitMap, remaining) == total
      decreases |remaining|
    {
      var ready := ReadyUnits(unitMap, remaining);
      if ready == {} {
        ready := remaining;
      }
      assert ready == NextBatch(unitMap, remaining);
      LayersUnfold(unitMap, remaining);
      AppendAssoc(order, [ready], Layers(unitMap, remaining - ready));
      order := order + [ready];
      remaining := remaining - ready;
    }
  }

  lemma AppendAssoc<T>(a: seq<T>, b: seq<T>, c: seq<T>)
    ensures (a + b) + c == a + (b + c)
  {
  }

  /** A unit whose every dependency lies outside the unit set runs in the first batch. */
  lemma OutsideDependenciesNeverBlock(m: DepMap, units: set<string>, u: string)
    requires units <= m.Keys && u in units && Resolved(m[u], units)
    ensures Layers(m, units) != [] && u in Layers(m, units)[0]
  {
    assert u in Ready(m, units);
  }
}
