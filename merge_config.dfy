/**
 * `merge_configurations`: a copy of the base dictionary in which each key of
 * the override takes the override's value, except that two dictionaries
 * under the same key are merged recursively.
 */
module MergeConfig {
  import opened Models

  /** The value the merge keeps under a key the override has. */
  function MergeValue(base: Config, key: string, value: Value): Value
    decreases value, 1
  {
    if key in base && base[key].Dict? && value.Dict? then Dict(Merge(base[key].entries, value.entries))
    else value
  }

  /** The merged dictionary. */
  function Merge(base: Config, override: Config): (r: Config)
    ensures r.Keys == base.Keys + override.Keys
    decreases Dict(override), 0
  {
    map k | k in base.Keys + override.Keys :: if k in override then MergeValue(base, k, override[k]) else base[k]
  }

  /**
   * The keys are those of either input; a key only the base has keeps its
   * value; the override's value wins, unless both values are dictionaries,
   * which are merged.
   */
  lemma MergeEntries(base: Config, override: Config, k: string)
    requires k in base.Keys + override.Keys
    ensures k !in override ==> Merge(base, override)[k] == base[k]
    ensures k in override && !(k in base && base[k].Dict? && override[k].Dict?) ==> Merge(base, override)[k] == override[k]
    ensures k in override && k in base && base[k].Dict? && override[k].Dict? ==>
      Merge(base, override)[k] == Dict(Merge(base[k].entries, override[k].entries))
  {
  }

  /** Merging nothing in gives the base back. */
  lemma MergeEmpty(base: Config)
    ensures Merge(base, map[]) == base
  {
  }

  /** Merging a configuration into itself changes nothing. */
  lemma {:induction false} MergeSelf(c: Config)
    ensures Merge(c, c) == c
    decreases Dict(c)
  {
    forall k | k in c
      ensures Merge(c, c)[k] == c[k]
    {
      if c[k].Dict? {
        assert Dict(c[k].entries) == c[k];
        MergeSelf(c[k].entries);
      }
    }
  }

  /** Merging the same override twice is merging it once. */
  lemma {:induction false} MergeIdempotent(base: Config, override: Config)
    ensures Merge(Merge(base, override), override) == Merge(base, override)
    decreases Dict(override)
  {
    var once := Merge(base, override);
    forall k | k in once
      ensures Merge(once, override)[k] == once[k]
    {
      if k in override {
        var v := override[k];
        if k in base && base[k].Dict? && v.Dict? {
          assert Dict(v.entries) == v;
          MergeIdempotent(base[k].entries, v.entries);
          assert once[k] == Dict(Merge(base[k].entries, v.entries));
          assert Merge(once, override)[k] == Dict(Merge(once[k].entries, v.entries));
        } else if v.Dict? {
          assert Dict(v.entries) == v;
          MergeSelf(v.entries);
          assert once[k] == v;
          assert Merge(once, override)[k] == Dict(Merge(v.entries, v.entries));
        } else {
          assert once[k] == v;
        }
      }
    }
  }

  /** `merge_configurations`: copy the base, then assign each key of the override. */
  method MergeConfigurations(base: Config, override: Config) returns (result: Config)
    ensures result == Merge(base, override)
    decreases Dict(override), 0
  {
    result := base;
    var pending := override.Keys;
    while pending != {}
      invariant pending <= override.Keys
      invariant Assigned(base, override, pending, result)
      decreases |pending|
    {
      var key :| key in pending;
      var value := MergeKey(result, key, override[key]);
      AssignStep(base, override, pending, result, key, value);
      result := result[key := value];
      pending := pending - {key};
    }
    AssignedAll(base, override, result);
  }

  /** `result` is the base with the keys of the override outside `pending` assigned. */
  ghost predicate Assigned(base: Config, override: Config, pending: set<string>, result: Config)
  {
    && result.Keys == base.Keys + (override.Keys - pending)
    && forall k :: k in result ==>
         result[k] == if k in override && k !in pending then MergeValue(base, k, override[k]) else base[k]
  }

  lemma AssignStep(base: Config, override: Config, pending: set<string>, result: Config, key: string, value: Value)
    requires Assigned(base, override, pending, result) && key in pending && key in override
    requires value == MergeValue(result, key, override[key])
    ensures Assigned(base, override, pending - {key}, result[key := value])
  {
    assert key in result ==> result[key] == base[key];
    assert MergeValue(result, key, override[key]) == MergeValue(base, key, override[key]);
  }

  lemma AssignedAll(base: Config, override: Config, result: Config)
    requires Assigned(base, override, {}, result)
    ensures result == Merge(base, override)
  {
    var m := Merge(base, override);
    assert result.Keys == m.Keys;
    forall k | k in result
      ensures result[k] == m[k]
    {
    }
  }

  /** The value assigned under `key`: the recursive merge of two dictionaries, or the override's value. */
  method MergeKey(current: Config, key: string, value: Value) returns (r: Value)
    ensures r == MergeValue(current, key, value)
    decreases value, 1
  {
    if key in current && current[key].Dict? && value.Dict? {
      assert Dict(value.entries) == value;
      var merged := MergeConfigurations(current[key].entries, value.entries);
      r := Dict(merged);
    } else {
      r := value;
    }
  }
}
