/** Hierarchical configuration: the right-biased deep merge `merge_dict` and
    the `Config` overlay chain built on it (config.py; main.py:42-110 holds an
    older copy of the same code). */
module Configuration {
  import opened Values

  /** What `merge_dict(x, y)` returns: every key of either side; on a key of
      both sides whose values are both mappings the two are merged again,
      otherwise the value from `y` wins. */
  function Merge(x: Mapping, y: Mapping): Mapping
    decreases Dict(y)
  {
    map k | k in x.Keys + y.Keys ::
      if k in y then
        (if k in x && x[k].Dict? && y[k].Dict? then Dict(Merge(x[k].fields, y[k].fields)) else y[k])
      else x[k]
  }

  /** `merge_dict` as the source runs it: copy `x` into a fresh mapping, then
      walk `y`, recursing where both sides hold a mapping. Keys are taken in
      an arbitrary order, which shows that the order does not matter. */
  method MergeDict(x: Mapping, y: Mapping) returns (result: Mapping)
    ensures result == Merge(x, y)
    decreases Dict(y)
  {
    result := map[];
    var todo := x.Keys;
    while todo != {}
      invariant todo <= x.Keys
      invariant result.Keys == x.Keys - todo
      invariant forall k :: k in result ==> result[k] == x[k]
      decreases todo
    {
      var k :| k in todo;
      result := result[k := x[k]];
      todo := todo - {k};
    }
    var rest := y.Keys;
    while rest != {}
      invariant rest <= y.Keys
      invariant result.Keys == x.Keys + (y.Keys - rest)
      invariant forall k :: k in x && k !in y.Keys - rest ==> result[k] == x[k]
      invariant forall k :: k in y && k !in rest ==> result[k] == Merge(x, y)[k]
      decreases rest
    {
      var k :| k in rest;
      var v := y[k];
      if k in result && result[k].Dict? && v.Dict? {
        var sub := MergeDict(result[k].fields, v.fields);
        result := result[k := Dict(sub)];
      } else {
        result := result[k := v];
      }
      rest := rest - {k};
    }
  }

  /** The merge rules stated key by key (config.py doctests, lines 12-17). */
  lemma MergeRules(x: Mapping, y: Mapping)
    ensures Merge(x, y).Keys == x.Keys + y.Keys
    ensures forall k :: k in x && k !in y ==> Merge(x, y)[k] == x[k]
    ensures forall k :: k in y && !(k in x && x[k].Dict? && y[k].Dict?) ==> Merge(x, y)[k] == y[k]
    ensures forall k :: k in x && k in y && x[k].Dict? && y[k].Dict? ==>
              Merge(x, y)[k] == Dict(Merge(x[k].fields, y[k].fields))
  {
  }

  /** The first doctest of `merge_dict`: a plain override. */
  lemma MergeOverrideDoctest(x: Mapping, y: Mapping)
    requires x == map["a" := Int(1), "b" := Int(2), "c" := Int(4)]
    requires y == map["c" := Int(0), "d" := Int(10)]
    ensures Merge(x, y) == map["a" := Int(1), "b" := Int(2), "c" := Int(0), "d" := Int(10)]
  {
    assert Merge(x, y).Keys == {"a", "b", "c", "d"};
  }

  /** The second doctest of `merge_dict`: recursion into a nested mapping,
      where a list on the right is taken whole. */
  lemma MergeNestedDoctest(x: Mapping, y: Mapping)
    requires x == map["parent" := Dict(map["child" := Int(1)])]
    requires y == map["parent" := Dict(map["children" := List([Int(2), Int(3)])])]
    ensures Merge(x, y) == map["parent" := Dict(map["child" := Int(1), "children" := List([Int(2), Int(3)])])]
  {
    var inner := map["child" := Int(1), "children" := List([Int(2), Int(3)])];
    MergeDisjoint(map["child" := Int(1)], map["children" := List([Int(2), Int(3)])]);
    assert map["child" := Int(1)] + map["children" := List([Int(2), Int(3)])] == inner;
    assert Merge(x, y).Keys == {"parent"};
    assert Merge(x, y)["parent"] == Dict(inner);
  }

  /** Merging mappings with disjoint keys is their union. */
  lemma MergeDisjoint(x: Mapping, y: Mapping)
    requires x.Keys !! y.Keys
    ensures Merge(x, y) == x + y
  {
  }

  /** Merging with an empty override changes nothing. */
  lemma MergeEmptyRight(x: Mapping)
    ensures Merge(x, map[]) == x
  {
  }

  /** Merging onto nothing gives the override itself. */
  lemma MergeEmptyLeft(y: Mapping)
    ensures Merge(map[], y) == y
  {
  }

  /** `merge_dict(d, d) == d`. */
  lemma {:induction false} MergeIdempotent(d: Mapping)
    ensures Merge(d, d) == d
    decreases Dict(d)
  {
    forall k | k in d && d[k].Dict?
      ensures Merge(d[k].fields, d[k].fields) == d[k].fields
    {
      MergeIdempotent(d[k].fields);
    }
  }

  /** Merging `x` once more under an `x`-based merge is absorbed: this is why
      `overlay` (which merges `self` in twice) still yields `merge(self, a)`. */
  lemma {:induction false} MergeAbsorb(x: Mapping, y: Mapping)
    ensures Merge(x, Merge(x, y)) == Merge(x, y)
    decreases Dict(y)
  {
    var m := Merge(x, y);
    forall k | k in x && k in y && x[k].Dict? && y[k].Dict?
      ensures Merge(x[k].fields, Merge(x[k].fields, y[k].fields)) == Merge(x[k].fields, y[k].fields)
    {
      MergeAbsorb(x[k].fields, y[k].fields);
    }
    assert Merge(x, m).Keys == m.Keys;
    forall k | k in m
      ensures Merge(x, m)[k] == m[k]
    {
      if k in x && k !in y && x[k].Dict? {
        MergeIdempotent(x[k].fields);
      }
    }
  }

  /** Right-biased overlay is not associative once a mapping meets a
      non-mapping: merge(merge(A, B), C) differs from merge(A, merge(B, C)). */
  lemma MergeNotAssociative()
    ensures var a := map["k" := Dict(map["a" := Int(1)])];
            var b := map["k" := Int(5)];
            var c := map["k" := Dict(map["b" := Int(2)])];
            Merge(Merge(a, b), c) != Merge(a, Merge(b, c))
  {
    var a := map["k" := Dict(map["a" := Int(1)])];
    var b := map["k" := Int(5)];
    var c := map["k" := Dict(map["b" := Int(2)])];
    assert Merge(a, b)["k"] == Int(5);
    assert Merge(Merge(a, b), c)["k"] == Dict(map["b" := Int(2)]);
    assert Merge(b, c)["k"] == Dict(map["b" := Int(2)]);
    var inner := Merge(map["a" := Int(1)], map["b" := Int(2)]);
    assert "a" in inner;
    assert Merge(a, Merge(b, c))["k"] == Dict(inner);
  }

  /** A configuration: the mapping `_config` holds after construction. */
  datatype Config = Config(view: Mapping)

  /** Why a configuration document was refused: it parsed to something that
      is neither a mapping nor empty. */
  datatype ConfigError = NotAMapping(document: Value)

  /** `Config(data, parent)` on a mapping: with a parent, the parent's view
      merged with `data`, `data` winning. */
  function WithParent(data: Mapping, parent: Option<Config>): (c: Config)
    ensures parent.None? ==> c.view == data
    ensures parent.Some? ==> c.view.Keys == parent.value.view.Keys + data.Keys
    ensures parent.Some? ==> forall k :: k in data && !data[k].Dict? ==> c.view[k] == data[k]
    ensures parent.Some? ==> forall k :: k in parent.value.view && k !in data ==> c.view[k] == parent.value.view[k]
  {
    match parent
    case None => Config(data)
    case Some(p) => Config(Merge(p.view, data))
  }

  /** `Config(data, parent)`, with `data` the value `yaml.load` produced (or a
      dict passed directly): an empty document is the empty mapping; any
      other non-mapping is refused. */
  function NewConfig(data: Value, parent: Option<Config>): (r: Result<Config, ConfigError>)
    ensures r.Ok? <==> data.Null? || data.Dict?
    ensures data.Null? ==> r == Ok(if parent.Some? then parent.value else Config(map[]))
    ensures data.Dict? ==> r == Ok(WithParent(data.fields, parent))
  {
    match data
    case Null =>
      if parent.Some? then MergeEmptyRight(parent.value.view); Ok(WithParent(map[], parent))
      else Ok(WithParent(map[], parent))
    case Dict(m) => Ok(WithParent(m, parent))
    case _ => Err(NotAMapping(data))
  }

  /** `Config.from_path`: the `.bg.yml` document of a directory when there is
      one, else an empty document, which is never an error. */
  function FromPath(bgYml: Option<Value>, parent: Option<Config>): (r: Result<Config, ConfigError>)
    ensures bgYml.None? ==> r == Ok(if parent.Some? then parent.value else Config(map[]))
    ensures r.Ok? <==> bgYml.None? || bgYml.value.Null? || bgYml.value.Dict?
  {
    match bgYml
    case None => NewConfig(Null, parent)
    case Some(doc) => NewConfig(doc, parent)
  }

  /** `config[key]`: an absent key reads as `None`. */
  function Get(c: Config, key: string): (v: Value)
    ensures key !in c.view ==> v == Null
    ensures key in c.view ==> v == c.view[key]
  {
    GetOr(c.view, key, Null)
  }

  /** `as_dict()`: a copy of the view. */
  function AsDict(c: Config): Mapping {
    c.view
  }

  /** `overlay(another)`: a child configuration whose own data is
      `merge_dict(self._config, another)`; its view is the plain merge of
      `self` with `another`. */
  function Overlay(c: Config, another: Mapping): (r: Config)
    ensures r.view == Merge(c.view, another)
  {
    MergeAbsorb(c.view, another);
    WithParent(Merge(c.view, another), Some(c))
  }

  /** A non-mapping value of the overlay is what the result holds. */
  lemma OverlayScalar(c: Config, another: Mapping, key: string)
    requires key in another && !another[key].Dict?
    ensures key in Overlay(c, another).view && Overlay(c, another).view[key] == another[key]
  {
  }

  /** A key the overlay does not mention keeps its value. */
  lemma OverlayKeeps(c: Config, another: Mapping, key: string)
    requires key in c.view && key !in another
    ensures key in Overlay(c, another).view && Overlay(c, another).view[key] == c.view[key]
  {
  }

  /** `overlay({})` leaves the contents unchanged. */
  lemma OverlayEmpty(c: Config)
    ensures Overlay(c, map[]) == c
  {
    MergeEmptyRight(c.view);
  }

  /** Overlaying a configuration with its own contents changes nothing. */
  lemma OverlaySelf(c: Config)
    ensures Overlay(c, AsDict(c)) == c
  {
    MergeIdempotent(c.view);
  }
}
