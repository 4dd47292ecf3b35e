/**
 * schema_scribe's `DbtManifestParser.models`: the model nodes of a loaded
 * `manifest.json`, each reduced to its name, id, description, SQL, columns
 * and parent names.
 *
 * The manifest is its `nodes` map, in the order the JSON lists it; a node is
 * the few keys the parser reads. Reading and decoding the file is not part
 * of this model.
 */
module Manifest {
  import opened Wrappers
  import opened Documents

  /**
   * One value of the manifest's `nodes` map: its scalar fields, its
   * `config` map when the key is present, its `columns` map in key order,
   * and its `depends_on.nodes` list (empty when either key is absent).
   */
  datatype ManifestNode = ManifestNode(
    fields: Fields,
    config: Option<Fields>,
    columns: seq<(string, Fields)>,
    dependsOn: seq<string>)

  /** The `nodes` map as its (unique id, node) items, in order; an absent map reads as empty. */
  type Nodes = seq<(string, ManifestNode)>

  /** What `nodes.get(key, {})` reads from when the id is unknown. */
  const EmptyNode := ManifestNode(map[], None, [], [])

  const NoSql := "-- SQL code not available --"

  datatype Column = Column(name: string, description: Value, dataType: Value)

  datatype Model = Model(
    name: Value,
    uniqueId: string,
    description: Value,
    rawSql: Value,
    columns: seq<Column>,
    dependencies: seq<Value>,
    path: Value,
    originalFilePath: Value)

  /** `nodes.get(key)`: the node stored under that id, if any. */
  function Lookup(nodes: Nodes, key: string): (r: Option<ManifestNode>)
    ensures r.Some? ==> (key, r.value) in nodes
    ensures r.None? ==> forall k :: 0 <= k < |nodes| ==> nodes[k].0 != key
    decreases |nodes|
  {
    if nodes == [] then None
    else if nodes[0].0 == key then Some(nodes[0].1)
    else Lookup(nodes[1..], key)
  }

  /** `config.get(key, default)`, where an absent `config` reads as `{}`. */
  function ConfigGet(n: ManifestNode, key: string, default: Value): Value
  {
    match n.config
    case Some(c) => GetOr(c, key, default)
    case None => default
  }

  predicate IsModel(n: ManifestNode)
  {
    Get(n.fields, "resource_type") == Str("model")
  }

  /** The node's own description when it is truthy, else `config.description`, else "". */
  function DescriptionOf(n: ManifestNode): (r: Value)
    ensures Truthy(Get(n.fields, "description")) ==> r == n.fields["description"]
    ensures !Truthy(Get(n.fields, "description")) && n.config.Some? && "description" in n.config.value
      ==> r == n.config.value["description"]
    ensures !Truthy(Get(n.fields, "description")) && (n.config.None? || "description" !in n.config.value)
      ==> r == Str("")
  {
    var own := Get(n.fields, "description");
    if Truthy(own) then own else ConfigGet(n, "description", Str(""))
  }

  /** `raw_code` when it is truthy, else `raw_sql`, else the placeholder text. */
  function RawSqlOf(n: ManifestNode): (r: Value)
    ensures Truthy(Get(n.fields, "raw_code")) ==> r == n.fields["raw_code"]
    ensures !Truthy(Get(n.fields, "raw_code")) && "raw_sql" in n.fields ==> r == n.fields["raw_sql"]
    ensures !Truthy(Get(n.fields, "raw_code")) && "raw_sql" !in n.fields ==> r == Str(NoSql)
  {
    var code := Get(n.fields, "raw_code");
    if Truthy(code) then code else GetOr(n.fields, "raw_sql", Str(NoSql))
  }

  /** One column per key of the `columns` map, in order. */
  function ParseColumns(cols: seq<(string, Fields)>): (r: seq<Column>)
    ensures |r| == |cols|
    ensures forall k :: 0 <= k < |cols| ==>
      r[k] == Column(cols[k].0, GetOr(cols[k].1, "description", Str("")), GetOr(cols[k].1, "data_type", Str("N/A")))
    decreases |cols|
  {
    if cols == [] then []
    else
      var (name, data) := cols[|cols| - 1];
      ParseColumns(cols[..|cols| - 1])
        + [Column(name, GetOr(data, "description", Str("")), GetOr(data, "data_type", Str("N/A")))]
  }

  /**
   * The parent name a `depends_on` id contributes: a model's or seed's name,
   * `source_name.name` for a source, and nothing for any other or unknown id.
   */
  function DependencyOf(nodes: Nodes, key: string): (r: Option<Value>)
    ensures Lookup(nodes, key).None? ==> r.None?
    ensures r.Some? ==> (Lookup(nodes, key).Some?
      && Get(Lookup(nodes, key).value.fields, "resource_type") in {Str("model"), Str("seed"), Str("source")})
    ensures Lookup(nodes, key).Some? && Get(Lookup(nodes, key).value.fields, "resource_type") in {Str("model"), Str("seed")}
      ==> r == Some(Get(Lookup(nodes, key).value.fields, "name"))
    ensures Lookup(nodes, key).Some? && Get(Lookup(nodes, key).value.fields, "resource_type") == Str("source")
      ==> r == Some(Str(Display(Get(Lookup(nodes, key).value.fields, "source_name")) + "."
                        + Display(Get(Lookup(nodes, key).value.fields, "name"))))
  {
    var dep := match Lookup(nodes, key) case Some(n) => n case None => EmptyNode;
    var kind := Get(dep.fields, "resource_type");
    if kind == Str("model") || kind == Str("seed") then Some(Get(dep.fields, "name"))
    else if kind == Str("source") then
      Some(Str(Display(Get(dep.fields, "source_name")) + "." + Display(Get(dep.fields, "name"))))
    else None
  }

  /** The parent names of a node, in `depends_on` order. */
  function Dependencies(nodes: Nodes, keys: seq<string>): seq<Value>
    decreases |keys|
  {
    if keys == [] then []
    else
      var init := Dependencies(nodes, keys[..|keys| - 1]);
      match DependencyOf(nodes, keys[|keys| - 1])
      case Some(v) => init + [v]
      case None => init
  }

  /** A parent name is in the list exactly when some id of `depends_on` resolves to it. */
  lemma {:induction false} DependenciesResolve(nodes: Nodes, keys: seq<string>)
    ensures forall v :: v in Dependencies(nodes, keys) <==> exists k :: k in keys && DependencyOf(nodes, k) == Some(v)
    ensures |Dependencies(nodes, keys)| <= |keys|
    decreases |keys|
  {
    if keys != [] {
      var init := keys[..|keys| - 1];
      var last := keys[|keys| - 1];
      DependenciesResolve(nodes, init);
      InitOrLast(keys);
      forall v ensures v in Dependencies(nodes, keys) <==> exists k :: k in keys && DependencyOf(nodes, k) == Some(v)
      {
        if v in Dependencies(nodes, keys) {
          if v in Dependencies(nodes, init) {
            var k :| k in init && DependencyOf(nodes, k) == Some(v);
            assert k in keys;
          } else {
            assert DependencyOf(nodes, last) == Some(v);
          }
        }
        if exists k :: k in keys && DependencyOf(nodes, k) == Some(v) {
          var k :| k in keys && DependencyOf(nodes, k) == Some(v);
          if k != last {
            assert k in init;
          }
        }
      }
    }
  }

  /**
   * The parent names keep the order and the repeats of `depends_on`: the
   * names of two stretches of ids are those of the first, then the second.
   */
  lemma {:induction false} DependenciesConcat(nodes: Nodes, a: seq<string>, b: seq<string>)
    ensures Dependencies(nodes, a + b) == Dependencies(nodes, a) + Dependencies(nodes, b)
    decreases |b|
  {
    if b == [] {
      assert a + b == a;
    } else {
      var init := b[..|b| - 1];
      assert (a + b)[..|a + b| - 1] == a + init;
      assert (a + b)[|a + b| - 1] == b[|b| - 1];
      DependenciesConcat(nodes, a, init);
    }
  }

  /** One id contributes its resolved name, or nothing. */
  lemma DependenciesOne(nodes: Nodes, key: string)
    ensures Dependencies(nodes, [key]) == match DependencyOf(nodes, key) case Some(v) => [v] case None => []
  {
    assert [key][..0] == [];
  }

  /** An element of a non-empty list is in all but its last place, or is the last. */
  lemma InitOrLast<T>(s: seq<T>)
    requires s != []
    ensures forall x :: x in s <==> x in s[..|s| - 1] || x == s[|s| - 1]
  {
    assert s == s[..|s| - 1] + [s[|s| - 1]];
  }

  /** The entry `models` builds for one model node. */
  function ParseNode(nodes: Nodes, entry: (string, ManifestNode)): Model
  {
    var n := entry.1;
    Model(
      Get(n.fields, "name"),
      entry.0,
      DescriptionOf(n),
      RawSqlOf(n),
      ParseColumns(n.columns),
      Dependencies(nodes, n.dependsOn),
      Get(n.fields, "path"),
      Get(n.fields, "original_file_path"))
  }

  /** The model nodes among `part`, in order. */
  function ModelEntries(part: Nodes): (r: Nodes)
    ensures forall e :: e in r <==> e in part && IsModel(e.1)
    decreases |part|
  {
    if part == [] then []
    else
      var init := ModelEntries(part[..|part| - 1]);
      var last := part[|part| - 1];
      assert forall e :: e in part <==> e in part[..|part| - 1] || e == last;
      if IsModel(last.1) then init + [last] else init
  }

  /** `models` over the first items of the manifest, dependencies resolved against all of it. */
  function ParseModelsOf(nodes: Nodes, part: Nodes): seq<Model>
    decreases |part|
  {
    if part == [] then []
    else
      var init := ParseModelsOf(nodes, part[..|part| - 1]);
      var last := part[|part| - 1];
      if IsModel(last.1) then init + [ParseNode(nodes, last)] else init
  }

  function ParseModels(nodes: Nodes): seq<Model>
  {
    ParseModelsOf(nodes, nodes)
  }

  /**
   * One entry per model node and none for any other node, in manifest
   * order, each built from its own node.
   */
  lemma {:induction false} ModelsFollowEntries(nodes: Nodes, part: Nodes)
    ensures |ParseModelsOf(nodes, part)| == |ModelEntries(part)|
    ensures forall i :: 0 <= i < |ModelEntries(part)| ==> ParseModelsOf(nodes, part)[i] == ParseNode(nodes, ModelEntries(part)[i])
    decreases |part|
  {
    if part != [] {
      ModelsFollowEntries(nodes, part[..|part| - 1]);
    }
  }

  /** Every entry carries the id of a model node; every model node's id appears. */
  lemma ModelIds(nodes: Nodes)
    ensures forall m :: m in ParseModels(nodes) ==> exists e :: e in nodes && IsModel(e.1) && m.uniqueId == e.0
    ensures forall e :: e in nodes && IsModel(e.1) ==> exists m :: m in ParseModels(nodes) && m.uniqueId == e.0
  {
    ModelsFollowEntries(nodes, nodes);
    var ms := ParseModels(nodes);
    var es := ModelEntries(nodes);
    forall m | m in ms
      ensures exists e :: e in nodes && IsModel(e.1) && m.uniqueId == e.0
    {
      var i :| 0 <= i < |ms| && ms[i] == m;
      assert es[i] in es;
    }
    forall e | e in nodes && IsModel(e.1)
      ensures exists m :: m in ParseModels(nodes) && m.uniqueId == e.0
    {
      assert e in es;
      var i :| 0 <= i < |es| && es[i] == e;
      assert ms[i] in ms;
    }
  }

  /** `DbtManifestParser`: the loaded manifest and the `models` property, computed on first access. */
  class DbtManifestParser {
    const manifestNodes: Nodes
    var cache: Option<seq<Model>>

    ghost predicate Valid()
      reads this
    {
      cache.Some? ==> cache.value == ParseModels(manifestNodes)
    }

    constructor(nodes: Nodes)
      ensures Valid() && manifestNodes == nodes && cache == None
    {
      manifestNodes := nodes;
      cache := None;
    }

    /** The `models` property: every access returns the same list, the parse of the manifest. */
    method Models() returns (models: seq<Model>)
      requires Valid()
      modifies this`cache
      ensures Valid()
      ensures models == ParseModels(manifestNodes)
      ensures cache == Some(models)
    {
      if cache.Some? {
        return cache.value;
      }
      models := ParseAll(manifestNodes);
      cache := Some(models);
    }
  }

  /** The loop of `models`: one entry appended per model node. */
  method ParseAll(nodes: Nodes) returns (parsed: seq<Model>)
    ensures parsed == ParseModels(nodes)
  {
    parsed := [];
    var i := 0;
    while i < |nodes|
      invariant 0 <= i <= |nodes|
      invariant parsed == ParseModelsOf(nodes, nodes[..i])
    {
      assert nodes[..i + 1][..i] == nodes[..i];
      var (key, node) := nodes[i];
      if Get(node.fields, "resource_type") == Str("model") {
        var description := DescriptionOf(node);
        var columns := ParseColumnList(node.columns);
        var deps := ResolveDependencies(nodes, node.dependsOn);
        parsed := parsed + [Model(Get(node.fields, "name"), key, description, RawSqlOf(node), columns, deps,
                                  Get(node.fields, "path"), Get(node.fields, "original_file_path"))];
      }
      i := i + 1;
    }
    assert nodes[..|nodes|] == nodes;
  }

  method ParseColumnList(cols: seq<(string, Fields)>) returns (parsed: seq<Column>)
    ensures parsed == ParseColumns(cols)
  {
    parsed := [];
    var i := 0;
    while i < |cols|
      invariant 0 <= i <= |cols|
      invariant parsed == ParseColumns(cols[..i])
    {
      assert cols[..i + 1][..i] == cols[..i];
      var (name, data) := cols[i];
      parsed := parsed + [Column(name, GetOr(data, "description", Str("")), GetOr(data, "data_type", Str("N/A")))];
      i := i + 1;
    }
    assert cols[..|cols|] == cols;
  }

  method ResolveDependencies(nodes: Nodes, keys: seq<string>) returns (deps: seq<Value>)
    ensures deps == Dependencies(nodes, keys)
  {
    deps := [];
    var i := 0;
    while i < |keys|
      invariant 0 <= i <= |keys|
      invariant deps == Dependencies(nodes, keys[..i])
    {
      assert keys[..i + 1][..i] == keys[..i];
      var dep := DependencyOf(nodes, keys[i]);
      if dep.Some? {
        deps := deps + [dep.value];
      }
      i := i + 1;
    }
    assert keys[..|keys|] == keys;
  }
}
