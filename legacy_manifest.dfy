/**
 * data_scribe's `DbtManifestParser.parse_models`: the materialized model
 * nodes, each reduced to its name, SQL and column types.
 *
 * This copy indexes `node["resource_type"]`, `node["config"]` and
 * `node["name"]` directly, so a node without one of them stops the parse
 * with a KeyError, which is modelled as `MissingKey`.
 */
module LegacyManifest {
  import opened Wrappers
  import opened Documents
  import opened Manifest

  datatype KeyError = MissingKey(key: string)

  datatype LegacyColumn = LegacyColumn(name: string, dataType: Value)

  datatype LegacyModel = LegacyModel(name: Value, rawSql: Value, columns: seq<LegacyColumn>)

  /** One column per key of the `columns` map: its name and `data_type`, "N/A" when absent. */
  function LegacyColumns(cols: seq<(string, Fields)>): (r: seq<LegacyColumn>)
    ensures |r| == |cols|
    ensures forall k :: 0 <= k < |cols| ==> r[k] == LegacyColumn(cols[k].0, GetOr(cols[k].1, "data_type", Str("N/A")))
    decreases |cols|
  {
    if cols == [] then []
    else
      var (name, data) := cols[|cols| - 1];
      LegacyColumns(cols[..|cols| - 1]) + [LegacyColumn(name, GetOr(data, "data_type", Str("N/A")))]
  }

  predicate Ephemeral(config: Fields)
  {
    Get(config, "materialized") == Str("ephemeral")
  }

  /**
   * What one node contributes: nothing for a node that is not a model or is
   * ephemeral, an entry for any other model, and the KeyError of the first
   * key it indexes and lacks.
   */
  function LegacyEntry(n: ManifestNode): (r: Result<Option<LegacyModel>, KeyError>)
    ensures r == Success(None) <==>
      "resource_type" in n.fields && (n.fields["resource_type"] != Str("model") || (n.config.Some? && Ephemeral(n.config.value)))
    ensures r.Success? && r.value.Some? ==>
      IsModel(n) && n.config.Some? && !Ephemeral(n.config.value) && "name" in n.fields
      && r.value.value == LegacyModel(n.fields["name"], GetOr(n.fields, "raw_code", Str(NoSql)), LegacyColumns(n.columns))
    ensures r.Failure? <==> "resource_type" !in n.fields || (IsModel(n) && (n.config.None? || (!Ephemeral(n.config.value) && "name" !in n.fields)))
  {
    if "resource_type" !in n.fields then Failure(MissingKey("resource_type"))
    else if n.fields["resource_type"] != Str("model") then Success(None)
    else if n.config.None? then Failure(MissingKey("config"))
    else if Ephemeral(n.config.value) then Success(None)
    else if "name" !in n.fields then Failure(MissingKey("name"))
    else Success(Some(LegacyModel(n.fields["name"], GetOr(n.fields, "raw_code", Str(NoSql)), LegacyColumns(n.columns))))
  }

  /** `parse_models` over the first items of the manifest; the first KeyError ends it. */
  function LegacyParse(part: Nodes): Result<seq<LegacyModel>, KeyError>
    decreases |part|
  {
    if part == [] then Success([])
    else
      match LegacyParse(part[..|part| - 1])
      case Failure(e) => Failure(e)
      case Success(models) =>
        match LegacyEntry(part[|part| - 1].1)
        case Failure(e) => Failure(e)
        case Success(None) => Success(models)
        case Success(Some(m)) => Success(models + [m])
  }

  /** The parse fails exactly when some node lacks a key it indexes, and then with the first such node's error. */
  lemma {:induction false} LegacyParseFails(part: Nodes)
    ensures LegacyParse(part).Failure? <==> exists k :: 0 <= k < |part| && LegacyEntry(part[k].1).Failure?
    ensures LegacyParse(part).Failure? ==>
      exists k :: 0 <= k < |part| && LegacyEntry(part[k].1).Failure?
        && LegacyParse(part).error == LegacyEntry(part[k].1).error
        && forall j :: 0 <= j < k ==> LegacyEntry(part[j].1).Success?
    decreases |part|
  {
    if part != [] {
      var init := part[..|part| - 1];
      LegacyParseFails(init);
      forall k | 0 <= k < |init| ensures init[k] == part[k] { }
    }
  }

  /** The nodes that are kept: models that are not ephemeral. */
  function KeptEntries(part: Nodes): (r: Nodes)
    ensures forall e :: e in r <==> e in part && IsModel(e.1) && e.1.config.Some? && !Ephemeral(e.1.config.value)
    decreases |part|
  {
    if part == [] then []
    else
      var init := KeptEntries(part[..|part| - 1]);
      var last := part[|part| - 1];
      assert forall e :: e in part <==> e in part[..|part| - 1] || e == last;
      if IsModel(last.1) && last.1.config.Some? && !Ephemeral(last.1.config.value) then init + [last] else init
  }

  /** A parse that succeeds holds one entry per kept node, in order, with that node's name, SQL and columns. */
  lemma {:induction false} LegacyFollowsKept(part: Nodes)
    requires LegacyParse(part).Success?
    ensures var ms := LegacyParse(part).value;
      |ms| == |KeptEntries(part)|
      && forall i :: 0 <= i < |ms| ==>
           var n := KeptEntries(part)[i].1;
           "name" in n.fields && ms[i] == LegacyModel(n.fields["name"], GetOr(n.fields, "raw_code", Str(NoSql)), LegacyColumns(n.columns))
    decreases |part|
  {
    if part != [] {
      var init := part[..|part| - 1];
      var last := part[|part| - 1];
      assert LegacyParse(init).Success?;
      LegacyFollowsKept(init);
      var entry := LegacyEntry(last.1);
      assert entry.Success?;
      if entry.value.Some? {
        assert KeptEntries(part) == KeptEntries(init) + [last];
        assert LegacyParse(part).value == LegacyParse(init).value + [entry.value.value];
      } else {
        assert KeptEntries(part) == KeptEntries(init);
        assert LegacyParse(part).value == LegacyParse(init).value;
      }
    }
  }

  /**
   * On a manifest with no ephemeral model and every indexed key present,
   * both parsers list the same models, with the same names and the same
   * column names and types.
   */
  lemma {:induction false} ParsersAgree(nodes: Nodes, part: Nodes)
    requires forall k :: 0 <= k < |part| ==> "resource_type" in part[k].1.fields
    requires forall k :: 0 <= k < |part| && IsModel(part[k].1) ==>
      "name" in part[k].1.fields && part[k].1.config.Some? && !Ephemeral(part[k].1.config.value)
    ensures LegacyParse(part).Success?
    ensures var legacy := LegacyParse(part).value;
      var current := ParseModelsOf(nodes, part);
      |legacy| == |current|
      && forall i :: 0 <= i < |legacy| ==>
           legacy[i].name == current[i].name
           && |legacy[i].columns| == |current[i].columns|
           && forall c :: 0 <= c < |legacy[i].columns| ==>
                legacy[i].columns[c] == LegacyColumn(current[i].columns[c].name, current[i].columns[c].dataType)
    decreases |part|
  {
    if part != [] {
      var init := part[..|part| - 1];
      forall k | 0 <= k < |init| ensures init[k] == part[k] { }
      ParsersAgree(nodes, init);
    }
  }

  /** `DbtManifestParser` of data_scribe: the loaded manifest and `parse_models`. */
  class LegacyManifestParser {
    const manifestNodes: Nodes

    constructor(nodes: Nodes)
      ensures manifestNodes == nodes
    {
      manifestNodes := nodes;
    }

    method ParseModels() returns (r: Result<seq<LegacyModel>, KeyError>)
      ensures r == LegacyParse(manifestNodes)
    {
      var nodes := manifestNodes;
      var models := [];
      var i := 0;
      while i < |nodes|
        invariant 0 <= i <= |nodes|
        invariant LegacyParse(nodes[..i]) == Success(models)
      {
        assert nodes[..i + 1][..i] == nodes[..i];
        var node := nodes[i].1;
        if "resource_type" !in node.fields {
          r := Failure(MissingKey("resource_type"));
          FailureSticks(nodes, i + 1);
          return;
        }
        if node.fields["resource_type"] == Str("model") {
          if node.config.None? {
            r := Failure(MissingKey("config"));
            FailureSticks(nodes, i + 1);
            return;
          }
          if !Ephemeral(node.config.value) {
            if "name" !in node.fields {
              r := Failure(MissingKey("name"));
              FailureSticks(nodes, i + 1);
              return;
            }
            var columns := LegacyColumnList(node.columns);
            models := models + [LegacyModel(node.fields["name"], GetOr(node.fields, "raw_code", Str(NoSql)), columns)];
          }
        }
        i := i + 1;
      }
      assert nodes[..|nodes|] == nodes;
      r := Success(models);
    }
  }

  /** Once a prefix fails, the whole parse fails with the same error. */
  lemma {:induction false} FailureSticks(nodes: Nodes, i: nat)
    requires i <= |nodes| && LegacyParse(nodes[..i]).Failure?
    ensures LegacyParse(nodes) == LegacyParse(nodes[..i])
    decreases |nodes| - i
  {
    if i < |nodes| {
      assert nodes[..i + 1][..i] == nodes[..i];
      FailureSticks(nodes, i + 1);
    } else {
      assert nodes[..i] == nodes;
    }
  }

  method LegacyColumnList(cols: seq<(string, Fields)>) returns (parsed: seq<LegacyColumn>)
    ensures parsed == LegacyColumns(cols)
  {
    parsed := [];
    var i := 0;
    while i < |cols|
      invariant 0 <= i <= |cols|
      invariant parsed == LegacyColumns(cols[..i])
    {
      assert cols[..i + 1][..i] == cols[..i];
      var (name, data) := cols[i];
      parsed := parsed + [LegacyColumn(name, GetOr(data, "data_type", Str("N/A")))];
      i := i + 1;
    }
    assert cols[..|cols|] == cols;
  }
}
