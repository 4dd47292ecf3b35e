/**
 * data_scribe's lineage generator: a set of node lines in which the first
 * style a name is added with wins, and a plain list of edge lines in which
 * repeats are kept.
 *
 * The set is a list without repeats, of which only the sorted rendering is
 * visible. Foreign keys are read from `from_table` and `to_table` here; they
 * are `Lineage.ForeignKey` values all the same.
 */
module LegacyLineage {
  import opened Wrappers
  import opened Seqs
  import opened Text
  import opened Lineage

  /**
   * `_add_node`: when the bare name is not yet in the set, its definition
   * for the style (none for an unknown style) and the bare name go in.
   */
  function AddLegacyNode(nodes: seq<string>, name: string, style: Style): (r: seq<string>)
    ensures name in nodes ==> r == nodes
    ensures name in r
    ensures name !in nodes && NodeLine(name, style).Some? ==> NodeLine(name, style).value in r
  {
    if name in nodes then nodes
    else
      var withDef := match NodeLine(name, style)
        case Some(line) => AddUnique(nodes, line)
        case None => nodes;
      AddUnique(withDef, name)
  }

  /** Offering one more model: its name as a model, then its dependencies. */
  lemma LegacyModelStep(nodes: seq<string>, models: seq<DbtModel>, i: nat)
    requires i < |models|
    ensures ApplyLegacy(nodes, ModelOffers(models[..i + 1]))
      == ApplyLegacy(AddLegacyNode(ApplyLegacy(nodes, ModelOffers(models[..i])), models[i].name, Box),
                     DepOffers(models[i].dependencies))
  {
    var before := ModelOffers(models[..i]);
    var m := models[i];
    ModelStep(models, i);
    ApplyLegacySnoc(nodes, before, (m.name, Box));
    ApplyLegacyAppend(nodes, before + [(m.name, Box)], DepOffers(m.dependencies));
    assert before + [(m.name, Box)] + DepOffers(m.dependencies) == ModelOffers(models[..i + 1]);
  }

  /** One more foreign key: both tables' offers, then its edge line. */
  lemma LegacyFkStep(nodes: seq<string>, edges: seq<string>, fks: seq<ForeignKey>, i: nat)
    requires i < |fks|
    ensures ApplyLegacy(nodes, FkOffers(fks[..i + 1]))
      == AddLegacyNode(AddLegacyNode(ApplyLegacy(nodes, FkOffers(fks[..i])), fks[i].sourceTable, Db), fks[i].targetTable, Db)
    ensures edges + Map(LegacyEdgeLine, FkEdges(fks[..i + 1]))
      == edges + Map(LegacyEdgeLine, FkEdges(fks[..i])) + [LegacyEdgeLine(MakeEdge(fks[i].sourceTable, fks[i].targetTable, "FK"))]
  {
    var fk := fks[i];
    FkStep(fks, i);
    LegacyTwo(nodes, FkOffers(fks[..i]), (fk.sourceTable, Db), (fk.targetTable, Db));
    AppendMappedSnoc(edges, LegacyEdgeLine, FkEdges(fks[..i]), MakeEdge(fk.sourceTable, fk.targetTable, "FK"));
  }

  /** One more dependency of a model: its offer, then its edge line. */
  lemma LegacyDepStep(nodes: seq<string>, edges: seq<string>, model: string, deps: seq<string>, j: nat)
    requires j < |deps|
    ensures ApplyLegacy(nodes, DepOffers(deps[..j + 1])) == AddLegacyNode(ApplyLegacy(nodes, DepOffers(deps[..j])), deps[j], DepStyle(deps[j]))
    ensures edges + Map(LegacyEdgeLine, DepEdges(model, deps[..j + 1]))
      == edges + Map(LegacyEdgeLine, DepEdges(model, deps[..j])) + [LegacyEdgeLine(MakeEdge(deps[j], model, ""))]
  {
    assert deps[..j + 1][..j] == deps[..j];
    DepEdgesSnoc(model, deps, j);
    AppendMappedSnoc(edges, LegacyEdgeLine, DepEdges(model, deps[..j]), MakeEdge(deps[j], model, ""));
    ApplyLegacySnoc(nodes, DepOffers(deps[..j]), (deps[j], DepStyle(deps[j])));
  }

  /** The set only grows, and keeps no repeats. */
  lemma AddLegacyNodeGrows(nodes: seq<string>, name: string, style: Style)
    ensures var r := AddLegacyNode(nodes, name, style);
      |nodes| <= |r| && r[..|nodes|] == nodes && (NoDup(nodes) ==> NoDup(r))
  {
    if name !in nodes {
      var withDef := match NodeLine(name, style)
        case Some(line) => AddUnique(nodes, line)
        case None => nodes;
      assert withDef[..|nodes|] == nodes;
      var r := AddUnique(withDef, name);
      assert r[..|withDef|] == withDef;
      assert r[..|nodes|] == withDef[..|nodes|];
    }
  }

  /** Adding the offers one after the other. */
  function ApplyLegacy(nodes: seq<string>, offers: seq<(string, Style)>): seq<string>
    decreases |offers|
  {
    if offers == [] then nodes
    else
      var (name, style) := offers[|offers| - 1];
      AddLegacyNode(ApplyLegacy(nodes, offers[..|offers| - 1]), name, style)
  }

  lemma ApplyLegacySnoc(nodes: seq<string>, offers: seq<(string, Style)>, o: (string, Style))
    ensures ApplyLegacy(nodes, offers + [o]) == AddLegacyNode(ApplyLegacy(nodes, offers), o.0, o.1)
  {
    assert (offers + [o])[..|offers|] == offers;
  }

  lemma LegacyTwo(nodes: seq<string>, offers: seq<(string, Style)>, a: (string, Style), b: (string, Style))
    ensures ApplyLegacy(nodes, offers + [a, b])
      == AddLegacyNode(AddLegacyNode(ApplyLegacy(nodes, offers), a.0, a.1), b.0, b.1)
  {
    var xs := offers + [a];
    assert offers + [a, b] == xs + [b];
    ApplyLegacySnoc(nodes, xs, b);
    ApplyLegacySnoc(nodes, offers, a);
  }

  lemma {:induction false} ApplyLegacyAppend(nodes: seq<string>, xs: seq<(string, Style)>, ys: seq<(string, Style)>)
    ensures ApplyLegacy(nodes, xs + ys) == ApplyLegacy(ApplyLegacy(nodes, xs), ys)
    decreases |ys|
  {
    if ys == [] {
      assert xs + ys == xs;
    } else {
      var init := ys[..|ys| - 1];
      ApplyLegacyAppend(nodes, xs, init);
      assert (xs + ys)[..|xs + ys| - 1] == xs + init;
    }
  }

  /** The set only grows, keeps no repeats, and ends holding every offered bare name. */
  lemma {:induction false} ApplyLegacyGrows(nodes: seq<string>, offers: seq<(string, Style)>)
    ensures var r := ApplyLegacy(nodes, offers);
      |nodes| <= |r| && r[..|nodes|] == nodes
      && (NoDup(nodes) ==> NoDup(r))
      && forall o :: o in offers ==> o.0 in r
    decreases |offers|
  {
    if offers != [] {
      var init := offers[..|offers| - 1];
      ApplyLegacyGrows(nodes, init);
      var mid := ApplyLegacy(nodes, init);
      var r := ApplyLegacy(nodes, offers);
      AddLegacyNodeGrows(mid, offers[|offers| - 1].0, offers[|offers| - 1].1);
      assert r[..|mid|] == mid;
      assert r[..|nodes|] == mid[..|nodes|];
      forall o | o in offers
        ensures o.0 in r
      {
        if o != offers[|offers| - 1] {
          var k :| 0 <= k < |offers| && offers[k] == o;
          assert init[k] == o;
          assert o.0 in mid;
        }
      }
    }
  }

  /**
   * First style wins: once a name has been offered, offering it again,
   * with any style, leaves the set as it is.
   */
  lemma LaterOffersIgnored(nodes: seq<string>, offers: seq<(string, Style)>, name: string, style: Style)
    requires name in nodes || exists o :: o in offers && o.0 == name
    ensures ApplyLegacy(nodes, offers + [(name, style)]) == ApplyLegacy(nodes, offers)
  {
    ApplyLegacyGrows(nodes, offers);
    var r := ApplyLegacy(nodes, offers);
    if name in nodes {
      assert name in r[..|nodes|];
    }
    assert (offers + [(name, style)])[..|offers|] == offers;
  }

  /**
   * A name first offered with a known style gets that style's definition,
   * and the bare name, in the set.
   */
  lemma FirstOfferDefines(nodes: seq<string>, offers: seq<(string, Style)>, name: string, style: Style)
    requires |name| < 4 || name[..4] != "    "
    requires name !in nodes && Known(style)
    requires forall o :: o in offers ==> o.0 != name
    ensures var r := ApplyLegacy(nodes, offers + [(name, style)]);
      name in r && NodeLine(name, style).value in r
  {
    ApplyLegacyNameAbsent(nodes, offers, name);
    assert (offers + [(name, style)])[..|offers|] == offers;
  }

  lemma {:induction false} ApplyLegacyNameAbsent(nodes: seq<string>, offers: seq<(string, Style)>, name: string)
    requires |name| < 4 || name[..4] != "    "
    requires name !in nodes
    requires forall o :: o in offers ==> o.0 != name
    ensures name !in ApplyLegacy(nodes, offers)
    decreases |offers|
  {
    if offers != [] {
      var init := offers[..|offers| - 1];
      forall o | o in init ensures o.0 != name { assert o in offers; }
      ApplyLegacyNameAbsent(nodes, init, name);
      var mid := ApplyLegacy(nodes, init);
      var last := offers[|offers| - 1];
      assert last in offers;
      if last.0 !in mid {
        match NodeLine(last.0, last.1) {
          case Some(line) =>
            NodeLineNotBare(last.0, last.1, name);
          case None =>
        }
      }
    }
  }

  /** A definition line is never a bare name: it starts with four spaces and a name has none here. */
  lemma NodeLineNotBare(n: string, style: Style, name: string)
    requires NodeLine(n, style).Some?
    requires |name| < 4 || name[..4] != "    "
    ensures NodeLine(n, style).value != name
  {
    var line := NodeLine(n, style).value;
    assert line[..4] == "    ";
  }

  /** A foreign-key edge line; the label is not quoted here. */
  function LegacyEdgeLine(e: Edge): string
  {
    if e.labelText != "" then "    " + e.source + " -- " + e.labelText + " --> " + e.target
    else "    " + e.source + " --> " + e.target
  }

  /**
   * The legacy and the newer renderings agree on unlabelled edges and differ
   * on labelled ones, exactly by the two quotes around the label.
   */
  lemma LegacyEdgeLineUnquoted(e: Edge)
    ensures e.labelText == "" ==> LegacyEdgeLine(e) == EdgeLine(e)
    ensures e.labelText != "" ==> |EdgeLine(e)| == |LegacyEdgeLine(e)| + 2 && LegacyEdgeLine(e) != EdgeLine(e)
    ensures e.labelText != "" ==>
      var cut := 4 + |e.source| + 4;
      EdgeLine(e) == LegacyEdgeLine(e)[..cut] + "\"" + e.labelText + "\"" + LegacyEdgeLine(e)[cut + |e.labelText|..]
  {
    if e.labelText != "" {
      var cut := 4 + |e.source| + 4;
      var head := "    " + e.source + " -- ";
      var tail := " --> " + e.target;
      assert LegacyEdgeLine(e) == head + e.labelText + tail;
      assert |head| == cut;
      assert LegacyEdgeLine(e)[..cut] == head;
      assert LegacyEdgeLine(e)[cut + |e.labelText|..] == tail;
    }
  }

  /** The number of dependencies over all models. */
  function TotalDeps(models: seq<DbtModel>): nat
    decreases |models|
  {
    if models == [] then 0 else TotalDeps(models[..|models| - 1]) + |models[|models| - 1].dependencies|
  }

  /** One edge per foreign key and one per dependency: nothing is deduplicated. */
  lemma {:induction false} EdgeCount(fks: seq<ForeignKey>, models: seq<DbtModel>)
    ensures |Map(LegacyEdgeLine, EdgeOffers(fks, models))| == |fks| + TotalDeps(models)
  {
    ModelEdgeCount(models);
  }

  lemma {:induction false} ModelEdgeCount(models: seq<DbtModel>)
    ensures |ModelEdges(models)| == TotalDeps(models)
    decreases |models|
  {
    if models != [] {
      ModelEdgeCount(models[..|models| - 1]);
    }
  }

  /** The output lines: the header, the sorted set, a blank line, the sorted edge list. */
  function LegacyLines(nodes: seq<string>, edges: seq<string>): seq<string>
  {
    ["graph TD;"] + SortBy(nodes, Id) + [""] + SortBy(edges, Id)
  }

  /**
   * The output shows every bare name as a line of its own, and it depends
   * only on which lines the set holds, not on the order they went in.
   */
  lemma LegacyLinesFacts(nodes: seq<string>, other: seq<string>, edges: seq<string>, name: string)
    requires NoDup(nodes) && NoDup(other) && forall x :: x in nodes <==> x in other
    ensures name in nodes ==> name in LegacyLines(nodes, edges)[1..|nodes| + 1]
    ensures LegacyLines(nodes, edges) == LegacyLines(other, edges)
  {
    var lines := LegacyLines(nodes, edges);
    var sorted := SortBy(nodes, Id);
    assert lines[1..|nodes| + 1] == sorted;
    if name in nodes {
      assert name in multiset(nodes);
    }
    SameElementsPermutation(nodes, other);
    SortIgnoresOrder(nodes, other);
  }

  /** The tail of `generate_graph`: both collections sorted as text. */
  method RenderLegacy(nodes: seq<string>, edges: seq<string>) returns (text: string)
    ensures text == Join("\n", LegacyLines(nodes, edges))
  {
    var lines := ["graph TD;"];
    lines := lines + SortBy(nodes, Id);
    lines := lines + [""];
    lines := lines + SortBy(edges, Id);
    text := Join("\n", lines);
  }

  class LegacyLineageGenerator {
    const dbFks: seq<ForeignKey>
    const dbtModels: seq<DbtModel>
    var nodes: seq<string>
    var edges: seq<string>

    constructor(fks: seq<ForeignKey>, models: seq<DbtModel>)
      ensures dbFks == fks && dbtModels == models && nodes == [] && edges == []
    {
      dbFks := fks;
      dbtModels := models;
      nodes := [];
      edges := [];
    }

    method AddNode(name: string, style: Style)
      modifies this`nodes
      ensures nodes == AddLegacyNode(old(nodes), name, style)
    {
      if name !in nodes {
        var line := NodeLine(name, style);
        if line.Some? && line.value !in nodes {
          nodes := nodes + [line.value];
        }
        if name !in nodes {
          nodes := nodes + [name];
        }
      }
    }

    /** One foreign key: both tables as database tables, and the edge line. */
    method AddForeignKey(fk: ForeignKey)
      modifies this`nodes, this`edges
      ensures nodes == AddLegacyNode(AddLegacyNode(old(nodes), fk.sourceTable, Db), fk.targetTable, Db)
      ensures edges == old(edges) + [LegacyEdgeLine(MakeEdge(fk.sourceTable, fk.targetTable, "FK"))]
    {
      AddNode(fk.sourceTable, Db);
      AddNode(fk.targetTable, Db);
      var line := "    " + fk.sourceTable + " -- FK --> " + fk.targetTable;
      assert line == LegacyEdgeLine(MakeEdge(fk.sourceTable, fk.targetTable, "FK"));
      edges := edges + [line];
    }

    /** The `i`-th pass of the foreign-key loop, starting from `nodes0` and `edges0`. */
    method AddForeignKeyAt(ghost nodes0: seq<string>, ghost edges0: seq<string>, i: nat)
      requires i < |dbFks|
      requires nodes == ApplyLegacy(nodes0, FkOffers(dbFks[..i]))
      requires edges == edges0 + Map(LegacyEdgeLine, FkEdges(dbFks[..i]))
      modifies this`nodes, this`edges
      ensures nodes == ApplyLegacy(nodes0, FkOffers(dbFks[..i + 1]))
      ensures edges == edges0 + Map(LegacyEdgeLine, FkEdges(dbFks[..i + 1]))
    {
      LegacyFkStep(nodes0, edges0, dbFks, i);
      AddForeignKey(dbFks[i]);
    }

    method AddForeignKeys()
      modifies this`nodes, this`edges
      ensures nodes == ApplyLegacy(old(nodes), FkOffers(dbFks))
      ensures edges == old(edges) + Map(LegacyEdgeLine, FkEdges(dbFks))
    {
      var i := 0;
      while i < |dbFks|
        invariant 0 <= i <= |dbFks|
        invariant nodes == ApplyLegacy(old(nodes), FkOffers(dbFks[..i]))
        invariant edges == old(edges) + Map(LegacyEdgeLine, FkEdges(dbFks[..i]))
      {
        AddForeignKeyAt(old(nodes), old(edges), i);
        i := i + 1;
      }
      assert dbFks[..|dbFks|] == dbFks;
    }

    /** One dependency: a source when the name is dotted, a model otherwise. */
    method AddDependency(model: string, dep: string)
      modifies this`nodes, this`edges
      ensures nodes == AddLegacyNode(old(nodes), dep, DepStyle(dep))
      ensures edges == old(edges) + [LegacyEdgeLine(MakeEdge(dep, model, ""))]
    {
      if '.' in dep {
        AddNode(dep, Source);
      } else {
        AddNode(dep, Box);
      }
      var line := "    " + dep + " --> " + model;
      assert line == LegacyEdgeLine(MakeEdge(dep, model, ""));
      edges := edges + [line];
    }

    method AddDependencies(model: DbtModel)
      modifies this`nodes, this`edges
      ensures nodes == ApplyLegacy(old(nodes), DepOffers(model.dependencies))
      ensures edges == old(edges) + Map(LegacyEdgeLine, DepEdges(model.name, model.dependencies))
    {
      var deps := model.dependencies;
      var j := 0;
      while j < |deps|
        invariant 0 <= j <= |deps|
        invariant nodes == ApplyLegacy(old(nodes), DepOffers(deps[..j]))
        invariant edges == old(edges) + Map(LegacyEdgeLine, DepEdges(model.name, deps[..j]))
      {
        LegacyDepStep(old(nodes), old(edges), model.name, deps, j);
        AddDependency(model.name, deps[j]);
        j := j + 1;
      }
      assert deps[..|deps|] == deps;
    }

    /** One model: its name as a model, then its dependencies. */
    method AddModel(m: DbtModel)
      modifies this`nodes, this`edges
      ensures nodes == ApplyLegacy(AddLegacyNode(old(nodes), m.name, Box), DepOffers(m.dependencies))
      ensures edges == old(edges) + Map(LegacyEdgeLine, DepEdges(m.name, m.dependencies))
    {
      AddNode(m.name, Box);
      AddDependencies(m);
    }

    method AddModels()
      modifies this`nodes, this`edges
      ensures nodes == ApplyLegacy(old(nodes), ModelOffers(dbtModels))
      ensures edges == old(edges) + Map(LegacyEdgeLine, ModelEdges(dbtModels))
    {
      var i := 0;
      while i < |dbtModels|
        invariant 0 <= i <= |dbtModels|
        invariant nodes == ApplyLegacy(old(nodes), ModelOffers(dbtModels[..i]))
        invariant edges == old(edges) + Map(LegacyEdgeLine, ModelEdges(dbtModels[..i]))
      {
        var m := dbtModels[i];
        LegacyModelStep(old(nodes), dbtModels, i);
        assert old(edges) + Map(LegacyEdgeLine, ModelEdges(dbtModels[..i + 1]))
          == old(edges) + Map(LegacyEdgeLine, ModelEdges(dbtModels[..i])) + Map(LegacyEdgeLine, DepEdges(m.name, m.dependencies)) by {
          ModelStep(dbtModels, i);
          AppendMapped(old(edges), LegacyEdgeLine, ModelEdges(dbtModels[..i]), DepEdges(m.name, m.dependencies));
        }
        AddModel(m);
        i := i + 1;
      }
      assert dbtModels[..|dbtModels|] == dbtModels;
    }

    /**
     * `generate_graph`: every foreign key and model is added again on each
     * call, then the set and the list are rendered sorted.
     */
    method GenerateGraph() returns (text: string)
      modifies this`nodes, this`edges
      ensures nodes == ApplyLegacy(old(nodes), NodeOffers(dbFks, dbtModels))
      ensures edges == old(edges) + Map(LegacyEdgeLine, EdgeOffers(dbFks, dbtModels))
      ensures text == Join("\n", LegacyLines(nodes, edges))
    {
      AddForeignKeys();
      AddModels();
      ApplyLegacyAppend(old(nodes), FkOffers(dbFks), ModelOffers(dbtModels));
      AppendMapped(old(edges), LegacyEdgeLine, FkEdges(dbFks), ModelEdges(dbtModels));
      text := RenderLegacy(nodes, edges);
    }
  }
}
