/**
 * The older copy of the global lineage generator in schema_scribe's core:
 * the same node styling, but edges kept as a set of rendered lines and the
 * graph rebuilt on every call, with no "processed" flag.
 *
 * The node dictionary and the style lattice are `Lineage`'s; the edge set
 * is a list without repeats, of which only the sorted rendering is visible.
 */
module CoreLineage {
  import opened Seqs
  import opened Text
  import opened Lineage

  /**
   * The edge lines `generate_graph` adds, in call order: `EdgeLine` of each
   * edge record the services copy would build, so a foreign key reads
   * `    a -- "FK" --> b` and a dependency `    dep --> model`.
   */
  function EdgeStrings(fks: seq<ForeignKey>, models: seq<DbtModel>): seq<string>
  {
    Map(EdgeLine, EdgeOffers(fks, models))
  }

  /**
   * The output lines: the header, the node definitions sorted as text, a
   * blank line, then the sorted edge lines.
   */
  function CoreLines(t: NodeTable, edges: seq<string>): seq<string>
    requires WellFormed(t)
  {
    ["graph TD;"] + SortBy(NodeLines(t.order, t.styles), Id) + [""] + SortBy(edges, Id)
  }

  /**
   * The output depends only on the node styles and the set of edges, not
   * on the order in which nodes were first added or edges were put in the set.
   */
  lemma CoreLinesIgnoreOrder(t1: NodeTable, t2: NodeTable, e1: seq<string>, e2: seq<string>)
    requires WellFormed(t1) && WellFormed(t2) && t1.styles == t2.styles
    requires NoDup(e1) && NoDup(e2) && forall e :: e in e1 <==> e in e2
    ensures CoreLines(t1, e1) == CoreLines(t2, e2)
  {
    SameElementsPermutation(t1.order, t2.order);
    NodeLinesPermutation(t1.order, t2.order, t1.styles);
    SortIgnoresOrder(NodeLines(t1.order, t1.styles), NodeLines(t2.order, t2.styles));
    SameElementsPermutation(e1, e2);
    SortIgnoresOrder(e1, e2);
  }

  /**
   * A second run over the same input finds every style and edge already in
   * place, so `generate_graph` called twice builds the same graph twice.
   */
  lemma RerunChangesNothing(t: NodeTable, edges: seq<string>, fks: seq<ForeignKey>, models: seq<DbtModel>)
    ensures var t1 := ApplyOffers(t, NodeOffers(fks, models));
      var e1 := AddAllUnique(edges, EdgeStrings(fks, models));
      ApplyOffers(t1, NodeOffers(fks, models)) == t1
      && AddAllUnique(e1, EdgeStrings(fks, models)) == e1
  {
    ApplyOffersIdempotent(t, NodeOffers(fks, models));
    var xs := EdgeStrings(fks, models);
    var e1 := AddAllUnique(edges, xs);
    AddAllUniqueMembers(edges, xs);
    AddAllUniquePresent(e1, xs);
  }

  /** One more dependency of a model: its offer, then its edge line. */
  lemma CoreDepStep(t: NodeTable, edges: seq<string>, model: string, deps: seq<string>, j: nat)
    requires j < |deps|
    ensures ApplyOffers(t, DepOffers(deps[..j + 1])) == Restyle(ApplyOffers(t, DepOffers(deps[..j])), deps[j], DepStyle(deps[j]))
    ensures AddAllUnique(edges, Map(EdgeLine, DepEdges(model, deps[..j + 1])))
      == AddUnique(AddAllUnique(edges, Map(EdgeLine, DepEdges(model, deps[..j]))), EdgeLine(MakeEdge(deps[j], model, "")))
  {
    assert deps[..j + 1][..j] == deps[..j];
    DepEdgesSnoc(model, deps, j);
    AddMappedSnoc(edges, EdgeLine, DepEdges(model, deps[..j]), MakeEdge(deps[j], model, ""));
    ApplyOffersSnoc(t, DepOffers(deps[..j]), (deps[j], DepStyle(deps[j])));
  }

  /** Renders the graph as the tail of `generate_graph` does. */
  method RenderCore(t: NodeTable, edges: seq<string>) returns (text: string)
    requires WellFormed(t)
    ensures text == Join("\n", CoreLines(t, edges))
  {
    var defs := RenderNodes(t.order, t.styles);
    var lines := ["graph TD;"] + SortBy(defs, Id) + [""] + SortBy(edges, Id);
    text := Join("\n", lines);
  }

  class CoreLineageGenerator {
    const dbFks: seq<ForeignKey>
    const dbtModels: seq<DbtModel>
    var nodes: NodeTable
    var edges: seq<string>

    ghost predicate Valid()
      reads this
    {
      WellFormed(nodes) && NoDup(edges)
    }

    constructor(fks: seq<ForeignKey>, models: seq<DbtModel>)
      ensures Valid()
      ensures dbFks == fks && dbtModels == models && nodes == EmptyTable && edges == []
    {
      dbFks := fks;
      dbtModels := models;
      nodes := EmptyTable;
      edges := [];
    }

    /** `_add_node`: restyled only upwards. */
    method AddNode(name: string, style: Style)
      modifies this`nodes
      ensures nodes == Restyle(old(nodes), name, style)
    {
      var current := if name in nodes.styles then Priority(nodes.styles[name]) else -1;
      if Priority(style) > current {
        var order := if name in nodes.styles then nodes.order else nodes.order + [name];
        nodes := NodeTable(order, nodes.styles[name := style]);
      }
    }

    /** `_add_edge`: the rendered line goes into the set. */
    method AddEdge(from: string, to: string, edgeLabel: string)
      modifies this`edges
      ensures edges == AddUnique(old(edges), EdgeLine(MakeEdge(from, to, edgeLabel)))
    {
      var line := if edgeLabel != "" then "    " + from + " -- \"" + edgeLabel + "\" --> " + to
                  else "    " + from + " --> " + to;
      if line !in edges {
        edges := edges + [line];
      }
    }

    /** One foreign key: both tables as database tables, and the labelled edge. */
    method AddForeignKey(fk: ForeignKey)
      modifies this`nodes, this`edges
      ensures nodes == Restyle(Restyle(old(nodes), fk.sourceTable, Db), fk.targetTable, Db)
      ensures edges == AddUnique(old(edges), EdgeLine(MakeEdge(fk.sourceTable, fk.targetTable, "FK")))
    {
      AddNode(fk.sourceTable, Db);
      AddNode(fk.targetTable, Db);
      AddEdge(fk.sourceTable, fk.targetTable, "FK");
    }

    method AddForeignKeys()
      modifies this`nodes, this`edges
      ensures nodes == ApplyOffers(old(nodes), FkOffers(dbFks))
      ensures edges == AddAllUnique(old(edges), Map(EdgeLine, FkEdges(dbFks)))
    {
      var i := 0;
      while i < |dbFks|
        invariant 0 <= i <= |dbFks|
        invariant nodes == ApplyOffers(old(nodes), FkOffers(dbFks[..i]))
        invariant edges == AddAllUnique(old(edges), Map(EdgeLine, FkEdges(dbFks[..i])))
      {
        var fk := dbFks[i];
        AddForeignKey(fk);
        assert nodes == ApplyOffers(old(nodes), FkOffers(dbFks[..i + 1])) by {
          FkStep(dbFks, i);
          ApplyTwo(old(nodes), FkOffers(dbFks[..i]), (fk.sourceTable, Db), (fk.targetTable, Db));
        }
        assert edges == AddAllUnique(old(edges), Map(EdgeLine, FkEdges(dbFks[..i + 1]))) by {
          FkStep(dbFks, i);
          AddMappedSnoc(old(edges), EdgeLine, FkEdges(dbFks[..i]), MakeEdge(fk.sourceTable, fk.targetTable, "FK"));
        }
        i := i + 1;
      }
      assert dbFks[..|dbFks|] == dbFks;
    }

    /** One dependency: a source when the name is dotted, a model otherwise, and its edge. */
    method AddDependency(model: string, dep: string)
      modifies this`nodes, this`edges
      ensures nodes == Restyle(old(nodes), dep, DepStyle(dep))
      ensures edges == AddUnique(old(edges), EdgeLine(MakeEdge(dep, model, "")))
    {
      if '.' in dep {
        AddNode(dep, Source);
        AddEdge(dep, model, "");
      } else {
        AddNode(dep, Box);
        AddEdge(dep, model, "");
      }
    }

    method AddDependencies(model: DbtModel)
      modifies this`nodes, this`edges
      ensures nodes == ApplyOffers(old(nodes), DepOffers(model.dependencies))
      ensures edges == AddAllUnique(old(edges), Map(EdgeLine, DepEdges(model.name, model.dependencies)))
    {
      var deps := model.dependencies;
      var j := 0;
      while j < |deps|
        invariant 0 <= j <= |deps|
        invariant nodes == ApplyOffers(old(nodes), DepOffers(deps[..j]))
        invariant edges == AddAllUnique(old(edges), Map(EdgeLine, DepEdges(model.name, deps[..j])))
      {
        CoreDepStep(old(nodes), old(edges), model.name, deps, j);
        AddDependency(model.name, deps[j]);
        j := j + 1;
      }
      assert deps[..|deps|] == deps;
    }

    /** One model: its name as a model, then its dependencies. */
    method AddModel(m: DbtModel)
      modifies this`nodes, this`edges
      ensures nodes == ApplyOffers(Restyle(old(nodes), m.name, Box), DepOffers(m.dependencies))
      ensures edges == AddAllUnique(old(edges), Map(EdgeLine, DepEdges(m.name, m.dependencies)))
    {
      AddNode(m.name, Box);
      AddDependencies(m);
    }

    /** The `i`-th pass of the model loop, starting from `nodes0` and `edges0`. */
    method AddModelAt(ghost nodes0: NodeTable, ghost edges0: seq<string>, i: nat)
      requires i < |dbtModels|
      requires nodes == ApplyOffers(nodes0, ModelOffers(dbtModels[..i]))
      requires edges == AddAllUnique(edges0, Map(EdgeLine, ModelEdges(dbtModels[..i])))
      modifies this`nodes, this`edges
      ensures nodes == ApplyOffers(nodes0, ModelOffers(dbtModels[..i + 1]))
      ensures edges == AddAllUnique(edges0, Map(EdgeLine, ModelEdges(dbtModels[..i + 1])))
    {
      var m := dbtModels[i];
      ModelOffersStep(nodes0, dbtModels, i);
      assert AddAllUnique(edges0, Map(EdgeLine, ModelEdges(dbtModels[..i + 1])))
        == AddAllUnique(AddAllUnique(edges0, Map(EdgeLine, ModelEdges(dbtModels[..i]))), Map(EdgeLine, DepEdges(m.name, m.dependencies))) by {
        ModelStep(dbtModels, i);
        MapAppend(EdgeLine, ModelEdges(dbtModels[..i]), DepEdges(m.name, m.dependencies));
        AddAllUniqueAppend(edges0, Map(EdgeLine, ModelEdges(dbtModels[..i])), Map(EdgeLine, DepEdges(m.name, m.dependencies)));
      }
      AddModel(m);
    }

    method AddModels()
      modifies this`nodes, this`edges
      ensures nodes == ApplyOffers(old(nodes), ModelOffers(dbtModels))
      ensures edges == AddAllUnique(old(edges), Map(EdgeLine, ModelEdges(dbtModels)))
    {
      var i := 0;
      while i < |dbtModels|
        invariant 0 <= i <= |dbtModels|
        invariant nodes == ApplyOffers(old(nodes), ModelOffers(dbtModels[..i]))
        invariant edges == AddAllUnique(old(edges), Map(EdgeLine, ModelEdges(dbtModels[..i])))
      {
        AddModelAt(old(nodes), old(edges), i);
        i := i + 1;
      }
      assert dbtModels[..|dbtModels|] == dbtModels;
    }

    /**
     * `generate_graph`: offers every foreign key and model again, then
     * renders; `RerunChangesNothing` makes repeated calls agree.
     */
    method GenerateGraph() returns (text: string)
      requires Valid()
      modifies this`nodes, this`edges
      ensures Valid()
      ensures nodes == ApplyOffers(old(nodes), NodeOffers(dbFks, dbtModels))
      ensures edges == AddAllUnique(old(edges), EdgeStrings(dbFks, dbtModels))
      ensures text == Join("\n", CoreLines(nodes, edges))
    {
      AddForeignKeys();
      AddModels();
      ApplyOffersAppend(old(nodes), FkOffers(dbFks), ModelOffers(dbtModels));
      MapAppend(EdgeLine, FkEdges(dbFks), ModelEdges(dbtModels));
      AddAllUniqueAppend(old(edges), Map(EdgeLine, FkEdges(dbFks)), Map(EdgeLine, ModelEdges(dbtModels)));
      ApplyOffersWellFormed(old(nodes), NodeOffers(dbFks, dbtModels));
      AddAllUniqueContents(old(edges), EdgeStrings(dbFks, dbtModels));
      text := RenderCore(nodes, edges);
    }
  }
}
