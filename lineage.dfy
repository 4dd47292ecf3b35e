/**
 * The global lineage graph of schema_scribe's services layer: foreign-key
 * edges between database tables and dbt `ref`/`source` dependencies merged
 * into one graph, with a node style that only ever moves up the lattice
 * db < source < box, and edges kept free of repeats.
 */
module Lineage {
  import opened Wrappers
  import opened Seqs
  import opened Text

  /** One foreign key, by its `source_table` and `target_table`. */
  datatype ForeignKey = ForeignKey(sourceTable: string, targetTable: string)

  /** One parsed dbt model: its name and its dependency names (`[]` when the key is absent). */
  datatype DbtModel = DbtModel(name: string, dependencies: seq<string>)

  /** An edge record; its `id` is derived from the other three fields. */
  datatype Edge = Edge(id: string, source: string, target: string, labelText: string)

  /** One node of the JSON output: `id`, `data.label` and `type`. */
  datatype JsonNode = JsonNode(id: string, labelText: string, kind: string)

  /**
   * The node dictionary: its keys in insertion order (a Python dict keeps a
   * key's first position when its value is replaced) and each node's style.
   * The stored `id` and `label` are always the name itself.
   */
  datatype NodeTable = NodeTable(order: seq<string>, styles: map<string, Style>)

  /** A node style: the strings "box", "source" and "db", or any other string. */
  datatype Style = Box | Source | Db | Unknown(name: string)

  /** The style's string, as stored in the node and output as its JSON `type`. */
  function StyleName(s: Style): string
  {
    match s
    case Box => "box"
    case Source => "source"
    case Db => "db"
    case Unknown(name) => name
  }

  /** Reading a style string back. */
  function ParseStyle(name: string): (s: Style)
    ensures StyleName(s) == name
  {
    if name == "box" then Box
    else if name == "source" then Source
    else if name == "db" then Db
    else Unknown(name)
  }

  ghost predicate WellFormed(t: NodeTable)
  {
    NoDup(t.order) && forall n :: n in t.order <==> n in t.styles
  }

  const EmptyTable: NodeTable := NodeTable([], map[])

  /** `_get_style_priority`. */
  function Priority(style: Style): (p: int)
    ensures 0 <= p <= 3
  {
    match style
    case Box => 3
    case Source => 2
    case Db => 1
    case Unknown(_) => 0
  }

  predicate Known(style: Style)
  {
    !style.Unknown?
  }

  /**
   * The three styles the generator uses have three different priorities,
   * above every other style, and "box" alone has the top one.
   */
  lemma PriorityRanksKnownStyles(a: Style, b: Style)
    ensures Known(a) && Known(b) && Priority(a) == Priority(b) ==> a == b
    ensures Known(a) <==> Priority(a) > 0
    ensures Priority(a) == 3 <==> a == Box
  {
  }

  /** The priority a node currently has: its style's, or -1 when it is absent. */
  function Rank(styles: map<string, Style>, name: string): (p: int)
    ensures name !in styles <==> p == -1
  {
    if name in styles then Priority(styles[name]) else -1
  }

  /** `_add_node`: the style is replaced only by one of strictly higher priority. */
  function Restyle(t: NodeTable, name: string, style: Style): (r: NodeTable)
    ensures r.styles.Keys == t.styles.Keys + {name}
    ensures Rank(r.styles, name) == if Priority(style) > Rank(t.styles, name) then Priority(style) else Rank(t.styles, name)
    ensures r.styles[name] == style || (name in t.styles && r.styles[name] == t.styles[name])
    ensures forall n :: n != name && n in t.styles ==> r.styles[n] == t.styles[n]
    ensures WellFormed(t) ==> WellFormed(r)
  {
    if Priority(style) > Rank(t.styles, name) then
      NodeTable(if name in t.styles then t.order else t.order + [name], t.styles[name := style])
    else t
  }

  /** Offering the styles `offers` one after the other. */
  function ApplyOffers(t: NodeTable, offers: seq<(string, Style)>): NodeTable
    decreases |offers|
  {
    if offers == [] then t
    else
      var (name, style) := offers[|offers| - 1];
      Restyle(ApplyOffers(t, offers[..|offers| - 1]), name, style)
  }

  lemma ApplyOffersSnoc(t: NodeTable, offers: seq<(string, Style)>, o: (string, Style))
    ensures ApplyOffers(t, offers + [o]) == Restyle(ApplyOffers(t, offers), o.0, o.1)
  {
    assert (offers + [o])[..|offers|] == offers;
  }

  lemma {:induction false} ApplyOffersAppend(t: NodeTable, xs: seq<(string, Style)>, ys: seq<(string, Style)>)
    ensures ApplyOffers(t, xs + ys) == ApplyOffers(ApplyOffers(t, xs), ys)
    decreases |ys|
  {
    if ys == [] {
      assert xs + ys == xs;
    } else {
      var init := ys[..|ys| - 1];
      ApplyOffersAppend(t, xs, init);
      assert (xs + ys)[..|xs + ys| - 1] == xs + init;
    }
  }

  /** Offering keeps the table well formed: each node listed once, in the order it first appeared. */
  lemma {:induction false} ApplyOffersWellFormed(t: NodeTable, offers: seq<(string, Style)>)
    requires WellFormed(t)
    ensures WellFormed(ApplyOffers(t, offers))
    decreases |offers|
  {
    if offers != [] {
      ApplyOffersWellFormed(t, offers[..|offers| - 1]);
    }
  }

  /** The nodes after a run of offers are those before plus every name offered. */
  lemma {:induction false} ApplyOffersKeys(t: NodeTable, offers: seq<(string, Style)>)
    ensures forall n :: n in ApplyOffers(t, offers).styles <==> n in t.styles || exists o :: o in offers && o.0 == n
    decreases |offers|
  {
    if offers != [] {
      var init := offers[..|offers| - 1];
      var last := offers[|offers| - 1];
      ApplyOffersKeys(t, init);
      var r := ApplyOffers(t, offers);
      forall n | n in r.styles
        ensures n in t.styles || exists o :: o in offers && o.0 == n
      {
        if n != last.0 && n !in t.styles {
          var o :| o in init && o.0 == n;
          assert o in offers;
        }
      }
      forall n | n in t.styles || exists o :: o in offers && o.0 == n
        ensures n in r.styles
      {
        if n !in t.styles && n != last.0 {
          var o :| o in offers && o.0 == n;
          var k :| 0 <= k < |offers| && offers[k] == o;
          assert init[k] == o;
        }
      }
    }
  }

  /**
   * Styles only move up: each node ends with a priority at least that of
   * every style offered for it and of the style it had before.
   */
  lemma {:induction false} ApplyOffersMax(t: NodeTable, offers: seq<(string, Style)>)
    ensures var r := ApplyOffers(t, offers);
      (forall o :: o in offers ==> Priority(o.1) <= Rank(r.styles, o.0))
      && (forall n :: n in t.styles ==> Rank(t.styles, n) <= Rank(r.styles, n))
    decreases |offers|
  {
    if offers != [] {
      var init := offers[..|offers| - 1];
      var last := offers[|offers| - 1];
      ApplyOffersMax(t, init);
      var r := ApplyOffers(t, offers);
      forall o | o in offers
        ensures Priority(o.1) <= Rank(r.styles, o.0)
      {
        if o != last {
          var k :| 0 <= k < |offers| && offers[k] == o;
          assert init[k] == o;
        }
      }
    }
  }

  /** Every final style was offered for its node, or is the one the node had before. */
  lemma {:induction false} ApplyOffersOrigin(t: NodeTable, offers: seq<(string, Style)>)
    ensures var r := ApplyOffers(t, offers);
      forall n :: n in r.styles ==> (n, r.styles[n]) in offers || (n in t.styles && r.styles[n] == t.styles[n])
    decreases |offers|
  {
    if offers != [] {
      var init := offers[..|offers| - 1];
      var last := offers[|offers| - 1];
      ApplyOffersOrigin(t, init);
      var r := ApplyOffers(t, offers);
      forall n | n in r.styles && !(n in t.styles && r.styles[n] == t.styles[n])
        ensures (n, r.styles[n]) in offers
      {
        if n != last.0 || r.styles[n] != last.1 {
          assert (n, r.styles[n]) in init;
        }
      }
    }
  }

  /**
   * The final style does not depend on the order of the offers: two runs
   * from an empty table over the same offers (all of the three known
   * styles) end with the same style for every node.
   */
  lemma OrderIndependent(a: seq<(string, Style)>, b: seq<(string, Style)>)
    requires forall o :: o in a <==> o in b
    requires forall o :: o in a ==> Known(o.1)
    ensures ApplyOffers(EmptyTable, a).styles == ApplyOffers(EmptyTable, b).styles
  {
    FromEmpty(a);
    FromEmpty(b);
    SameBestAll(ApplyOffers(EmptyTable, a).styles, ApplyOffers(EmptyTable, b).styles, a, b);
  }

  /** Two style maps that each hold, per node, the best of the same known offers are equal. */
  lemma SameBestAll(ra: map<string, Style>, rb: map<string, Style>, a: seq<(string, Style)>, b: seq<(string, Style)>)
    requires forall o :: o in a <==> o in b
    requires forall o :: o in a ==> Known(o.1)
    requires forall m :: m in ra ==> (m, ra[m]) in a
    requires forall m :: m in rb ==> (m, rb[m]) in b
    requires forall o :: o in a ==> Priority(o.1) <= Rank(ra, o.0)
    requires forall o :: o in b ==> Priority(o.1) <= Rank(rb, o.0)
    ensures ra == rb
  {
    forall n | n in ra
      ensures n in rb && ra[n] == rb[n]
    {
      SameBest(ra, rb, a, b, n);
    }
    forall n | n in rb
      ensures n in ra
    {
      assert (n, rb[n]) in a;
    }
  }

  /** From an empty table, every final style was offered and beats every other offer for its node. */
  lemma FromEmpty(offers: seq<(string, Style)>)
    ensures var r := ApplyOffers(EmptyTable, offers).styles;
      (forall n :: n in r ==> (n, r[n]) in offers)
      && (forall o :: o in offers ==> Priority(o.1) <= Rank(r, o.0))
  {
    ApplyOffersMax(EmptyTable, offers);
    ApplyOffersOrigin(EmptyTable, offers);
  }

  /** A node's best offer is the same in two runs over the same known offers. */
  lemma SameBest(ra: map<string, Style>, rb: map<string, Style>, a: seq<(string, Style)>, b: seq<(string, Style)>, n: string)
    requires forall o :: o in a <==> o in b
    requires forall o :: o in a ==> Known(o.1)
    requires forall m :: m in ra ==> (m, ra[m]) in a
    requires forall m :: m in rb ==> (m, rb[m]) in b
    requires forall o :: o in a ==> Priority(o.1) <= Rank(ra, o.0)
    requires forall o :: o in b ==> Priority(o.1) <= Rank(rb, o.0)
    requires n in ra
    ensures n in rb && ra[n] == rb[n]
  {
    assert (n, ra[n]) in b;
    assert Priority(ra[n]) <= Rank(rb, n);
    assert n in rb;
    assert (n, rb[n]) in a;
    PriorityRanksKnownStyles(ra[n], rb[n]);
  }

  /** A name offered as a model ends as a model, whatever else it was offered as. */
  lemma ModelWins(t: NodeTable, offers: seq<(string, Style)>, n: string)
    requires (n, Box) in offers
    ensures n in ApplyOffers(t, offers).styles && ApplyOffers(t, offers).styles[n] == Box
  {
    ApplyOffersKeys(t, offers);
    ApplyOffersMax(t, offers);
    ApplyOffersOrigin(t, offers);
    var r := ApplyOffers(t, offers).styles;
    PriorityRanksKnownStyles(r[n], Box);
  }

  // ---------------------------------------------------------------------
  // What `_process_lineage` offers.

  /** A dependency with a dot is a source (`source_name.table`), any other a model. */
  function DepStyle(dep: string): Style
  {
    if '.' in dep then Source else Box
  }

  /** Each foreign key offers both of its tables as database tables. */
  function FkOffers(fks: seq<ForeignKey>): (r: seq<(string, Style)>)
    decreases |fks|
  {
    if fks == [] then []
    else
      var fk := fks[|fks| - 1];
      FkOffers(fks[..|fks| - 1]) + [(fk.sourceTable, Db), (fk.targetTable, Db)]
  }

  function DepOffers(deps: seq<string>): (r: seq<(string, Style)>)
    ensures |r| == |deps| && forall k :: 0 <= k < |deps| ==> r[k] == (deps[k], DepStyle(deps[k]))
    decreases |deps|
  {
    if deps == [] then [] else DepOffers(deps[..|deps| - 1]) + [(deps[|deps| - 1], DepStyle(deps[|deps| - 1]))]
  }

  /** Each model offers itself as a model, then each of its dependencies. */
  function ModelOffers(models: seq<DbtModel>): (r: seq<(string, Style)>)
    decreases |models|
  {
    if models == [] then []
    else
      var m := models[|models| - 1];
      ModelOffers(models[..|models| - 1]) + ([(m.name, Box)] + DepOffers(m.dependencies))
  }

  function NodeOffers(fks: seq<ForeignKey>, models: seq<DbtModel>): seq<(string, Style)>
  {
    FkOffers(fks) + ModelOffers(models)
  }

  lemma FkStep(fks: seq<ForeignKey>, i: nat)
    requires i < |fks|
    ensures FkOffers(fks[..i + 1]) == FkOffers(fks[..i]) + [(fks[i].sourceTable, Db), (fks[i].targetTable, Db)]
    ensures FkEdges(fks[..i + 1]) == FkEdges(fks[..i]) + [MakeEdge(fks[i].sourceTable, fks[i].targetTable, "FK")]
  {
    assert fks[..i + 1][..i] == fks[..i];
  }

  lemma ModelStep(models: seq<DbtModel>, i: nat)
    requires i < |models|
    ensures ModelOffers(models[..i + 1]) == ModelOffers(models[..i]) + ([(models[i].name, Box)] + DepOffers(models[i].dependencies))
    ensures ModelEdges(models[..i + 1]) == ModelEdges(models[..i]) + DepEdges(models[i].name, models[i].dependencies)
  {
    assert models[..i + 1][..i] == models[..i];
  }

  /** One more model: its name as a model, then its dependencies. */
  lemma ModelOffersStep(t: NodeTable, models: seq<DbtModel>, i: nat)
    requires i < |models|
    ensures ApplyOffers(t, ModelOffers(models[..i + 1]))
      == ApplyOffers(Restyle(ApplyOffers(t, ModelOffers(models[..i])), models[i].name, Box), DepOffers(models[i].dependencies))
  {
    var before := ModelOffers(models[..i]);
    var m := models[i];
    ModelStep(models, i);
    ApplyOffersSnoc(t, before, (m.name, Box));
    ApplyOffersAppend(t, before + [(m.name, Box)], DepOffers(m.dependencies));
    assert before + [(m.name, Box)] + DepOffers(m.dependencies) == ModelOffers(models[..i + 1]);
  }

  /** One more dependency of a model: its offer, then its edge. */
  lemma DepStep(t: NodeTable, edges: seq<Edge>, model: string, deps: seq<string>, j: nat)
    requires j < |deps|
    ensures ApplyOffers(t, DepOffers(deps[..j + 1])) == Restyle(ApplyOffers(t, DepOffers(deps[..j])), deps[j], DepStyle(deps[j]))
    ensures AddAllUnique(edges, DepEdges(model, deps[..j + 1]))
      == AddUnique(AddAllUnique(edges, DepEdges(model, deps[..j])), MakeEdge(deps[j], model, ""))
  {
    assert deps[..j + 1][..j] == deps[..j];
    DepEdgesSnoc(model, deps, j);
    AddAllUniqueSnoc(edges, DepEdges(model, deps[..j]), MakeEdge(deps[j], model, ""));
    ApplyOffersSnoc(t, DepOffers(deps[..j]), (deps[j], DepStyle(deps[j])));
  }

  lemma ApplyTwo(t: NodeTable, xs: seq<(string, Style)>, a: (string, Style), b: (string, Style))
    ensures ApplyOffers(t, xs + [a, b]) == Restyle(Restyle(ApplyOffers(t, xs), a.0, a.1), b.0, b.1)
  {
    ApplyOffersSnoc(t, xs, a);
    ApplyOffersSnoc(t, xs + [a], b);
    assert xs + [a] + [b] == xs + [a, b];
  }

  /**
   * Offers that cannot raise any node change nothing: re-offering what a
   * table already holds leaves it exactly as it is.
   */
  lemma {:induction false} ApplyOffersSaturated(t: NodeTable, offers: seq<(string, Style)>)
    requires forall o :: o in offers ==> o.0 in t.styles && Priority(o.1) <= Rank(t.styles, o.0)
    ensures ApplyOffers(t, offers) == t
    decreases |offers|
  {
    if offers != [] {
      var init := offers[..|offers| - 1];
      forall o | o in init ensures o.0 in t.styles && Priority(o.1) <= Rank(t.styles, o.0) { assert o in offers; }
      ApplyOffersSaturated(t, init);
    }
  }

  /** Running the same offers a second time changes nothing. */
  lemma ApplyOffersIdempotent(t: NodeTable, offers: seq<(string, Style)>)
    ensures ApplyOffers(ApplyOffers(t, offers), offers) == ApplyOffers(t, offers)
  {
    ApplyOffersKeys(t, offers);
    ApplyOffersMax(t, offers);
    ApplyOffersSaturated(ApplyOffers(t, offers), offers);
  }

  /** Only the three known styles are ever offered. */
  lemma {:induction false} OffersKnown(fks: seq<ForeignKey>, models: seq<DbtModel>)
    ensures forall o :: o in NodeOffers(fks, models) ==> Known(o.1)
  {
    FkOffersKnown(fks);
    ModelOffersKnown(models);
  }

  lemma {:induction false} FkOffersKnown(fks: seq<ForeignKey>)
    ensures forall o :: o in FkOffers(fks) ==> o.1 == Db
    decreases |fks|
  {
    if fks != [] {
      FkOffersKnown(fks[..|fks| - 1]);
    }
  }

  lemma {:induction false} ModelOffersKnown(models: seq<DbtModel>)
    ensures forall o :: o in ModelOffers(models) ==> Known(o.1)
    decreases |models|
  {
    if models != [] {
      ModelOffersKnown(models[..|models| - 1]);
    }
  }

  /** Every model name is offered as a model. */
  lemma {:induction false} ModelNamesOffered(models: seq<DbtModel>, i: nat)
    requires i < |models|
    ensures (models[i].name, Box) in ModelOffers(models)
    decreases |models|
  {
    if i < |models| - 1 {
      ModelNamesOffered(models[..|models| - 1], i);
      assert models[..|models| - 1][i] == models[i];
    }
  }

  /**
   * A table that is also a dbt model renders as a model: after processing,
   * every model name has style `box`, foreign keys or not.
   */
  lemma ModelsStyledAsModels(fks: seq<ForeignKey>, models: seq<DbtModel>, i: nat)
    requires i < |models|
    ensures var r := ApplyOffers(EmptyTable, NodeOffers(fks, models)).styles;
      models[i].name in r && r[models[i].name] == Box
  {
    ModelNamesOffered(models, i);
    ModelWins(EmptyTable, NodeOffers(fks, models), models[i].name);
  }

  /** Every dependency is offered with its dotted-or-not style. */
  lemma {:induction false} DependencyOffered(models: seq<DbtModel>, i: nat, k: nat)
    requires i < |models| && k < |models[i].dependencies|
    ensures (models[i].dependencies[k], DepStyle(models[i].dependencies[k])) in ModelOffers(models)
    decreases |models|
  {
    if i < |models| - 1 {
      DependencyOffered(models[..|models| - 1], i, k);
      assert models[..|models| - 1][i] == models[i];
    } else {
      assert DepOffers(models[i].dependencies)[k] == (models[i].dependencies[k], DepStyle(models[i].dependencies[k]));
    }
  }

  /** Every foreign-key table is offered as a database table. */
  lemma {:induction false} ForeignKeyTablesOffered(fks: seq<ForeignKey>, j: nat)
    requires j < |fks|
    ensures (fks[j].sourceTable, Db) in FkOffers(fks) && (fks[j].targetTable, Db) in FkOffers(fks)
    decreases |fks|
  {
    if j < |fks| - 1 {
      ForeignKeyTablesOffered(fks[..|fks| - 1], j);
      assert fks[..|fks| - 1][j] == fks[j];
    }
  }

  /** A model offer is a model's own name as `box`, or one of its dependencies with its dotted-or-not style. */
  lemma {:induction false} ModelOffersFrom(models: seq<DbtModel>)
    ensures forall o :: o in ModelOffers(models) ==>
      exists i :: 0 <= i < |models| && (o == (models[i].name, Box) || (o.0 in models[i].dependencies && o.1 == DepStyle(o.0)))
    decreases |models|
  {
    if models != [] {
      var init := models[..|models| - 1];
      var m := models[|models| - 1];
      ModelOffersFrom(init);
      forall o | o in ModelOffers(models)
        ensures exists i :: 0 <= i < |models| && (o == (models[i].name, Box) || (o.0 in models[i].dependencies && o.1 == DepStyle(o.0)))
      {
        if o in ModelOffers(init) {
          var i :| 0 <= i < |init| && (o == (init[i].name, Box) || (o.0 in init[i].dependencies && o.1 == DepStyle(o.0)));
          assert models[i] == init[i];
        } else if o == (m.name, Box) {
          assert models[|models| - 1] == m;
        } else {
          assert o in DepOffers(m.dependencies);
          var k :| 0 <= k < |DepOffers(m.dependencies)| && DepOffers(m.dependencies)[k] == o;
          assert o.0 == m.dependencies[k] && models[|models| - 1] == m;
        }
      }
    }
  }

  /**
   * A dotted dependency that no model is named after renders as a source:
   * `source` outranks the `db` a foreign key may give the same table.
   */
  lemma DottedDependencyIsSource(fks: seq<ForeignKey>, models: seq<DbtModel>, i: nat, k: nat)
    requires i < |models| && k < |models[i].dependencies| && '.' in models[i].dependencies[k]
    requires forall j :: 0 <= j < |models| ==> models[j].name != models[i].dependencies[k]
    ensures var r := ApplyOffers(EmptyTable, NodeOffers(fks, models)).styles;
      models[i].dependencies[k] in r && r[models[i].dependencies[k]] == Source
  {
    var dep := models[i].dependencies[k];
    var offers := NodeOffers(fks, models);
    DependencyOffered(models, i, k);
    assert (dep, Source) in offers;
    ApplyOffersMax(EmptyTable, offers);
    ApplyOffersOrigin(EmptyTable, offers);
    FkOffersKnown(fks);
    ModelOffersFrom(models);
    var r := ApplyOffers(EmptyTable, offers).styles;
    assert dep in r;
    assert (dep, r[dep]) in offers;
    if (dep, r[dep]) in FkOffers(fks) {
      assert r[dep] == Db;
    } else {
      assert (dep, r[dep]) in ModelOffers(models);
    }
  }

  /** A table that appears only in foreign keys, never as a model or a dependency, renders as a database table. */
  lemma ForeignKeyOnlyTableIsDb(fks: seq<ForeignKey>, models: seq<DbtModel>, j: nat, table: string)
    requires j < |fks| && (fks[j].sourceTable == table || fks[j].targetTable == table)
    requires forall i :: 0 <= i < |models| ==> models[i].name != table && table !in models[i].dependencies
    ensures var r := ApplyOffers(EmptyTable, NodeOffers(fks, models)).styles;
      table in r && r[table] == Db
  {
    var offers := NodeOffers(fks, models);
    ForeignKeyTablesOffered(fks, j);
    assert (table, Db) in offers;
    ApplyOffersMax(EmptyTable, offers);
    ApplyOffersOrigin(EmptyTable, offers);
    FkOffersKnown(fks);
    ModelOffersFrom(models);
    var r := ApplyOffers(EmptyTable, offers).styles;
    assert table in r;
    assert (table, r[table]) in offers;
    assert (table, r[table]) !in ModelOffers(models);
  }

  /** `_add_edge`'s record: the id is `from-to`, with `-label` appended when there is a label. */
  function MakeEdge(from: string, to: string, edgeLabel: string): (e: Edge)
    ensures e.source == from && e.target == to && e.labelText == edgeLabel
    ensures e.id == if edgeLabel != "" then from + "-" + to + "-" + edgeLabel else from + "-" + to
  {
    var base := from + "-" + to;
    Edge(if edgeLabel != "" then base + "-" + edgeLabel else base, from, to, edgeLabel)
  }

  /** The foreign-key edges, labelled `FK`. */
  function FkEdges(fks: seq<ForeignKey>): (r: seq<Edge>)
    ensures |r| == |fks|
    decreases |fks|
  {
    if fks == [] then []
    else
      var fk := fks[|fks| - 1];
      FkEdges(fks[..|fks| - 1]) + [MakeEdge(fk.sourceTable, fk.targetTable, "FK")]
  }

  /** The unlabelled edges from each dependency to its model. */
  function DepEdges(model: string, deps: seq<string>): (r: seq<Edge>)
    ensures |r| == |deps|
    decreases |deps|
  {
    if deps == [] then [] else DepEdges(model, deps[..|deps| - 1]) + [MakeEdge(deps[|deps| - 1], model, "")]
  }

  /** One dependency more gives one edge more, from it to the model. */
  lemma DepEdgesSnoc(model: string, deps: seq<string>, j: nat)
    requires j < |deps|
    ensures DepEdges(model, deps[..j + 1]) == DepEdges(model, deps[..j]) + [MakeEdge(deps[j], model, "")]
  {
    assert deps[..j + 1][..j] == deps[..j];
  }

  function ModelEdges(models: seq<DbtModel>): seq<Edge>
    decreases |models|
  {
    if models == [] then []
    else
      var m := models[|models| - 1];
      ModelEdges(models[..|models| - 1]) + DepEdges(m.name, m.dependencies)
  }

  function EdgeOffers(fks: seq<ForeignKey>, models: seq<DbtModel>): seq<Edge>
  {
    FkEdges(fks) + ModelEdges(models)
  }

  /**
   * The edge list holds every offered edge exactly once: the edges
   * processing adds to an empty list have no repeats and are exactly those
   * offered.
   */
  lemma EdgesDeduplicated(fks: seq<ForeignKey>, models: seq<DbtModel>)
    ensures var es := AddAllUnique([], EdgeOffers(fks, models));
      NoDup(es) && forall e :: e in es <==> e in EdgeOffers(fks, models)
  {
    var xs := EdgeOffers(fks, models);
    AddAllUniqueContents([], xs);
  }

  // ---------------------------------------------------------------------
  // Rendering.

  /** A node's definition: a rectangle for a model, a cylinder for a table, a circle for a source. */
  function NodeLine(name: string, style: Style): Option<string>
  {
    match style
    case Box => Some("    " + name + "[\"" + name + "\"]")
    case Db => Some("    " + name + "[(\"" + name + "\")]")
    case Source => Some("    " + name + "((\"" + name + "\"))")
    case Unknown(_) => None
  }

  /**
   * The node definitions for `names`, in that order; a node of an unknown
   * style gets no line, and so does a name without a style, which a
   * well-formed table never holds.
   */
  function NodeLines(names: seq<string>, styles: map<string, Style>): seq<string>
    decreases |names|
  {
    if names == [] then []
    else
      var n := names[|names| - 1];
      var init := NodeLines(names[..|names| - 1], styles);
      if n !in styles then init
      else match NodeLine(n, styles[n])
      case Some(line) => init + [line]
      case None => init
  }

  /** With only known styles there is one definition per node, in the given order. */
  lemma {:induction false} NodeLinesKnown(names: seq<string>, styles: map<string, Style>)
    requires forall n :: n in names ==> n in styles && Known(styles[n])
    ensures |NodeLines(names, styles)| == |names|
    ensures forall k :: 0 <= k < |names| ==> Some(NodeLines(names, styles)[k]) == NodeLine(names[k], styles[names[k]])
    decreases |names|
  {
    if names != [] {
      var init := names[..|names| - 1];
      NodeLinesKnown(init, styles);
      forall k | 0 <= k < |init| ensures init[k] == names[k] { }
    }
  }

  /** An edge line; a labelled edge carries its label in quotes. */
  function EdgeLine(e: Edge): string
  {
    if e.labelText != "" then "    " + e.source + " -- \"" + e.labelText + "\" --> " + e.target
    else "    " + e.source + " --> " + e.target
  }

  function EdgeLines(es: seq<Edge>): (r: seq<string>)
    ensures |r| == |es|
    decreases |es|
  {
    if es == [] then [] else EdgeLines(es[..|es| - 1]) + [EdgeLine(es[|es| - 1])]
  }

  /** One line per edge, in the edges' order. */
  lemma {:induction false} EdgeLinesAt(es: seq<Edge>)
    ensures forall k :: 0 <= k < |es| ==> EdgeLines(es)[k] == EdgeLine(es[k])
    decreases |es|
  {
    if es != [] {
      EdgeLinesAt(es[..|es| - 1]);
    }
  }

  lemma EdgeLinesSnoc(xs: seq<Edge>, e: Edge)
    ensures EdgeLines(xs + [e]) == EdgeLines(xs) + [EdgeLine(e)]
  {
    assert (xs + [e])[..|xs|] == xs;
  }

  lemma {:induction false} EdgeLinesAppend(xs: seq<Edge>, ys: seq<Edge>)
    ensures EdgeLines(xs + ys) == EdgeLines(xs) + EdgeLines(ys)
    decreases |ys|
  {
    if ys == [] {
      assert xs + ys == xs;
    } else {
      var init := ys[..|ys| - 1];
      assert (xs + ys)[..|xs + ys| - 1] == xs + init;
      EdgeLinesAppend(xs, init);
    }
  }

  lemma {:induction false} NodeLinesAppend(xs: seq<string>, ys: seq<string>, styles: map<string, Style>)
    ensures NodeLines(xs + ys, styles) == NodeLines(xs, styles) + NodeLines(ys, styles)
    decreases |ys|
  {
    if ys == [] {
      assert xs + ys == xs;
    } else {
      var init := ys[..|ys| - 1];
      assert (xs + ys)[..|xs + ys| - 1] == xs + init;
      NodeLinesAppend(xs, init, styles);
    }
  }

  lemma RemoveAt(b: seq<string>, k: nat)
    requires k < |b|
    ensures b == b[..k] + [b[k]] + b[k + 1..]
    ensures multiset(b[..k] + b[k + 1..]) == multiset(b) - multiset{b[k]}
  {
    assert b == b[..k] + [b[k]] + b[k + 1..];
    assert multiset(b) == multiset(b[..k]) + multiset{b[k]} + multiset(b[k + 1..]);
  }

  lemma NodeLinesSplit(before: seq<string>, x: string, after: seq<string>, styles: map<string, Style>)
    ensures multiset(NodeLines(before + [x] + after, styles))
      == multiset(NodeLines(before + after, styles)) + multiset(NodeLines([x], styles))
  {
    NodeLinesAppend(before + [x], after, styles);
    NodeLinesAppend(before, [x], styles);
    NodeLinesAppend(before, after, styles);
  }

  /** The node definitions of two orderings of the same names are the same lines, reordered. */
  lemma {:induction false} NodeLinesPermutation(a: seq<string>, b: seq<string>, styles: map<string, Style>)
    requires multiset(a) == multiset(b)
    ensures multiset(NodeLines(a, styles)) == multiset(NodeLines(b, styles))
    decreases |a|
  {
    if a != [] {
      var x := a[|a| - 1];
      var init := a[..|a| - 1];
      assert x in multiset(b) by { assert x in multiset(a); }
      var k :| 0 <= k < |b| && b[k] == x;
      var rest := b[..k] + b[k + 1..];
      assert multiset(init) == multiset(rest) by {
        RemoveAt(b, k);
        assert a == init + [x];
        assert multiset(a) == multiset(init) + multiset{x};
      }
      NodeLinesPermutation(init, rest, styles);
      NodeLinesPermutationStep(init, x, b, k, styles);
      assert a == init + [x];
    }
  }

  /** The inductive step: taking `x` out of both sides, at the end of one and at `k` in the other. */
  lemma NodeLinesPermutationStep(init: seq<string>, x: string, b: seq<string>, k: nat, styles: map<string, Style>)
    requires k < |b| && b[k] == x
    requires multiset(NodeLines(init, styles)) == multiset(NodeLines(b[..k] + b[k + 1..], styles))
    ensures multiset(NodeLines(init + [x], styles)) == multiset(NodeLines(b, styles))
  {
    RemoveAt(b, k);
    NodeLinesSplit(b[..k], x, b[k + 1..], styles);
    NodeLinesAppend(init, [x], styles);
  }

  function IdOf(e: Edge): string { e.id }

  lemma SortedNamesInTable(t: NodeTable)
    requires WellFormed(t)
    ensures forall n :: n in SortBy(t.order, Id) ==> n in t.styles
  {
    forall n | n in SortBy(t.order, Id)
      ensures n in t.styles
    {
      assert n in multiset(SortBy(t.order, Id));
    }
  }

  /**
   * The lines of the diagram: the header, the node definitions sorted by
   * name, a blank line, and the edges sorted (stably) by id.
   */
  function MermaidLines(t: NodeTable, edges: seq<Edge>): seq<string>
    requires WellFormed(t)
  {
    ["graph TD;"] + NodeLines(SortBy(t.order, Id), t.styles) + [""] + EdgeLines(SortBy(edges, IdOf))
  }

  /**
   * The diagram's layout: the header first, one definition per node in name
   * order, a blank separator, then one line per edge in id order.
   */
  lemma MermaidLayout(t: NodeTable, edges: seq<Edge>)
    requires WellFormed(t)
    requires forall n :: n in t.styles ==> Known(t.styles[n])
    ensures var lines := MermaidLines(t, edges);
      var names := SortBy(t.order, Id);
      |lines| == |t.order| + |edges| + 2
      && lines[0] == "graph TD;" && lines[|t.order| + 1] == ""
      && SortedBy(names, Id) && SortedBy(SortBy(edges, IdOf), IdOf)
      && (forall n :: n in names ==> n in t.styles)
      && lines[1..|t.order| + 1] == NodeLines(names, t.styles)
      && lines[|t.order| + 2..] == EdgeLines(SortBy(edges, IdOf))
  {
    SortedNamesInTable(t);
    var names := SortBy(t.order, Id);
    NodeLinesKnown(names, t.styles);
    SortByIsSorted(t.order, Id);
    SortByIsSorted(edges, IdOf);
    FramedLayout("graph TD;", NodeLines(names, t.styles), EdgeLines(SortBy(edges, IdOf)));
  }

  /** Where the parts of `[head] + defs + [""] + tail` sit. */
  lemma FramedLayout(head: string, defs: seq<string>, tail: seq<string>)
    ensures var lines := [head] + defs + [""] + tail;
      |lines| == |defs| + |tail| + 2
      && lines[0] == head && lines[|defs| + 1] == ""
      && lines[1..|defs| + 1] == defs && lines[|defs| + 2..] == tail
  {
    var lines := [head] + defs + [""] + tail;
    assert lines[1..|defs| + 1] == defs;
    assert lines[|defs| + 2..] == tail;
  }

  /**
   * The diagram does not depend on the order nodes were first added in:
   * two tables with the same styles give the same lines.
   */
  lemma MermaidIgnoresInsertionOrder(t1: NodeTable, t2: NodeTable, edges: seq<Edge>)
    requires WellFormed(t1) && WellFormed(t2) && t1.styles == t2.styles
    ensures MermaidLines(t1, edges) == MermaidLines(t2, edges)
  {
    SameElementsPermutation(t1.order, t2.order);
    SortIgnoresOrder(t1.order, t2.order);
  }

  /** Renders the diagram as the generator's output loop does. */
  method RenderMermaid(t: NodeTable, edges: seq<Edge>) returns (text: string)
    requires WellFormed(t)
    ensures text == Join("\n", MermaidLines(t, edges))
  {
    SortedNamesInTable(t);
    var defs := RenderNodes(SortBy(t.order, Id), t.styles);
    var sorted := RenderEdges(SortBy(edges, IdOf));
    text := Join("\n", ["graph TD;"] + defs + [""] + sorted);
  }

  /** The node loop of the diagram: one definition per name of a known style. */
  method RenderNodes(names: seq<string>, styles: map<string, Style>) returns (defs: seq<string>)
    requires forall n :: n in names ==> n in styles
    ensures defs == NodeLines(names, styles)
  {
    defs := [];
    var i := 0;
    while i < |names|
      invariant 0 <= i <= |names|
      invariant defs == NodeLines(names[..i], styles)
    {
      assert names[..i + 1][..i] == names[..i];
      var line := NodeLine(names[i], styles[names[i]]);
      if line.Some? {
        defs := defs + [line.value];
      }
      i := i + 1;
    }
    assert names[..|names|] == names;
  }

  /** The edge loop of the diagram: one line per edge. */
  method RenderEdges(es: seq<Edge>) returns (lines: seq<string>)
    ensures lines == EdgeLines(es)
  {
    lines := [];
    var j := 0;
    while j < |es|
      invariant 0 <= j <= |es|
      invariant lines == EdgeLines(es[..j])
    {
      assert es[..j + 1][..j] == es[..j];
      lines := lines + [EdgeLine(es[j])];
      j := j + 1;
    }
    assert es[..|es|] == es;
  }

  /** The JSON node list: one entry per node, in dictionary order, typed by its style. */
  method JsonNodes(t: NodeTable) returns (r: seq<JsonNode>)
    requires WellFormed(t)
    ensures |r| == |t.order|
    ensures forall k :: 0 <= k < |r| ==> r[k].id == r[k].labelText == t.order[k] && r[k].kind == StyleName(t.styles[t.order[k]])
    ensures forall n :: n in t.styles <==> exists k :: 0 <= k < |r| && r[k].id == n
    ensures forall j, k :: 0 <= j < k < |r| ==> r[j].id != r[k].id
  {
    r := [];
    var i := 0;
    while i < |t.order|
      invariant 0 <= i <= |t.order|
      invariant |r| == i
      invariant forall k :: 0 <= k < i ==> r[k] == JsonNode(t.order[k], t.order[k], StyleName(t.styles[t.order[k]]))
    {
      var n := t.order[i];
      r := r + [JsonNode(n, n, StyleName(t.styles[n]))];
      i := i + 1;
    }
    forall n | n in t.styles
      ensures exists k :: 0 <= k < |r| && r[k].id == n
    {
      var k :| 0 <= k < |t.order| && t.order[k] == n;
      assert r[k].id == n;
    }
  }

  // ---------------------------------------------------------------------
  // The generator.

  class GlobalLineageGenerator {
    const dbFks: seq<ForeignKey>
    const dbtModels: seq<DbtModel>
    var nodes: NodeTable
    var edges: seq<Edge>
    var processed: bool

    ghost predicate Valid()
      reads this
    {
      WellFormed(nodes) && NoDup(edges)
    }

    constructor(fks: seq<ForeignKey>, models: seq<DbtModel>)
      ensures Valid()
      ensures dbFks == fks && dbtModels == models
      ensures nodes == EmptyTable && edges == [] && !processed
    {
      dbFks := fks;
      dbtModels := models;
      nodes := EmptyTable;
      edges := [];
      processed := false;
    }

    method AddNode(name: string, style: Style)
      modifies this`nodes
      ensures nodes == Restyle(old(nodes), name, style)
    {
      var current := if name in nodes.styles then Priority(nodes.styles[name]) else -1;
      if Priority(style) > current {
        var order := if name in nodes.styles then nodes.order else nodes.order + [name];
        nodes := NodeTable(order, nodes.styles[name := style]);
      }
    }

    /** `_add_edge`: the record is appended unless an equal one is already there. */
    method AddEdge(from: string, to: string, edgeLabel: string)
      modifies this`edges
      ensures edges == AddUnique(old(edges), MakeEdge(from, to, edgeLabel))
    {
      var id := from + "-" + to;
      if edgeLabel != "" {
        id := id + "-" + edgeLabel;
      }
      var e := Edge(id, from, to, edgeLabel);
      if e !in edges {
        edges := edges + [e];
      }
    }

    /** One foreign key: both tables as database tables, and the labelled edge. */
    method AddForeignKey(fk: ForeignKey)
      modifies this`nodes, this`edges
      ensures nodes == Restyle(Restyle(old(nodes), fk.sourceTable, Db), fk.targetTable, Db)
      ensures edges == AddUnique(old(edges), MakeEdge(fk.sourceTable, fk.targetTable, "FK"))
    {
      AddNode(fk.sourceTable, Db);
      AddNode(fk.targetTable, Db);
      AddEdge(fk.sourceTable, fk.targetTable, "FK");
    }

    method AddForeignKeys()
      modifies this`nodes, this`edges
      ensures nodes == ApplyOffers(old(nodes), FkOffers(dbFks))
      ensures edges == AddAllUnique(old(edges), FkEdges(dbFks))
    {
      var i := 0;
      while i < |dbFks|
        invariant 0 <= i <= |dbFks|
        invariant nodes == ApplyOffers(old(nodes), FkOffers(dbFks[..i]))
        invariant edges == AddAllUnique(old(edges), FkEdges(dbFks[..i]))
      {
        var fk := dbFks[i];
        AddForeignKey(fk);
        assert nodes == ApplyOffers(old(nodes), FkOffers(dbFks[..i + 1])) by {
          FkStep(dbFks, i);
          ApplyTwo(old(nodes), FkOffers(dbFks[..i]), (fk.sourceTable, Db), (fk.targetTable, Db));
        }
        assert edges == AddAllUnique(old(edges), FkEdges(dbFks[..i + 1])) by {
          FkStep(dbFks, i);
          AddAllUniqueSnoc(old(edges), FkEdges(dbFks[..i]), MakeEdge(fk.sourceTable, fk.targetTable, "FK"));
        }
        i := i + 1;
      }
      assert dbFks[..|dbFks|] == dbFks;
    }

    /** One dependency: a source when the name is dotted, a model otherwise, and its edge. */
    method AddDependency(model: string, dep: string)
      modifies this`nodes, this`edges
      ensures nodes == Restyle(old(nodes), dep, DepStyle(dep))
      ensures edges == AddUnique(old(edges), MakeEdge(dep, model, ""))
    {
      if '.' in dep {
        AddNode(dep, Source);
        AddEdge(dep, model, "");
      } else {
        AddNode(dep, Box);
        AddEdge(dep, model, "");
      }
    }

    /** The dependency loop of one model. */
    method AddDependencies(model: DbtModel)
      modifies this`nodes, this`edges
      ensures nodes == ApplyOffers(old(nodes), DepOffers(model.dependencies))
      ensures edges == AddAllUnique(old(edges), DepEdges(model.name, model.dependencies))
    {
      var deps := model.dependencies;
      var j := 0;
      while j < |deps|
        invariant 0 <= j <= |deps|
        invariant nodes == ApplyOffers(old(nodes), DepOffers(deps[..j]))
        invariant edges == AddAllUnique(old(edges), DepEdges(model.name, deps[..j]))
      {
        DepStep(old(nodes), old(edges), model.name, deps, j);
        AddDependency(model.name, deps[j]);
        j := j + 1;
      }
      assert deps[..|deps|] == deps;
    }

    /** One model: its name as a model, then its dependencies. */
    method AddModel(m: DbtModel)
      modifies this`nodes, this`edges
      ensures nodes == ApplyOffers(Restyle(old(nodes), m.name, Box), DepOffers(m.dependencies))
      ensures edges == AddAllUnique(old(edges), DepEdges(m.name, m.dependencies))
    {
      AddNode(m.name, Box);
      AddDependencies(m);
    }

    /** The `i`-th pass of the model loop, starting from `nodes0` and `edges0`. */
    method AddModelAt(ghost nodes0: NodeTable, ghost edges0: seq<Edge>, i: nat)
      requires i < |dbtModels|
      requires nodes == ApplyOffers(nodes0, ModelOffers(dbtModels[..i]))
      requires edges == AddAllUnique(edges0, ModelEdges(dbtModels[..i]))
      modifies this`nodes, this`edges
      ensures nodes == ApplyOffers(nodes0, ModelOffers(dbtModels[..i + 1]))
      ensures edges == AddAllUnique(edges0, ModelEdges(dbtModels[..i + 1]))
    {
      var m := dbtModels[i];
      ModelOffersStep(nodes0, dbtModels, i);
      assert AddAllUnique(edges0, ModelEdges(dbtModels[..i + 1]))
        == AddAllUnique(AddAllUnique(edges0, ModelEdges(dbtModels[..i])), DepEdges(m.name, m.dependencies)) by {
        ModelStep(dbtModels, i);
        AddAllUniqueAppend(edges0, ModelEdges(dbtModels[..i]), DepEdges(m.name, m.dependencies));
      }
      AddModel(m);
    }

    method AddModels()
      modifies this`nodes, this`edges
      ensures nodes == ApplyOffers(old(nodes), ModelOffers(dbtModels))
      ensures edges == AddAllUnique(old(edges), ModelEdges(dbtModels))
    {
      var i := 0;
      while i < |dbtModels|
        invariant 0 <= i <= |dbtModels|
        invariant nodes == ApplyOffers(old(nodes), ModelOffers(dbtModels[..i]))
        invariant edges == AddAllUnique(old(edges), ModelEdges(dbtModels[..i]))
      {
        AddModelAt(old(nodes), old(edges), i);
        i := i + 1;
      }
      assert dbtModels[..|dbtModels|] == dbtModels;
    }

    /**
     * `_process_lineage`: the first call offers every foreign key and every
     * model to the table and the edge list; later calls change nothing.
     */
    method ProcessLineage()
      requires Valid()
      modifies this`nodes, this`edges, this`processed
      ensures Valid() && processed
      ensures old(processed) ==> nodes == old(nodes) && edges == old(edges)
      ensures !old(processed) ==>
        nodes == ApplyOffers(old(nodes), NodeOffers(dbFks, dbtModels))
        && edges == AddAllUnique(old(edges), EdgeOffers(dbFks, dbtModels))
    {
      if processed {
        return;
      }
      AddForeignKeys();
      AddModels();
      ApplyOffersAppend(old(nodes), FkOffers(dbFks), ModelOffers(dbtModels));
      AddAllUniqueAppend(old(edges), FkEdges(dbFks), ModelEdges(dbtModels));
      ApplyOffersWellFormed(old(nodes), NodeOffers(dbFks, dbtModels));
      AddAllUniqueContents(old(edges), EdgeOffers(dbFks, dbtModels));
      processed := true;
    }

    /** `generate_mermaid_string`: processes once, then renders. */
    method GenerateMermaidString() returns (text: string)
      requires Valid()
      modifies this`nodes, this`edges, this`processed
      ensures Valid() && processed
      ensures old(processed) ==> nodes == old(nodes) && edges == old(edges)
      ensures !old(processed) ==>
        nodes == ApplyOffers(old(nodes), NodeOffers(dbFks, dbtModels))
        && edges == AddAllUnique(old(edges), EdgeOffers(dbFks, dbtModels))
      ensures text == Join("\n", MermaidLines(nodes, edges))
    {
      ProcessLineage();
      text := RenderMermaid(nodes, edges);
    }

    /** `generate_graph_json`: processes once, then lists the nodes and the very same edges. */
    method GenerateGraphJson() returns (jsonNodes: seq<JsonNode>, jsonEdges: seq<Edge>)
      requires Valid()
      modifies this`nodes, this`edges, this`processed
      ensures Valid() && processed
      ensures old(processed) ==> nodes == old(nodes) && edges == old(edges)
      ensures !old(processed) ==>
        nodes == ApplyOffers(old(nodes), NodeOffers(dbFks, dbtModels))
        && edges == AddAllUnique(old(edges), EdgeOffers(dbFks, dbtModels))
      ensures jsonEdges == edges && |jsonNodes| == |nodes.order|
      ensures forall k :: 0 <= k < |jsonNodes| ==> jsonNodes[k] == JsonNode(nodes.order[k], nodes.order[k], StyleName(nodes.styles[nodes.order[k]]))
    {
      ProcessLineage();
      jsonNodes := JsonNodes(nodes);
      jsonEdges := edges;
    }
  }
}
