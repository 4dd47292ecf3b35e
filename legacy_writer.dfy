/**
 * data_scribe's earlier `DbtYamlWriter`: one pass per schema file that fills
 * missing descriptions of every `models` entry named in the catalog.
 *
 * The file's tail reads `self.check_mode`, which the constructor never sets,
 * so every non-empty file ends in an AttributeError. Both the code as
 * written and the evidently intended reading (`self.mode == "check"`) are
 * modelled; the writer class uses the intended one.
 */
module LegacyWriter {
  import opened Wrappers
  import opened Documents
  import Reconcile
  import SchemaIndex

  datatype LegacyMode = LegacyUpdate | LegacyCheck | LegacyInteractive

  function LegacyModeName(m: LegacyMode): string
  {
    match m
    case LegacyUpdate => "update"
    case LegacyCheck => "check"
    case LegacyInteractive => "interactive"
  }

  /** The constructor's check: only the three mode names are accepted, anything else is a ValueError. */
  function ParseLegacyMode(s: string): (r: Option<LegacyMode>)
    ensures r.Some? ==> LegacyModeName(r.value) == s
    ensures r.None? ==> forall m: LegacyMode :: LegacyModeName(m) != s
  {
    if s == "update" then Some(LegacyUpdate)
    else if s == "check" then Some(LegacyCheck)
    else if s == "interactive" then Some(LegacyInteractive)
    else None
  }

  /** Drift is not a mode of this writer. */
  lemma DriftRejected(s: string)
    requires s == "drift"
    ensures ParseLegacyMode(s).None?
  {
  }

  /**
   * `_process_update`: check reports without touching the node; update
   * stores the AI value; interactive stores the answer only when it is a
   * non-empty string, and otherwise reports nothing.
   */
  function ProcessUpdate(mode: LegacyMode, fields: Fields, key: string, value: Value, site: Reconcile.Site, ask: Reconcile.Oracle): (r: (bool, Fields))
    ensures mode == LegacyCheck ==> r == (true, fields)
    ensures mode == LegacyUpdate ==> r == (true, fields[key := value])
    ensures mode == LegacyInteractive ==>
      var answer := Reconcile.Prompt(site, key, Display(value), ask);
      r == if answer.Some? && answer.value != "" then (true, fields[key := Str(answer.value)]) else (false, fields)
    ensures !r.0 ==> r.1 == fields
    ensures r.1 == fields || (key in r.1 && r.1 == fields[key := r.1[key]])
  {
    match mode
    case LegacyCheck => (true, fields)
    case LegacyInteractive =>
      (match Reconcile.Prompt(site, key, Display(value), ask)
       case Some(answer) => if answer != "" then (true, fields[key := Str(answer)]) else (false, fields)
       case None => (false, fields))
    case LegacyUpdate => (true, fields[key := value])
  }

  /**
   * An empty answer, which arises when Enter takes an AI value whose text is
   * empty, is a skip here, while the newer writer stores the empty string.
   */
  lemma EmptyAnswerSkips(fields: Fields, key: string, value: Value, site: Reconcile.Site, ask: Reconcile.Oracle)
    requires ask(site, key, Display(value)) == Reconcile.Accept && Display(value) == ""
    ensures ProcessUpdate(LegacyInteractive, fields, key, value, site, ask) == (false, fields)
    ensures Reconcile.ProcessUpdate(Reconcile.Interactive, fields, key, value, site, ask) == (true, fields[key := Str("")])
  {
  }

  /** The `ai_generated` loop over the first `|gen|` pairs: only falsy keys go through the policy. */
  function FillKeys(mode: LegacyMode, col: Fields, gen: seq<(string, Value)>, site: Reconcile.Site, ask: Reconcile.Oracle): (r: (bool, Fields))
    decreases |gen|
  {
    if gen == [] then (false, col)
    else
      var (changed, filled) := FillKeys(mode, col, gen[..|gen| - 1], site, ask);
      var (key, value) := gen[|gen| - 1];
      if Truthy(Get(filled, key)) then (changed, filled)
      else
        var (c, f) := ProcessUpdate(mode, filled, key, value, site, ask);
        (changed || c, f)
  }

  /** Filling never replaces a truthy value, changes nothing in check mode, and reports every change. */
  lemma {:induction false} FillKeysKeeps(mode: LegacyMode, col: Fields, gen: seq<(string, Value)>, site: Reconcile.Site, ask: Reconcile.Oracle)
    ensures var r := FillKeys(mode, col, gen, site, ask);
      Keeps(col, r.1) && (mode == LegacyCheck ==> r.1 == col) && (!r.0 ==> r.1 == col)
    decreases |gen|
  {
    if gen != [] {
      var init := gen[..|gen| - 1];
      FillKeysKeeps(mode, col, init, site, ask);
      var (changed, filled) := FillKeys(mode, col, init, site, ask);
      var (key, value) := gen[|gen| - 1];
      if !Truthy(Get(filled, key)) {
        var f := ProcessUpdate(mode, filled, key, value, site, ask).1;
        assert Keeps(filled, f);
        KeepsTrans(col, filled, f);
      }
    }
  }

  /** One configured column: filled from the first catalog column of the same name, if any. */
  function UpdateColumn(mode: LegacyMode, model: string, col: Fields, ai: seq<CatalogColumn>, ask: Reconcile.Oracle): (r: (bool, Fields))
    ensures FindColumn(ai, Get(col, "name")).None? ==> r == (false, col)
  {
    match FindColumn(ai, Get(col, "name"))
    case None => (false, col)
    case Some(c) => FillKeys(mode, col, c.generated, Reconcile.ColumnSite(model, c.name), ask)
  }

  /** The column loop over the first `|cols|` configured columns. */
  function UpdateColumns(mode: LegacyMode, model: string, cols: seq<Fields>, ai: seq<CatalogColumn>, ask: Reconcile.Oracle): (r: (bool, seq<Fields>))
    ensures |r.1| == |cols|
    decreases |cols|
  {
    if cols == [] then (false, [])
    else
      var (changed, done) := UpdateColumns(mode, model, cols[..|cols| - 1], ai, ask);
      var (c, col) := UpdateColumn(mode, model, cols[|cols| - 1], ai, ask);
      (changed || c, done + [col])
  }

  /** No column loses a truthy value, none changes in check mode, and an unreported pass changes nothing. */
  lemma UpdateColumnsKeeps(mode: LegacyMode, model: string, cols: seq<Fields>, ai: seq<CatalogColumn>, ask: Reconcile.Oracle)
    ensures var r := UpdateColumns(mode, model, cols, ai, ask);
      (forall j :: 0 <= j < |cols| ==> Keeps(cols[j], r.1[j]))
      && (mode == LegacyCheck ==> r.1 == cols) && (!r.0 ==> r.1 == cols)
  {
    UpdateColumnsKeepValues(mode, model, cols, ai, ask);
    UpdateColumnsUnchanged(mode, model, cols, ai, ask);
  }

  lemma {:induction false} UpdateColumnsKeepValues(mode: LegacyMode, model: string, cols: seq<Fields>, ai: seq<CatalogColumn>, ask: Reconcile.Oracle)
    ensures var r := UpdateColumns(mode, model, cols, ai, ask);
      forall j :: 0 <= j < |cols| ==> Keeps(cols[j], r.1[j])
    decreases |cols|
  {
    if cols != [] {
      var init := cols[..|cols| - 1];
      var last := cols[|cols| - 1];
      UpdateColumnsKeepValues(mode, model, init, ai, ask);
      UpdateColumnKeeps(mode, model, last, ai, ask);
      var r := UpdateColumns(mode, model, cols, ai, ask);
      var ri := UpdateColumns(mode, model, init, ai, ask);
      assert r.1 == ri.1 + [UpdateColumn(mode, model, last, ai, ask).1];
      forall j | 0 <= j < |cols| ensures Keeps(cols[j], r.1[j]) {
        if j < |init| {
          assert cols[j] == init[j] && r.1[j] == ri.1[j];
        }
      }
    }
  }

  lemma {:induction false} UpdateColumnsUnchanged(mode: LegacyMode, model: string, cols: seq<Fields>, ai: seq<CatalogColumn>, ask: Reconcile.Oracle)
    ensures var r := UpdateColumns(mode, model, cols, ai, ask);
      (mode == LegacyCheck ==> r.1 == cols) && (!r.0 ==> r.1 == cols)
    decreases |cols|
  {
    if cols != [] {
      var init := cols[..|cols| - 1];
      var last := cols[|cols| - 1];
      UpdateColumnsUnchanged(mode, model, init, ai, ask);
      UpdateColumnKeeps(mode, model, last, ai, ask);
      assert cols == init + [last];
    }
  }

  /** One column loses no truthy value, does not change in check mode, and does not change unreported. */
  lemma UpdateColumnKeeps(mode: LegacyMode, model: string, col: Fields, ai: seq<CatalogColumn>, ask: Reconcile.Oracle)
    ensures var r := UpdateColumn(mode, model, col, ai, ask);
      Keeps(col, r.1) && (mode == LegacyCheck ==> r.1 == col) && (!r.0 ==> r.1 == col)
  {
    match FindColumn(ai, Get(col, "name")) {
      case None =>
      case Some(c) => FillKeysKeeps(mode, col, c.generated, Reconcile.ColumnSite(model, c.name), ask);
    }
  }

  /** One `models` entry named in the catalog: its description, then its columns. */
  function UpdateNode(mode: LegacyMode, model: string, node: Node, ai: CatalogModel, ask: Reconcile.Oracle): (r: (bool, Node))
  {
    var (c1, fields) :=
      if Truthy(ai.description) && !Truthy(Get(node.fields, "description")) then
        ProcessUpdate(mode, node.fields, "description", ai.description, Reconcile.ModelSite(model), ask)
      else (false, node.fields);
    var (c2, cols) := UpdateColumns(mode, model, node.columns, ai.columns, ask);
    (c1 || c2, Node(fields, cols))
  }

  lemma UpdateNodeKeeps(mode: LegacyMode, model: string, node: Node, ai: CatalogModel, ask: Reconcile.Oracle)
    ensures var r := UpdateNode(mode, model, node, ai, ask);
      NodeKeeps(node, r.1) && (mode == LegacyCheck ==> r.1 == node) && (!r.0 ==> r.1 == node)
  {
    UpdateColumnsKeeps(mode, model, node.columns, ai.columns, ask);
  }

  /** The catalog model an entry is checked against: the one its name is a key of, if any. */
  function CatalogEntry(node: Node, catalog: Catalog): Option<string>
  {
    match NameOf(node)
    case Str(n) => if n in catalog then Some(n) else None
    case _ => None
  }

  /** One entry of the `models` loop: updated when its name is a catalog key, else left alone. */
  function UpdateEntry(mode: LegacyMode, node: Node, catalog: Catalog, ask: Reconcile.Oracle): (r: (bool, Node))
    ensures CatalogEntry(node, catalog).None? ==> r == (false, node)
  {
    match CatalogEntry(node, catalog)
    case Some(n) => UpdateNode(mode, n, node, catalog[n], ask)
    case None => (false, node)
  }

  /** The `models` loop over the first `|nodes|` entries. */
  function UpdateEntries(mode: LegacyMode, nodes: seq<Node>, catalog: Catalog, ask: Reconcile.Oracle): (r: (bool, seq<Node>))
    ensures |r.1| == |nodes|
    decreases |nodes|
  {
    if nodes == [] then (false, [])
    else
      var (changed, done) := UpdateEntries(mode, nodes[..|nodes| - 1], catalog, ask);
      var (c, node) := UpdateEntry(mode, nodes[|nodes| - 1], catalog, ask);
      (changed || c, done + [node])
  }

  /**
   * Every entry is handled on its own: EVERY entry named in the catalog is
   * updated (not only the first), and the pass reports a change exactly
   * when one of them does.
   */
  lemma UpdateEntriesPointwise(mode: LegacyMode, nodes: seq<Node>, catalog: Catalog, ask: Reconcile.Oracle)
    ensures var r := UpdateEntries(mode, nodes, catalog, ask);
      (r.0 <==> exists i :: 0 <= i < |nodes| && UpdateEntry(mode, nodes[i], catalog, ask).0)
      && forall i :: 0 <= i < |nodes| ==> r.1[i] == UpdateEntry(mode, nodes[i], catalog, ask).1
  {
    UpdateEntriesFlag(mode, nodes, catalog, ask);
    UpdateEntriesAt(mode, nodes, catalog, ask);
  }

  lemma {:induction false} UpdateEntriesFlag(mode: LegacyMode, nodes: seq<Node>, catalog: Catalog, ask: Reconcile.Oracle)
    ensures UpdateEntries(mode, nodes, catalog, ask).0 <==> exists i :: 0 <= i < |nodes| && UpdateEntry(mode, nodes[i], catalog, ask).0
    decreases |nodes|
  {
    if nodes != [] {
      var init := nodes[..|nodes| - 1];
      UpdateEntriesFlag(mode, init, catalog, ask);
      var r := UpdateEntries(mode, nodes, catalog, ask);
      if r.0 && !UpdateEntry(mode, nodes[|nodes| - 1], catalog, ask).0 {
        var i :| 0 <= i < |init| && UpdateEntry(mode, init[i], catalog, ask).0;
        assert nodes[i] == init[i];
      }
      forall i | 0 <= i < |init| && UpdateEntry(mode, nodes[i], catalog, ask).0
        ensures UpdateEntries(mode, init, catalog, ask).0
      {
        assert nodes[i] == init[i];
      }
    }
  }

  lemma {:induction false} UpdateEntriesAt(mode: LegacyMode, nodes: seq<Node>, catalog: Catalog, ask: Reconcile.Oracle)
    ensures forall i :: 0 <= i < |nodes| ==> UpdateEntries(mode, nodes, catalog, ask).1[i] == UpdateEntry(mode, nodes[i], catalog, ask).1
    decreases |nodes|
  {
    if nodes != [] {
      var init := nodes[..|nodes| - 1];
      UpdateEntriesAt(mode, init, catalog, ask);
      var done := UpdateEntries(mode, init, catalog, ask).1;
      var node := UpdateEntry(mode, nodes[|nodes| - 1], catalog, ask).1;
      assert UpdateEntries(mode, nodes, catalog, ask).1 == done + [node];
      forall i | 0 <= i < |init|
        ensures UpdateEntries(mode, nodes, catalog, ask).1[i] == UpdateEntry(mode, nodes[i], catalog, ask).1
      {
        assert nodes[i] == init[i];
      }
    }
  }

  /**
   * The in-memory part of `_update_single_file`: only the `models` list is
   * examined; `sources`, `seeds`, `snapshots` and the other keys stay as they are.
   */
  function UpdateDoc(mode: LegacyMode, d: Doc, catalog: Catalog, ask: Reconcile.Oracle): (r: (bool, Doc))
    ensures r.1 == d.(models := r.1.models)
  {
    var (c, models) := UpdateEntries(mode, d.models, catalog, ask);
    (c, d.(models := models))
  }

  /** The pass keeps every truthy value, changes nothing in check mode, and reports every change it makes. */
  lemma UpdateDocKeeps(mode: LegacyMode, d: Doc, catalog: Catalog, ask: Reconcile.Oracle)
    ensures var r := UpdateDoc(mode, d, catalog, ask);
      DocKeeps(d, r.1) && |r.1.models| == |d.models|
      && (forall i :: 0 <= i < |d.models| && CatalogEntry(d.models[i], catalog).None? ==> r.1.models[i] == d.models[i])
      && (mode == LegacyCheck ==> r.1 == d) && (!r.0 ==> r.1 == d)
  {
    var r := UpdateDoc(mode, d, catalog, ask);
    UpdateEntriesPointwise(mode, d.models, catalog, ask);
    forall i | 0 <= i < |d.models|
      ensures NodeKeeps(d.models[i], r.1.models[i])
      ensures mode == LegacyCheck || !r.0 ==> r.1.models[i] == d.models[i]
    {
      match CatalogEntry(d.models[i], catalog) {
        case Some(n) => UpdateNodeKeeps(mode, n, d.models[i], catalog[n], ask);
        case None =>
      }
    }
    if mode == LegacyCheck || !r.0 {
      assert r.1.models == d.models;
    }
  }

  /**
   * The scenario of the writer's update test: a model with no description
   * and a column that only has tests gets both descriptions, and the tests
   * stay.
   */
  lemma UpdateFillsAndKeepsTests(model: string, column: string, tests: Value, modelText: string, columnText: string, ask: Reconcile.Oracle)
    requires Truthy(tests) && modelText != "" && columnText != ""
    ensures var col := map["name" := Str(column), "tests" := tests];
      var d := Doc(map["version" := Other("2", true)], [Node(map["name" := Str(model)], [col])], [], [], []);
      var ai := CatalogModel(Str(modelText), [CatalogColumn(column, [("description", Str(columnText))], Null)], Null);
      var r := UpdateDoc(LegacyUpdate, d, map[model := ai], ask);
      r.0 && r.1.models[0].fields["description"] == Str(modelText)
      && r.1.models[0].columns[0]["description"] == Str(columnText)
      && Get(r.1.models[0].columns[0], "tests") == tests
  {
    var col := map["name" := Str(column), "tests" := tests];
    var node := Node(map["name" := Str(model)], [col]);
    var d := Doc(map["version" := Other("2", true)], [node], [], [], []);
    var ai := CatalogModel(Str(modelText), [CatalogColumn(column, [("description", Str(columnText))], Null)], Null);
    var catalog := map[model := ai];
    assert CatalogEntry(node, catalog) == Some(model);
    assert FindColumn(ai.columns, Get(col, "name")) == Some(ai.columns[0]);
    var gen := [("description", Str(columnText))];
    assert gen[..0] == [];
    assert FillKeys(LegacyUpdate, col, gen, Reconcile.ColumnSite(model, column), ask)
      == (true, col["description" := Str(columnText)]);
    assert [col][..0] == [];
    assert [node][..0] == [];
  }

  // ---------------------------------------------------------------------
  // Files.

  /** The message `update_yaml_files` wraps any failure in. */
  function ProcessingError(path: string, message: string): SchemaIndex.WriterError
  {
    SchemaIndex.WriterError("Error processing " + path + ": " + message)
  }

  /** The AttributeError text for the attribute the tail reads. */
  const MissingCheckMode: string := "'DbtYamlWriter' object has no attribute 'check_mode'"

  /** `_update_single_file` AS WRITTEN: a non-empty document always ends in the AttributeError. */
  function FileOutcomeAsWritten(f: SchemaIndex.WalkedFile): Result<(bool, Option<Doc>), string>
  {
    match f.content
    case Malformed => Failure("Failed to parse YAML file: " + f.path)
    case Empty => Success((false, None))
    case Parsed(_) => Failure(MissingCheckMode)
  }

  /**
   * `_update_single_file` as evidently intended: the pass, then in check
   * mode only the report, otherwise the document written back when changed.
   */
  function FileOutcome(mode: LegacyMode, f: SchemaIndex.WalkedFile, catalog: Catalog, ask: Reconcile.Oracle): (r: Result<(bool, Option<Doc>), string>)
    ensures f.content.Malformed? <==> r.Failure?
    ensures r.Success? && r.value.1.Some? ==> mode != LegacyCheck && r.value.0
  {
    match f.content
    case Malformed => Failure("Failed to parse YAML file: " + f.path)
    case Empty => Success((false, None))
    case Parsed(d) =>
      var (updated, doc) := UpdateDoc(mode, d, catalog, ask);
      Success((updated, if mode != LegacyCheck && updated then Some(doc) else None))
  }

  /**
   * The file loop of `update_yaml_files` over the first `|fs|` files: the
   * answer so far or the first error, and the documents written so far.
   */
  function RunFiles(asWritten: bool, mode: LegacyMode, fs: seq<SchemaIndex.WalkedFile>, catalog: Catalog, ask: Reconcile.Oracle): (r: (Result<bool, SchemaIndex.WriterError>, map<string, Doc>))
    decreases |fs|
  {
    if fs == [] then (Success(false), map[])
    else
      var (sofar, writes) := RunFiles(asWritten, mode, fs[..|fs| - 1], catalog, ask);
      var f := fs[|fs| - 1];
      if sofar.Failure? then (sofar, writes)
      else match (if asWritten then FileOutcomeAsWritten(f) else FileOutcome(mode, f, catalog, ask))
        case Failure(msg) => (Failure(ProcessingError(f.path, msg)), writes)
        case Success((updated, out)) =>
          (Success(sofar.value || updated), if out.Some? then writes[f.path := out.value] else writes)
  }

  /** `update_yaml_files`: `False` when no schema file is found, else the file loop. */
  function UpdateYamlFiles(asWritten: bool, mode: LegacyMode, tree: seq<SchemaIndex.WalkedFile>, catalog: Catalog, ask: Reconcile.Oracle): (r: (Result<bool, SchemaIndex.WriterError>, map<string, Doc>))
    ensures SchemaIndex.SchemaFiles(tree) == [] ==> r == (Success(false), map[])
  {
    var fs := SchemaIndex.SchemaFiles(tree);
    if fs == [] then (Success(false), map[]) else RunFiles(asWritten, mode, fs, catalog, ask)
  }

  /**
   * As written, the loop fails on the first file that is not empty: a
   * malformed one with the parse error, a loaded one with the AttributeError.
   */
  lemma {:induction false} AsWrittenFailsOnFirstDocument(mode: LegacyMode, fs: seq<SchemaIndex.WalkedFile>, catalog: Catalog, ask: Reconcile.Oracle, j: nat)
    requires j < |fs| && !fs[j].content.Empty? && forall k :: 0 <= k < j ==> fs[k].content.Empty?
    ensures RunFiles(true, mode, fs, catalog, ask).0
      == Failure(ProcessingError(fs[j].path, if fs[j].content.Malformed? then "Failed to parse YAML file: " + fs[j].path else MissingCheckMode))
    ensures RunFiles(true, mode, fs, catalog, ask).1 == map[]
    decreases |fs|
  {
    var init := fs[..|fs| - 1];
    if j < |init| {
      forall k | 0 <= k < j ensures init[k].content.Empty? { assert init[k] == fs[k]; }
      assert init[j] == fs[j];
      AsWrittenFailsOnFirstDocument(mode, init, catalog, ask, j);
    } else {
      AllEmptyAsWritten(mode, init, catalog, ask);
    }
  }

  /** As written, a run over empty documents only answers `False` and writes nothing. */
  lemma {:induction false} AllEmptyAsWritten(mode: LegacyMode, fs: seq<SchemaIndex.WalkedFile>, catalog: Catalog, ask: Reconcile.Oracle)
    requires forall k :: 0 <= k < |fs| ==> fs[k].content.Empty?
    ensures RunFiles(true, mode, fs, catalog, ask) == (Success(false), map[])
    decreases |fs|
  {
    if fs != [] {
      var init := fs[..|fs| - 1];
      forall k | 0 <= k < |init| ensures init[k].content.Empty? { assert init[k] == fs[k]; }
      AllEmptyAsWritten(mode, init, catalog, ask);
    }
  }

  /**
   * The update test's project as written: its one schema file makes the
   * update raise instead of filling the descriptions, while the intended
   * reading answers `True` and writes the file back.
   */
  lemma UpdateTestAsWritten(f: SchemaIndex.WalkedFile, catalog: Catalog, ask: Reconcile.Oracle)
    requires f.content.Parsed?
    requires UpdateDoc(LegacyUpdate, f.content.doc, catalog, ask).0
    ensures RunFiles(true, LegacyUpdate, [f], catalog, ask).0 == Failure(ProcessingError(f.path, MissingCheckMode))
    ensures RunFiles(false, LegacyUpdate, [f], catalog, ask)
      == (Success(true), map[f.path := UpdateDoc(LegacyUpdate, f.content.doc, catalog, ask).1])
  {
    assert [f][..0] == [];
  }

  /**
   * As intended, the answer is whether some loaded file needed a change,
   * the written documents are exactly the changed files outside check
   * mode, and check mode writes nothing.
   */
  lemma RunFilesIntended(mode: LegacyMode, fs: seq<SchemaIndex.WalkedFile>, catalog: Catalog, ask: Reconcile.Oracle)
    requires forall k :: 0 <= k < |fs| ==> !fs[k].content.Malformed?
    ensures var r := RunFiles(false, mode, fs, catalog, ask);
      r.0.Success?
      && (r.0.value <==> exists k :: 0 <= k < |fs| && fs[k].content.Parsed? && UpdateDoc(mode, fs[k].content.doc, catalog, ask).0)
      && (mode == LegacyCheck ==> r.1 == map[])
      && (forall p :: p in r.1 ==> exists k :: 0 <= k < |fs| && fs[k].path == p && fs[k].content.Parsed? && UpdateDoc(mode, fs[k].content.doc, catalog, ask).0)
  {
    RunFilesAnswer(mode, fs, catalog, ask);
    RunFilesWrites(mode, fs, catalog, ask);
  }

  /** Without malformed files the loop succeeds, answering whether some file needed a change. */
  lemma {:induction false} RunFilesAnswer(mode: LegacyMode, fs: seq<SchemaIndex.WalkedFile>, catalog: Catalog, ask: Reconcile.Oracle)
    requires forall k :: 0 <= k < |fs| ==> !fs[k].content.Malformed?
    ensures var r := RunFiles(false, mode, fs, catalog, ask);
      r.0.Success?
      && (r.0.value <==> exists k :: 0 <= k < |fs| && fs[k].content.Parsed? && UpdateDoc(mode, fs[k].content.doc, catalog, ask).0)
    decreases |fs|
  {
    if fs != [] {
      var init := fs[..|fs| - 1];
      var last := fs[|fs| - 1];
      forall k | 0 <= k < |init| ensures !init[k].content.Malformed? { assert init[k] == fs[k]; }
      RunFilesAnswer(mode, init, catalog, ask);
      var r := RunFiles(false, mode, fs, catalog, ask);
      var r0 := RunFiles(false, mode, init, catalog, ask);
      if r.0.value && !r0.0.value {
        assert last.content.Parsed? && UpdateDoc(mode, last.content.doc, catalog, ask).0;
      }
      if r0.0.value {
        var k :| 0 <= k < |init| && init[k].content.Parsed? && UpdateDoc(mode, init[k].content.doc, catalog, ask).0;
        assert fs[k] == init[k];
      }
      forall k | 0 <= k < |fs| && fs[k].content.Parsed? && UpdateDoc(mode, fs[k].content.doc, catalog, ask).0
        ensures r.0.value
      {
        if k < |init| { assert init[k] == fs[k]; }
      }
    }
  }

  /** Only files that needed a change are written, and none in check mode. */
  lemma {:induction false} RunFilesWrites(mode: LegacyMode, fs: seq<SchemaIndex.WalkedFile>, catalog: Catalog, ask: Reconcile.Oracle)
    requires forall k :: 0 <= k < |fs| ==> !fs[k].content.Malformed?
    ensures var r := RunFiles(false, mode, fs, catalog, ask);
      (mode == LegacyCheck ==> r.1 == map[])
      && (forall p :: p in r.1 ==> exists k :: 0 <= k < |fs| && fs[k].path == p && fs[k].content.Parsed? && UpdateDoc(mode, fs[k].content.doc, catalog, ask).0)
    decreases |fs|
  {
    if fs != [] {
      var init := fs[..|fs| - 1];
      var last := fs[|fs| - 1];
      forall k | 0 <= k < |init| ensures !init[k].content.Malformed? { assert init[k] == fs[k]; }
      RunFilesAnswer(mode, init, catalog, ask);
      RunFilesWrites(mode, init, catalog, ask);
      var r := RunFiles(false, mode, fs, catalog, ask);
      var r0 := RunFiles(false, mode, init, catalog, ask);
      forall p | p in r.1
        ensures exists k :: 0 <= k < |fs| && fs[k].path == p && fs[k].content.Parsed? && UpdateDoc(mode, fs[k].content.doc, catalog, ask).0
      {
        if p in r0.1 && !(last.path == p && last.content.Parsed? && UpdateDoc(mode, last.content.doc, catalog, ask).0) {
          var k :| 0 <= k < |init| && init[k].path == p && init[k].content.Parsed? && UpdateDoc(mode, init[k].content.doc, catalog, ask).0;
          assert fs[k] == init[k];
        }
      }
    }
  }

  /** Under either reading a malformed file stops the loop with the parse error, wrapped. */
  lemma MalformedFileReported(asWritten: bool, mode: LegacyMode, f: SchemaIndex.WalkedFile, catalog: Catalog, ask: Reconcile.Oracle)
    requires f.content.Malformed?
    ensures RunFiles(asWritten, mode, [f], catalog, ask).0 == Failure(ProcessingError(f.path, "Failed to parse YAML file: " + f.path))
  {
    assert [f][..0] == [];
  }

  /**
   * Runs `RunFiles` stops at: once a prefix has failed, later files change
   * neither the error nor the written documents.
   */
  lemma {:induction false} FailureSticks(asWritten: bool, mode: LegacyMode, fs: seq<SchemaIndex.WalkedFile>, catalog: Catalog, ask: Reconcile.Oracle, i: nat)
    requires i <= |fs| && RunFiles(asWritten, mode, fs[..i], catalog, ask).0.Failure?
    ensures RunFiles(asWritten, mode, fs, catalog, ask) == RunFiles(asWritten, mode, fs[..i], catalog, ask)
    decreases |fs| - i
  {
    if i < |fs| {
      assert fs[..i + 1][..i] == fs[..i];
      FailureSticks(asWritten, mode, fs, catalog, ask, i + 1);
    } else {
      assert fs[..i] == fs;
    }
  }

  /** One step of the intended file loop, after a prefix that has not failed. */
  lemma RunFilesStep(mode: LegacyMode, fs: seq<SchemaIndex.WalkedFile>, catalog: Catalog, ask: Reconcile.Oracle, i: nat)
    requires i < |fs| && RunFiles(false, mode, fs[..i], catalog, ask).0.Success?
    ensures var prev := RunFiles(false, mode, fs[..i], catalog, ask);
      var o := FileOutcome(mode, fs[i], catalog, ask);
      RunFiles(false, mode, fs[..i + 1], catalog, ask)
        == if o.Failure? then (Failure(ProcessingError(fs[i].path, o.error)), prev.1)
           else (Success(prev.0.value || o.value.0), if o.value.1.Some? then prev.1[fs[i].path := o.value.1.value] else prev.1)
  {
    assert fs[..i + 1][..i] == fs[..i];
  }

  /** Writing one more document on top of earlier writes. */
  lemma OverrideUpdate(base: map<string, Doc>, writes: map<string, Doc>, p: string, d: Doc)
    ensures (base + writes)[p := d] == base + writes[p := d]
  {
  }

  /**
   * The writer as evidently intended. `written` stands for the files dumped
   * back to disk, by path.
   */
  class LegacyDbtYamlWriter {
    const mode: LegacyMode
    ghost var written: map<string, Doc>

    constructor(m: LegacyMode)
      ensures mode == m && written == map[]
    {
      mode := m;
      written := map[];
    }

    /** The `ai_generated` loop of one column. */
    method FillColumnKeys(col: Fields, gen: seq<(string, Value)>, site: Reconcile.Site, ask: Reconcile.Oracle) returns (changed: bool, filled: Fields)
      ensures (changed, filled) == FillKeys(mode, col, gen, site, ask)
    {
      changed, filled := false, col;
      var i := 0;
      while i < |gen|
        invariant 0 <= i <= |gen|
        invariant (changed, filled) == FillKeys(mode, col, gen[..i], site, ask)
      {
        assert gen[..i + 1][..i] == gen[..i];
        var (key, value) := gen[i];
        if !Truthy(Get(filled, key)) {
          var (c, f) := ProcessUpdate(mode, filled, key, value, site, ask);
          changed, filled := changed || c, f;
        }
        i := i + 1;
      }
      assert gen[..|gen|] == gen;
    }

    /** The column loop of one model entry. */
    method UpdateColumnsInMemory(model: string, cols: seq<Fields>, ai: seq<CatalogColumn>, ask: Reconcile.Oracle) returns (changed: bool, updated: seq<Fields>)
      ensures (changed, updated) == UpdateColumns(mode, model, cols, ai, ask)
    {
      changed, updated := false, [];
      var i := 0;
      while i < |cols|
        invariant 0 <= i <= |cols|
        invariant (changed, updated) == UpdateColumns(mode, model, cols[..i], ai, ask)
      {
        assert cols[..i + 1][..i] == cols[..i];
        var col := cols[i];
        match FindColumn(ai, Get(col, "name")) {
          case Some(c) =>
            var cc, filled := FillColumnKeys(col, c.generated, Reconcile.ColumnSite(model, c.name), ask);
            changed, col := changed || cc, filled;
          case None =>
        }
        updated := updated + [col];
        i := i + 1;
      }
      assert cols[..|cols|] == cols;
    }

    /** One `models` entry: skipped unless its name is a catalog key. */
    method UpdateEntryInMemory(node: Node, catalog: Catalog, ask: Reconcile.Oracle) returns (changed: bool, updated: Node)
      ensures (changed, updated) == UpdateEntry(mode, node, catalog, ask)
    {
      match CatalogEntry(node, catalog) {
        case None =>
          changed, updated := false, node;
        case Some(n) =>
          var ai := catalog[n];
          var fields := node.fields;
          changed := false;
          if Truthy(ai.description) && !Truthy(Get(fields, "description")) {
            var (c, f) := ProcessUpdate(mode, fields, "description", ai.description, Reconcile.ModelSite(n), ask);
            changed, fields := c, f;
          }
          var cc, cols := UpdateColumnsInMemory(n, node.columns, ai.columns, ask);
          changed, updated := changed || cc, Node(fields, cols);
      }
    }

    /** The `models` loop of one document. */
    method UpdateDocInMemory(d: Doc, catalog: Catalog, ask: Reconcile.Oracle) returns (changed: bool, updated: Doc)
      ensures (changed, updated) == UpdateDoc(mode, d, catalog, ask)
    {
      var models := [];
      changed := false;
      var i := 0;
      while i < |d.models|
        invariant 0 <= i <= |d.models|
        invariant (changed, models) == UpdateEntries(mode, d.models[..i], catalog, ask)
      {
        assert d.models[..i + 1][..i] == d.models[..i];
        var c, node := UpdateEntryInMemory(d.models[i], catalog, ask);
        changed, models := changed || c, models + [node];
        i := i + 1;
      }
      assert d.models[..|d.models|] == d.models;
      updated := d.(models := models);
    }

    /** `_update_single_file`, with the intended check-mode test. */
    method UpdateSingleFile(f: SchemaIndex.WalkedFile, catalog: Catalog, ask: Reconcile.Oracle) returns (r: Result<bool, string>)
      modifies this`written
      ensures var o := FileOutcome(mode, f, catalog, ask);
        (o.Failure? ==> r == Failure(o.error) && written == old(written))
        && (o.Success? ==>
              (r == Success(o.value.0)
               && written == if o.value.1.Some? then old(written)[f.path := o.value.1.value] else old(written)))
    {
      match f.content {
        case Malformed =>
          r := Failure("Failed to parse YAML file: " + f.path);
        case Empty =>
          r := Success(false);
        case Parsed(d) =>
          var updated, doc := UpdateDocInMemory(d, catalog, ask);
          if mode != LegacyCheck && updated {
            written := written[f.path := doc];
          }
          r := Success(updated);
      }
    }

    /**
     * `update_yaml_files`: the answer and the files written are those of the
     * intended reading, whose properties `RunFilesIntended` states.
     */
    method UpdateYamlFilesOnDisk(catalog: Catalog, tree: seq<SchemaIndex.WalkedFile>, ask: Reconcile.Oracle) returns (r: Result<bool, SchemaIndex.WriterError>)
      modifies this`written
      ensures var spec := UpdateYamlFiles(false, mode, tree, catalog, ask);
        r == spec.0 && written == old(written) + spec.1
    {
      var fs := SchemaIndex.SchemaFiles(tree);
      if fs == [] {
        assert old(written) + map[] == written;
        return Success(false);
      }
      r := ProcessFiles(fs, catalog, ask);
    }

    /** The file loop: each file in turn, stopping at the first error. */
    method ProcessFiles(fs: seq<SchemaIndex.WalkedFile>, catalog: Catalog, ask: Reconcile.Oracle) returns (r: Result<bool, SchemaIndex.WriterError>)
      modifies this`written
      ensures var spec := RunFiles(false, mode, fs, catalog, ask);
        r == spec.0 && written == old(written) + spec.1
    {
      var any := false;
      ghost var writes: map<string, Doc> := map[];
      var i := 0;
      while i < |fs|
        invariant 0 <= i <= |fs|
        invariant RunFiles(false, mode, fs[..i], catalog, ask) == (Success(any), writes)
        invariant written == old(written) + writes
      {
        var f := fs[i];
        RunFilesStep(mode, fs, catalog, ask, i);
        ghost var w := written;
        var o := UpdateSingleFile(f, catalog, ask);
        if o.Failure? {
          r := Failure(ProcessingError(f.path, o.error));
          FailureSticks(false, mode, fs, catalog, ask, i + 1);
          return;
        }
        any := any || o.value;
        ghost var out := FileOutcome(mode, f, catalog, ask).value.1;
        if out.Some? {
          OverrideUpdate(old(written), writes, f.path, out.value);
          writes := writes[f.path := out.value];
        }
        i := i + 1;
      }
      assert fs[..|fs|] == fs;
      r := Success(any);
    }
  }
}
