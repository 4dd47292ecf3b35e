/**
 * The per-mode reconciliation policy of schema_scribe's `DbtYamlWriter`, as
 * functions on values: what one missing key, one column, one model and one
 * stub turn into. The writer's methods are proved equal to these.
 */
module Reconcile {
  import opened Wrappers
  import opened Documents
  import Paths

  datatype Mode = Update | Check | Interactive | Drift

  function ModeName(m: Mode): string
  {
    match m
    case Update => "update"
    case Check => "check"
    case Interactive => "interactive"
    case Drift => "drift"
  }

  /** The constructor's check: the four mode names are accepted, anything else is a ValueError. */
  function ParseMode(s: string): (r: Option<Mode>)
    ensures r.Some? ==> ModeName(r.value) == s
    ensures r.None? ==> forall m: Mode :: ModeName(m) != s
  {
    if s == "update" then Some(Update)
    else if s == "check" then Some(Check)
    else if s == "interactive" then Some(Interactive)
    else if s == "drift" then Some(Drift)
    else None
  }

  lemma ParseModeName(m: Mode)
    ensures ParseMode(ModeName(m)) == Some(m)
  {
  }

  // ---------------------------------------------------------------------
  // The interactive prompt.

  /** What is being documented: a model, or one column of a model. */
  datatype Site = ModelSite(model: string) | ColumnSite(model: string, column: string)

  /** The user's answer: Enter (take the default, even an empty one) or some typed text. */
  datatype Response = Accept | Typed(text: string)

  /** The user, as an oracle: the answer to the suggestion for `key` on `site`. */
  type Oracle = (Site, string, string) -> Response

  /** `reply.lower() == "s"` */
  predicate IsSkip(reply: string)
  {
    reply == "s" || reply == "S"
  }

  /** `_prompt_user_for_change`: `None` to skip, or the text to store. */
  function Prompt(site: Site, key: string, suggestion: string, ask: Oracle): (r: Option<string>)
    ensures ask(site, key, suggestion) == Accept ==> r == if IsSkip(suggestion) then None else Some(suggestion)
    ensures ask(site, key, suggestion).Typed? ==> r.None? == IsSkip(ask(site, key, suggestion).text)
    ensures r.Some? ==> !IsSkip(r.value)
    ensures r.Some? && ask(site, key, suggestion).Typed? ==> r.value == ask(site, key, suggestion).text
  {
    var reply := match ask(site, key, suggestion)
      case Accept => suggestion
      case Typed(t) => t;
    if IsSkip(reply) then None else Some(reply)
  }

  // ---------------------------------------------------------------------
  // One missing key.

  /**
   * `_process_update`: check mode reports without touching the node; update
   * and drift store the AI value; interactive stores what the user answers,
   * or reports nothing when the user skips.
   */
  function ProcessUpdate(mode: Mode, fields: Fields, key: string, value: Value, site: Site, ask: Oracle): (r: (bool, Fields))
    ensures mode == Check ==> r == (true, fields)
    ensures mode == Update || mode == Drift ==> r == (true, fields[key := value])
    ensures mode == Interactive ==>
      var answer := Prompt(site, key, Display(value), ask);
      r == if answer.Some? then (true, fields[key := Str(answer.value)]) else (false, fields)
    ensures r.1 == fields || (key in r.1 && r.1 == fields[key := r.1[key]])
    ensures !r.0 ==> r.1 == fields
  {
    match mode
    case Check => (true, fields)
    case Interactive =>
      (match Prompt(site, key, Display(value), ask)
       case Some(answer) => (true, fields[key := Str(answer)])
       case None => (false, fields))
    case _ => (true, fields[key := value])
  }

  // ---------------------------------------------------------------------
  // Filling one column: each `ai_generated` key whose configured value is falsy.

  /** The keys a list of generated pairs names. */
  function KeysOf(gen: seq<(string, Value)>): set<string>
  {
    set p | p in gen :: p.0
  }

  lemma KeysOfSnoc(gen: seq<(string, Value)>)
    requires gen != []
    ensures KeysOf(gen) == KeysOf(gen[..|gen| - 1]) + {gen[|gen| - 1].0}
  {
    assert gen == gen[..|gen| - 1] + [gen[|gen| - 1]];
  }

  /** The `ai_generated` loop over the first `|gen|` pairs, in order. */
  function FillKeys(mode: Mode, col: Fields, gen: seq<(string, Value)>, site: Site, ask: Oracle): (r: (bool, Fields))
    decreases |gen|
  {
    if gen == [] then (false, col)
    else
      var (changed, filled) := FillKeys(mode, col, gen[..|gen| - 1], site, ask);
      var (key, value) := gen[|gen| - 1];
      if Truthy(Get(filled, key)) then (changed, filled)
      else
        var (c, f) := ProcessUpdate(mode, filled, key, value, site, ask);
        (changed || c, f)
  }

  /** One more generated pair: skipped when the key is truthy, else through the policy. */
  lemma FillKeysStep(mode: Mode, col: Fields, gen: seq<(string, Value)>, site: Site, ask: Oracle, k: nat)
    requires k < |gen|
    ensures var (changed, filled) := FillKeys(mode, col, gen[..k], site, ask);
      FillKeys(mode, col, gen[..k + 1], site, ask)
        == if Truthy(Get(filled, gen[k].0)) then (changed, filled)
           else (changed || ProcessUpdate(mode, filled, gen[k].0, gen[k].1, site, ask).0,
                 ProcessUpdate(mode, filled, gen[k].0, gen[k].1, site, ask).1)
  {
    assert gen[..k + 1][..k] == gen[..k];
  }

  /**
   * Filling never replaces a truthy value, only touches the generated keys,
   * leaves the mapping alone in check mode, and reports every change it makes.
   */
  lemma {:induction false} FillKeysKeeps(mode: Mode, col: Fields, gen: seq<(string, Value)>, site: Site, ask: Oracle)
    ensures var r := FillKeys(mode, col, gen, site, ask);
      Keeps(col, r.1)
      && (forall k :: k !in KeysOf(gen) ==> Get(r.1, k) == Get(col, k))
      && (mode == Check ==> r.1 == col)
      && (!r.0 ==> r.1 == col)
    decreases |gen|
  {
    if gen != [] {
      var init := gen[..|gen| - 1];
      FillKeysKeeps(mode, col, init, site, ask);
      var (changed, filled) := FillKeys(mode, col, init, site, ask);
      var (key, value) := gen[|gen| - 1];
      KeysOfSnoc(gen);
      if !Truthy(Get(filled, key)) {
        var (c, f) := ProcessUpdate(mode, filled, key, value, site, ask);
        assert Keeps(filled, f);
        KeepsTrans(col, filled, f);
      }
    }
  }

  /**
   * In update mode with truthy AI values a second fill changes nothing and
   * reports nothing.
   */
  lemma {:induction false} FillKeysIdempotent(col: Fields, gen: seq<(string, Value)>, site: Site, ask: Oracle)
    requires forall p :: p in gen ==> Truthy(p.1)
    ensures var once := FillKeys(Update, col, gen, site, ask).1;
      FillKeys(Update, once, gen, site, ask) == (false, once)
  {
    var once := FillKeys(Update, col, gen, site, ask).1;
    forall p | p in gen ensures Truthy(Get(once, p.0)) {
      FillKeysFillsAll(col, gen, site, ask, p.0);
    }
    FillKeysOnFilled(once, gen, site, ask);
  }

  /** In update mode every generated key ends up truthy when its AI value is. */
  lemma {:induction false} FillKeysFillsAll(col: Fields, gen: seq<(string, Value)>, site: Site, ask: Oracle, key: string)
    requires forall p :: p in gen ==> Truthy(p.1)
    requires exists p :: p in gen && p.0 == key
    ensures Truthy(Get(FillKeys(Update, col, gen, site, ask).1, key))
    decreases |gen|
  {
    var init := gen[..|gen| - 1];
    var filled := FillKeys(Update, col, init, site, ask).1;
    var last := gen[|gen| - 1];
    if last.0 != key {
      var p :| p in gen && p.0 == key;
      assert p in init by { assert gen == init + [last]; }
      FillKeysFillsAll(col, init, site, ask, key);
    }
    if !Truthy(Get(filled, last.0)) {
      assert last in gen;
    }
    FillKeysKeeps(Update, col, init, site, ask);
  }

  /** A mapping whose generated keys are all truthy is left as it is, unreported. */
  lemma {:induction false} FillKeysOnFilled(col: Fields, gen: seq<(string, Value)>, site: Site, ask: Oracle)
    requires forall p :: p in gen ==> Truthy(Get(col, p.0))
    ensures FillKeys(Update, col, gen, site, ask) == (false, col)
    decreases |gen|
  {
    if gen != [] {
      var init := gen[..|gen| - 1];
      forall p | p in init ensures Truthy(Get(col, p.0)) {
        assert p in gen by { assert gen == init + [gen[|gen| - 1]]; }
      }
      FillKeysOnFilled(col, init, site, ask);
      assert gen[|gen| - 1] in gen;
    }
  }

  /**
   * One configured column: nothing when no catalog column has its name; in
   * drift mode a documented column whose catalog entry says DRIFT is reported
   * and left alone; otherwise its missing keys are filled.
   */
  function UpdateColumn(mode: Mode, model: string, col: Fields, ai: seq<CatalogColumn>, ask: Oracle): (r: (bool, Fields))
    ensures FindColumn(ai, Get(col, "name")).None? ==> r == (false, col)
    ensures (mode == Drift && Truthy(Get(col, "description")) && FindColumn(ai, Get(col, "name")).Some?
             && FindColumn(ai, Get(col, "name")).value.driftStatus == Str("DRIFT")) ==> r == (true, col)
  {
    match FindColumn(ai, Get(col, "name"))
    case None => (false, col)
    case Some(c) =>
      if mode == Drift && Truthy(Get(col, "description")) && c.driftStatus == Str("DRIFT") then (true, col)
      else FillKeys(mode, col, c.generated, ColumnSite(model, c.name), ask)
  }

  lemma UpdateColumnKeeps(mode: Mode, model: string, col: Fields, ai: seq<CatalogColumn>, ask: Oracle)
    ensures var r := UpdateColumn(mode, model, col, ai, ask);
      Keeps(col, r.1) && (mode == Check ==> r.1 == col) && (!r.0 ==> r.1 == col)
  {
    match FindColumn(ai, Get(col, "name"))
    case None =>
    case Some(c) =>
      FillKeysKeeps(mode, col, c.generated, ColumnSite(model, c.name), ask);
  }

  /** The column loop over the first `|cols|` configured columns: each updated in place, the list kept. */
  function UpdateColumns(mode: Mode, model: string, cols: seq<Fields>, ai: seq<CatalogColumn>, ask: Oracle): (r: (bool, seq<Fields>))
    ensures |r.1| == |cols|
    decreases |cols|
  {
    if cols == [] then (false, [])
    else
      var (changed, done) := UpdateColumns(mode, model, cols[..|cols| - 1], ai, ask);
      var (c, col) := UpdateColumn(mode, model, cols[|cols| - 1], ai, ask);
      (changed || c, done + [col])
  }

  /** One more column: its flag joins the OR and its update is appended. */
  lemma UpdateColumnsStep(mode: Mode, model: string, cols: seq<Fields>, ai: seq<CatalogColumn>, ask: Oracle, j: nat)
    requires j < |cols|
    ensures var before := UpdateColumns(mode, model, cols[..j], ai, ask);
      var one := UpdateColumn(mode, model, cols[j], ai, ask);
      UpdateColumns(mode, model, cols[..j + 1], ai, ask) == (before.0 || one.0, before.1 + [one.1])
  {
    assert cols[..j + 1][..j] == cols[..j];
  }

  /**
   * The change flag is the OR over the columns, each column becomes its own
   * update, and no column loses a truthy value.
   */
  lemma {:induction false} UpdateColumnsPointwise(mode: Mode, model: string, cols: seq<Fields>, ai: seq<CatalogColumn>, ask: Oracle)
    ensures var r := UpdateColumns(mode, model, cols, ai, ask);
      (r.0 <==> exists j :: 0 <= j < |cols| && UpdateColumn(mode, model, cols[j], ai, ask).0)
      && (forall j :: 0 <= j < |cols| ==> r.1[j] == UpdateColumn(mode, model, cols[j], ai, ask).1)
    decreases |cols|
  {
    UpdateColumnsFlag(mode, model, cols, ai, ask);
    UpdateColumnsAt(mode, model, cols, ai, ask);
  }

  lemma {:induction false} UpdateColumnsFlag(mode: Mode, model: string, cols: seq<Fields>, ai: seq<CatalogColumn>, ask: Oracle)
    ensures UpdateColumns(mode, model, cols, ai, ask).0 <==> exists j :: 0 <= j < |cols| && UpdateColumn(mode, model, cols[j], ai, ask).0
    decreases |cols|
  {
    if cols != [] {
      var init := cols[..|cols| - 1];
      UpdateColumnsFlag(mode, model, init, ai, ask);
      var r := UpdateColumns(mode, model, cols, ai, ask);
      var last := UpdateColumn(mode, model, cols[|cols| - 1], ai, ask);
      if r.0 && !last.0 {
        var j :| 0 <= j < |init| && UpdateColumn(mode, model, init[j], ai, ask).0;
        assert cols[j] == init[j];
      }
      forall j | 0 <= j < |init| && UpdateColumn(mode, model, cols[j], ai, ask).0
        ensures UpdateColumns(mode, model, init, ai, ask).0
      {
        assert cols[j] == init[j];
      }
    }
  }

  lemma {:induction false} UpdateColumnsAt(mode: Mode, model: string, cols: seq<Fields>, ai: seq<CatalogColumn>, ask: Oracle)
    ensures forall j :: 0 <= j < |cols| ==> UpdateColumns(mode, model, cols, ai, ask).1[j] == UpdateColumn(mode, model, cols[j], ai, ask).1
    decreases |cols|
  {
    if cols != [] {
      var init := cols[..|cols| - 1];
      UpdateColumnsAt(mode, model, init, ai, ask);
      var done := UpdateColumns(mode, model, init, ai, ask).1;
      var col := UpdateColumn(mode, model, cols[|cols| - 1], ai, ask).1;
      assert UpdateColumns(mode, model, cols, ai, ask).1 == done + [col];
      forall j | 0 <= j < |init|
        ensures UpdateColumns(mode, model, cols, ai, ask).1[j] == UpdateColumn(mode, model, cols[j], ai, ask).1
      {
        assert cols[j] == init[j];
      }
    }
  }

  // ---------------------------------------------------------------------
  // One documented model.

  /** The model-level description step: filled only when missing and the AI has a truthy one. */
  function UpdateDescription(mode: Mode, model: string, fields: Fields, ai: CatalogModel, ask: Oracle): (r: (bool, Fields))
    ensures Truthy(Get(fields, "description")) || !Truthy(ai.description) ==> r == (false, fields)
  {
    if !Truthy(Get(fields, "description")) && Truthy(ai.description) then
      ProcessUpdate(mode, fields, "description", ai.description, ModelSite(model), ask)
    else (false, fields)
  }

  /** `_update_existing_model_in_memory` on the node found for `model`. */
  function UpdateNode(mode: Mode, model: string, node: Node, ai: CatalogModel, ask: Oracle): (r: (bool, Node))
  {
    var (c1, fields) := UpdateDescription(mode, model, node.fields, ai, ask);
    var (c2, cols) := UpdateColumns(mode, model, node.columns, ai.columns, ask);
    (c1 || c2, Node(fields, cols))
  }

  /**
   * Updating a node keeps its name and every truthy value, changes nothing in
   * check mode, and reports every change it makes.
   */
  lemma UpdateNodeKeeps(mode: Mode, model: string, node: Node, ai: CatalogModel, ask: Oracle)
    ensures var r := UpdateNode(mode, model, node, ai, ask);
      NodeKeeps(node, r.1) && NameOf(r.1) == NameOf(node)
      && (mode == Check ==> r.1 == node) && (!r.0 ==> r.1 == node)
  {
    UpdateColumnsKeep(mode, model, node.columns, ai.columns, ask);
  }

  /** No column loses a truthy value; in check mode, or when nothing is reported, the columns are unchanged. */
  lemma UpdateColumnsKeep(mode: Mode, model: string, cols: seq<Fields>, ai: seq<CatalogColumn>, ask: Oracle)
    ensures var r := UpdateColumns(mode, model, cols, ai, ask);
      (forall j :: 0 <= j < |cols| ==> Keeps(cols[j], r.1[j]))
      && (mode == Check || !r.0 ==> r.1 == cols)
  {
    var (c, done) := UpdateColumns(mode, model, cols, ai, ask);
    UpdateColumnsPointwise(mode, model, cols, ai, ask);
    forall j | 0 <= j < |cols| ensures Keeps(cols[j], done[j]) {
      UpdateColumnKeeps(mode, model, cols[j], ai, ask);
    }
    if mode == Check || !c {
      forall j | 0 <= j < |cols| ensures done[j] == cols[j] {
        UpdateColumnKeeps(mode, model, cols[j], ai, ask);
      }
      assert done == cols;
    }
  }

  /**
   * The whole update of one catalog model against the loaded files: nothing
   * when the file is not loaded or has no `models` entry of that name,
   * otherwise the first such entry is updated in place.
   */
  function UpdateInFiles(mode: Mode, files: map<string, Doc>, path: string, model: string, ai: CatalogModel, ask: Oracle): (r: (bool, map<string, Doc>))
    ensures path !in files || FindNode(files[path].models, Str(model)).None? ==> r == (false, files)
  {
    if path !in files then (false, files)
    else
      var doc := files[path];
      match FindNode(doc.models, Str(model))
      case None => (false, files)
      case Some(i) =>
        var (c, node) := UpdateNode(mode, model, doc.models[i], ai, ask);
        (c, files[path := doc.(models := doc.models[i := node])])
  }

  /** The files after one model update keep every truthy value, and in check mode are unchanged. */
  lemma UpdateInFilesKeeps(mode: Mode, files: map<string, Doc>, path: string, model: string, ai: CatalogModel, ask: Oracle)
    ensures var r := UpdateInFiles(mode, files, path, model, ai, ask);
      FilesKeep(files, r.1) && r.1.Keys == files.Keys
      && (mode == Check ==> r.1 == files) && (!r.0 ==> r.1 == files)
  {
    if path in files {
      var doc := files[path];
      match FindNode(doc.models, Str(model))
      case None =>
      case Some(i) =>
        UpdateNodeKeeps(mode, model, doc.models[i], ai, ask);
        var (c, node) := UpdateNode(mode, model, doc.models[i], ai, ask);
        DocKeepsReplace(doc, i, node);
        FilesKeepReplace(files, path, doc.(models := doc.models[i := node]));
        if mode == Check || !c {
          assert doc.models[i := doc.models[i]] == doc.models;
        }
    }
  }

  /**
   * Updating one model disturbs no other: every other name is still found at
   * the same place of every file, on the same entry.
   */
  lemma UpdateInFilesFrame(mode: Mode, files: map<string, Doc>, path: string, model: string, ai: CatalogModel, ask: Oracle, q: string, other: string)
    requires other != model && q in files
    ensures var f := UpdateInFiles(mode, files, path, model, ai, ask).1;
      q in f && FindNode(f[q].models, Str(other)) == FindNode(files[q].models, Str(other))
      && (FindNode(files[q].models, Str(other)).Some? ==>
            f[q].models[FindNode(files[q].models, Str(other)).value] == files[q].models[FindNode(files[q].models, Str(other)).value])
  {
    if path in files && path == q {
      var doc := files[path];
      match FindNode(doc.models, Str(model))
      case None =>
      case Some(i) =>
        var node := UpdateNode(mode, model, doc.models[i], ai, ask).1;
        UpdateNodeKeeps(mode, model, doc.models[i], ai, ask);
        var m := doc.models[i := node];
        assert SameNames(doc.models, m);
        FindNodeByNames(doc.models, m, Str(other));
    }
  }

  /** The model updated is still found at the same place, and its entry there is the update of the one found. */
  lemma UpdateInFilesSelf(mode: Mode, files: map<string, Doc>, path: string, model: string, ai: CatalogModel, ask: Oracle)
    requires path in files && FindNode(files[path].models, Str(model)).Some?
    ensures var f := UpdateInFiles(mode, files, path, model, ai, ask).1;
      var i := FindNode(files[path].models, Str(model)).value;
      path in f && FindNode(f[path].models, Str(model)) == Some(i)
      && f[path].models[i] == UpdateNode(mode, model, files[path].models[i], ai, ask).1
  {
    var doc := files[path];
    var i := FindNode(doc.models, Str(model)).value;
    var node := UpdateNode(mode, model, doc.models[i], ai, ask).1;
    UpdateNodeKeeps(mode, model, doc.models[i], ai, ask);
    var m := doc.models[i := node];
    assert SameNames(doc.models, m);
    FindNodeByNames(doc.models, m, Str(model));
  }

  // ---------------------------------------------------------------------
  // A stub for an undocumented model.

  /** The stub's key loop over the first `|gen|` pairs: every pair goes through the policy, whatever is there. */
  function FillStub(mode: Mode, col: Fields, gen: seq<(string, Value)>, site: Site, ask: Oracle): (r: Fields)
    decreases |gen|
  {
    if gen == [] then col
    else
      var filled := FillStub(mode, col, gen[..|gen| - 1], site, ask);
      var (key, value) := gen[|gen| - 1];
      ProcessUpdate(mode, filled, key, value, site, ask).1
  }

  /** One more generated pair of a stub column, through the policy. */
  lemma FillStubStep(mode: Mode, col: Fields, gen: seq<(string, Value)>, site: Site, ask: Oracle, k: nat)
    requires k < |gen|
    ensures FillStub(mode, col, gen[..k + 1], site, ask)
      == ProcessUpdate(mode, FillStub(mode, col, gen[..k], site, ask), gen[k].0, gen[k].1, site, ask).1
  {
    assert gen[..k + 1][..k] == gen[..k];
  }

  /** A stub column keeps every key it started with, and every key no pair names is untouched. */
  lemma {:induction false} FillStubKeys(mode: Mode, col: Fields, gen: seq<(string, Value)>, site: Site, ask: Oracle)
    ensures var r := FillStub(mode, col, gen, site, ask);
      col.Keys <= r.Keys && forall k :: k !in KeysOf(gen) ==> Get(r, k) == Get(col, k)
    decreases |gen|
  {
    if gen != [] {
      var init := gen[..|gen| - 1];
      FillStubKeys(mode, col, init, site, ask);
      assert KeysOf(gen) == KeysOf(init) + {gen[|gen| - 1].0} by {
        assert gen == init + [gen[|gen| - 1]];
      }
    }
  }

  /** In update and drift mode a generated key ends up with the value of its last pair. */
  lemma {:induction false} FillStubLastWins(mode: Mode, col: Fields, gen: seq<(string, Value)>, site: Site, ask: Oracle, i: nat)
    requires mode == Update || mode == Drift
    requires i < |gen| && forall j :: i < j < |gen| ==> gen[j].0 != gen[i].0
    ensures Get(FillStub(mode, col, gen, site, ask), gen[i].0) == gen[i].1
    decreases |gen|
  {
    var init := gen[..|gen| - 1];
    if i < |init| {
      assert init[i] == gen[i];
      forall j | i < j < |init| ensures init[j].0 != init[i].0 {
        assert init[j] == gen[j];
      }
      FillStubLastWins(mode, col, init, site, ask, i);
    }
  }

  /** One stub column: the catalog column's name, then each generated key as the policy decides. */
  function StubColumn(mode: Mode, model: string, c: CatalogColumn, ask: Oracle): Fields
  {
    FillStub(mode, map["name" := Str(c.name)], c.generated, ColumnSite(model, c.name), ask)
  }

  /** Unless a generated key is itself `name`, the stub column is named after the catalog column. */
  lemma StubColumnNamed(mode: Mode, model: string, c: CatalogColumn, ask: Oracle)
    requires "name" !in KeysOf(c.generated)
    ensures Get(StubColumn(mode, model, c, ask), "name") == Str(c.name)
  {
    FillStubKeys(mode, map["name" := Str(c.name)], c.generated, ColumnSite(model, c.name), ask);
  }

  /**
   * The stub `_create_new_model_stub_in_memory` builds: the name, the
   * description as the policy decides (even a `None` one), and one column
   * per catalog column, in catalog order.
   */
  function BuildStub(mode: Mode, model: string, ai: CatalogModel, ask: Oracle): (r: Node)
    ensures NameOf(r) == Str(model)
    ensures |r.columns| == |ai.columns|
    ensures mode == Update || mode == Drift ==> "description" in r.fields && r.fields["description"] == ai.description
  {
    var fields := ProcessUpdate(mode, map["name" := Str(model)], "description", ai.description, ModelSite(model), ask).1;
    Node(fields, StubColumns(mode, model, ai.columns, ask))
  }

  /** The stub's column loop over the first `|cols|` catalog columns. */
  function StubColumns(mode: Mode, model: string, cols: seq<CatalogColumn>, ask: Oracle): (r: seq<Fields>)
    ensures |r| == |cols|
    decreases |cols|
  {
    if cols == [] then []
    else StubColumns(mode, model, cols[..|cols| - 1], ask) + [StubColumn(mode, model, cols[|cols| - 1], ask)]
  }

  /** One more catalog column of the stub. */
  lemma StubColumnsStep(mode: Mode, model: string, cols: seq<CatalogColumn>, ask: Oracle, j: nat)
    requires j < |cols|
    ensures StubColumns(mode, model, cols[..j + 1], ask) == StubColumns(mode, model, cols[..j], ask) + [StubColumn(mode, model, cols[j], ask)]
  {
    assert cols[..j + 1][..j] == cols[..j];
  }

  lemma {:induction false} StubColumnsAt(mode: Mode, model: string, cols: seq<CatalogColumn>, ask: Oracle, j: nat)
    requires j < |cols|
    ensures StubColumns(mode, model, cols, ask)[j] == StubColumn(mode, model, cols[j], ask)
    decreases |cols|
  {
    if j < |cols| - 1 {
      StubColumnsAt(mode, model, cols[..|cols| - 1], ask, j);
    }
  }

  /** The `original_file_path` when it is a non-empty string: the only case a stub is placed. */
  function StubPath(ai: CatalogModel): Option<string>
  {
    match ai.originalFilePath
    case Str(p) => if p != "" then Some(p) else None
    case _ => None
  }

  /** The file a new stub is added to, `schema.yml` beside the model's SQL file. */
  function StubFile(ai: CatalogModel): Option<string>
  {
    match StubPath(ai)
    case Some(p) => Some(Paths.StubTarget(p))
    case None => None
  }

  /** What creating a stub reports: always in check mode, otherwise exactly when it can be placed. */
  function CreateSignal(mode: Mode, ai: CatalogModel): bool
  {
    mode == Check || StubFile(ai).Some?
  }

  /** The file that holds the stub: appended to its `models` when loaded, else a new `version: 2` file. */
  function AddStub(files: map<string, Doc>, target: string, stub: Node): (r: map<string, Doc>)
    ensures r.Keys == files.Keys + {target}
    ensures FilesKeep(files, r)
    ensures forall p :: p in files && p != target ==> r[p] == files[p]
    ensures target in files ==> r[target].models == files[target].models + [stub]
    ensures target !in files ==> r[target] == Doc(map["version" := Other("2", true)], [stub], [], [], [])
  {
    if target in files then
      var d := files[target];
      var r := files[target := d.(models := d.models + [stub])];
      assert DocKeeps(d, r[target]);
      r
    else files[target := Doc(map["version" := Other("2", true)], [stub], [], [], [])]
  }
}
