/**
 * How schema_scribe's `DbtYamlWriter` finds schema files and builds its
 * index from model name to file: `_find_schema_files` and
 * `_load_and_map_existing_yamls`, as functions on values.
 *
 * The project tree is an input: the files `os.walk` reports under each
 * top-level directory, in walk order, each with what the YAML loader makes
 * of it.
 */
module SchemaIndex {
  import opened Wrappers
  import opened Documents
  import Text

  /** What loading a file gives: a parse error, an empty document, or a document. */
  datatype Content = Malformed | Empty | Parsed(doc: Doc)

  /** A file under `<project>/<top>/`, at `path`, with base name `name`. */
  datatype WalkedFile = WalkedFile(top: string, path: string, name: string, content: Content)

  datatype WriterError = WriterError(message: string)

  /** A `.yml`/`.yaml` file whose name does not contain `dbt_project`. */
  predicate IsSchemaName(name: string)
  {
    (Text.EndsWith(name, ".yml") || Text.EndsWith(name, ".yaml")) && !Text.HasSubstring(name, "dbt_project")
  }

  /** The schema files of one walk, in walk order. */
  function FilesUnder(tree: seq<WalkedFile>, top: string): (r: seq<WalkedFile>)
    ensures forall f :: f in r <==> f in tree && f.top == top && IsSchemaName(f.name)
    decreases |tree|
  {
    if tree == [] then []
    else
      var last := tree[|tree| - 1];
      var init := FilesUnder(tree[..|tree| - 1], top);
      assert tree == tree[..|tree| - 1] + [last];
      if last.top == top && IsSchemaName(last.name) then init + [last] else init
  }

  /** One more walked file: kept when it is a schema file under `top`. */
  lemma FilesUnderStep(tree: seq<WalkedFile>, top: string, k: nat)
    requires k < |tree|
    ensures FilesUnder(tree[..k + 1], top)
      == FilesUnder(tree[..k], top) + if tree[k].top == top && IsSchemaName(tree[k].name) then [tree[k]] else []
  {
    assert tree[..k + 1][..k] == tree[..k];
  }

  /** `_find_schema_files`: the walks of `models`, `seeds` and `snapshots`, one after the other. */
  function SchemaFiles(tree: seq<WalkedFile>): (r: seq<WalkedFile>)
    ensures forall f :: f in r <==> f in tree && f.top in {"models", "seeds", "snapshots"} && IsSchemaName(f.name)
  {
    FilesUnder(tree, "models") + FilesUnder(tree, "seeds") + FilesUnder(tree, "snapshots")
  }

  /** Every file found under `models` comes before every file found under `seeds` or `snapshots`. */
  lemma ModelsScannedFirst(tree: seq<WalkedFile>, i: nat, j: nat)
    requires i < j < |SchemaFiles(tree)|
    requires SchemaFiles(tree)[j].top == "models"
    ensures SchemaFiles(tree)[i].top == "models"
  {
    var m := FilesUnder(tree, "models");
    var rest := FilesUnder(tree, "seeds") + FilesUnder(tree, "snapshots");
    assert SchemaFiles(tree) == m + rest;
    assert j < |m|;
    assert SchemaFiles(tree)[i] in m;
  }

  // ---------------------------------------------------------------------
  // Loading and indexing.

  /** The writer's loaded files and its index from name to the file that documents it. */
  datatype State = State(files: map<string, Doc>, index: map<Value, string>)

  /** The truthy names of a list of entries. */
  function NamesIn(nodes: seq<Node>): set<Value>
  {
    set n | n in nodes && Truthy(NameOf(n)) :: NameOf(n)
  }

  /** The index after mapping every truthy-named entry of `nodes` to `path`. */
  function IndexNodes(index: map<Value, string>, nodes: seq<Node>, path: string): (r: map<Value, string>)
    ensures r.Keys == index.Keys + NamesIn(nodes)
    ensures forall v :: v in r ==> r[v] == if v in NamesIn(nodes) then path else index[v]
    decreases |nodes|
  {
    if nodes == [] then index
    else
      var init := nodes[..|nodes| - 1];
      var last := nodes[|nodes| - 1];
      assert nodes == init + [last];
      assert NamesIn(nodes) == NamesIn(init) + (if Truthy(NameOf(last)) then {NameOf(last)} else {});
      var r := IndexNodes(index, init, path);
      if Truthy(NameOf(last)) then r[NameOf(last) := path] else r
  }

  /** One more entry: its name, when truthy, now maps to `path`. */
  lemma IndexNodesStep(index: map<Value, string>, nodes: seq<Node>, j: nat, path: string)
    requires j < |nodes|
    ensures var r := IndexNodes(index, nodes[..j], path);
      IndexNodes(index, nodes[..j + 1], path) == if Truthy(NameOf(nodes[j])) then r[NameOf(nodes[j]) := path] else r
  {
    assert nodes[..j + 1][..j] == nodes[..j];
  }

  /** The truthy names of the first `|secs|` lists. */
  function SectionNames(secs: seq<seq<Node>>): set<Value>
    decreases |secs|
  {
    if secs == [] then {} else SectionNames(secs[..|secs| - 1]) + NamesIn(secs[|secs| - 1])
  }

  /** The names a loaded document contributes to the index: from all four lists. */
  function DocNames(d: Doc): set<Value>
  {
    SectionNames(Sections(d))
  }

  /** The index scan over the first `|secs|` of a document's lists. */
  function IndexSections(index: map<Value, string>, secs: seq<seq<Node>>, path: string): (r: map<Value, string>)
    decreases |secs|
  {
    if secs == [] then index
    else IndexNodes(IndexSections(index, secs[..|secs| - 1], path), secs[|secs| - 1], path)
  }

  /** One more list of entries, indexed after the earlier ones. */
  lemma IndexSectionsStep(index: map<Value, string>, secs: seq<seq<Node>>, s: nat, path: string)
    requires s < |secs|
    ensures IndexSections(index, secs[..s + 1], path) == IndexNodes(IndexSections(index, secs[..s], path), secs[s], path)
  {
    assert secs[..s + 1][..s] == secs[..s];
  }

  /** Indexing lists maps each of their names to the path and leaves the other entries alone. */
  lemma {:induction false} IndexSectionsMaps(index: map<Value, string>, secs: seq<seq<Node>>, path: string)
    ensures var r := IndexSections(index, secs, path);
      r.Keys == index.Keys + SectionNames(secs)
      && forall v :: v in r ==> r[v] == if v in SectionNames(secs) then path else index[v]
    decreases |secs|
  {
    if secs != [] {
      IndexSectionsMaps(index, secs[..|secs| - 1], path);
    }
  }

  /** One file of the scan: a parse error stops everything, an empty one is skipped. */
  function LoadFile(s: State, f: WalkedFile): Result<State, WriterError>
  {
    match f.content
    case Malformed => Failure(WriterError("Failed to parse YAML file: " + f.path))
    case Empty => Success(s)
    case Parsed(d) => Success(State(s.files[f.path := d], IndexSections(s.index, Sections(d), f.path)))
  }

  /**
   * The scan over the first `|fs|` files: the state reached, and the error
   * that stopped it, if any. Files loaded before a parse error stay loaded.
   */
  function Load(s: State, fs: seq<WalkedFile>): (State, Option<WriterError>)
    decreases |fs|
  {
    if fs == [] then (s, None)
    else
      var (reached, err) := Load(s, fs[..|fs| - 1]);
      if err.Some? then (reached, err)
      else match LoadFile(reached, fs[|fs| - 1])
        case Success(next) => (next, None)
        case Failure(e) => (reached, Some(e))
  }

  /** One more file of a clean scan: it is loaded, or its parse error stops the scan. */
  lemma LoadPrefixStep(s: State, fs: seq<WalkedFile>, k: nat)
    requires k < |fs| && Load(s, fs[..k]).1.None?
    ensures var reached := Load(s, fs[..k]).0;
      Load(s, fs[..k + 1]) == match LoadFile(reached, fs[k])
        case Success(next) => (next, None)
        case Failure(e) => (reached, Some(e))
  {
    assert fs[..k + 1][..k] == fs[..k];
  }

  /** Once a file fails to parse, the files after it are never read. */
  lemma {:induction false} LoadStopsAtError(s: State, fs: seq<WalkedFile>, k: nat)
    requires k <= |fs| && Load(s, fs[..k]).1.Some?
    ensures Load(s, fs) == Load(s, fs[..k])
    decreases |fs|
  {
    if k < |fs| {
      assert fs[..|fs| - 1][..k] == fs[..k];
      LoadStopsAtError(s, fs[..|fs| - 1], k);
    } else {
      assert fs[..k] == fs;
    }
  }

  predicate Names(f: WalkedFile, v: Value)
  {
    f.content.Parsed? && v in DocNames(f.content.doc)
  }

  /** The scan fails exactly when some file is malformed, and then names the first such file. */
  lemma {:induction false} LoadFailsOnFirstMalformed(s: State, fs: seq<WalkedFile>)
    ensures var err := Load(s, fs).1;
      (err.Some? <==> exists j :: 0 <= j < |fs| && fs[j].content.Malformed?)
      && (err.Some? ==>
            exists j :: (0 <= j < |fs| && fs[j].content.Malformed?
              && (forall k :: 0 <= k < j ==> !fs[k].content.Malformed?)
              && err.value == WriterError("Failed to parse YAML file: " + fs[j].path)))
    decreases |fs|
  {
    if fs != [] {
      var init := fs[..|fs| - 1];
      LoadFailsOnFirstMalformed(s, init);
      var err := Load(s, init).1;
      if err.Some? {
        var j :| 0 <= j < |init| && init[j].content.Malformed?
          && (forall k :: 0 <= k < j ==> !init[k].content.Malformed?)
          && err.value == WriterError("Failed to parse YAML file: " + init[j].path);
        assert fs[j] == init[j];
        forall k | 0 <= k < j ensures !fs[k].content.Malformed? {
          assert fs[k] == init[k];
        }
      } else {
        forall j | 0 <= j < |fs| - 1 ensures !fs[j].content.Malformed? {
          assert fs[j] == init[j];
        }
      }
    }
  }

  /**
   * One more file of a clean scan: the scan before it was clean, and the
   * index gains exactly the names the file has, each pointing at it.
   */
  lemma LoadStepIndex(s: State, fs: seq<WalkedFile>)
    requires fs != [] && Load(s, fs).1.None?
    ensures Load(s, fs[..|fs| - 1]).1.None?
    ensures var mid := Load(s, fs[..|fs| - 1]).0.index;
      var idx := Load(s, fs).0.index;
      var last := fs[|fs| - 1];
      (forall v :: v in idx <==> v in mid || Names(last, v))
      && (forall v :: v in idx && Names(last, v) ==> idx[v] == last.path)
      && (forall v :: v in idx && !Names(last, v) ==> idx[v] == mid[v])
  {
    var last := fs[|fs| - 1];
    var mid := Load(s, fs[..|fs| - 1]).0;
    if last.content.Parsed? {
      assert Load(s, fs).0.index == IndexSections(mid.index, Sections(last.content.doc), last.path);
      IndexSectionsMaps(mid.index, Sections(last.content.doc), last.path);
    } else {
      assert Load(s, fs).0 == mid;
    }
  }

  /**
   * After a clean scan a name is indexed exactly when it was before or some
   * scanned file names it.
   */
  lemma {:induction false} LoadIndexKeys(s: State, fs: seq<WalkedFile>)
    requires Load(s, fs).1.None?
    ensures forall v :: v in Load(s, fs).0.index <==> v in s.index || exists j :: 0 <= j < |fs| && Names(fs[j], v)
    decreases |fs|
  {
    if fs != [] {
      var init := fs[..|fs| - 1];
      LoadStepIndex(s, fs);
      LoadIndexKeys(s, init);
      var mid := Load(s, init).0.index;
      var idx := Load(s, fs).0.index;
      forall v | v in idx ensures v in s.index || exists j :: 0 <= j < |fs| && Names(fs[j], v) {
        if v !in mid {
          assert Names(fs[|fs| - 1], v);
        } else if v !in s.index {
          var j :| 0 <= j < |init| && Names(init[j], v);
          assert fs[j] == init[j];
        }
      }
      forall v | v in s.index || exists j :: 0 <= j < |fs| && Names(fs[j], v) ensures v in idx {
        if v !in s.index {
          var j :| 0 <= j < |fs| && Names(fs[j], v);
          if j < |init| { assert init[j] == fs[j]; }
        }
      }
    }
  }

  /** After a clean scan a name points at the LAST scanned file that names it. */
  lemma {:induction false} LastFileWins(s: State, fs: seq<WalkedFile>, v: Value, j: nat)
    requires Load(s, fs).1.None?
    requires j < |fs| && Names(fs[j], v) && forall k :: j < k < |fs| ==> !Names(fs[k], v)
    ensures v in Load(s, fs).0.index && Load(s, fs).0.index[v] == fs[j].path
    decreases |fs|
  {
    var init := fs[..|fs| - 1];
    LoadStepIndex(s, fs);
    if j < |init| {
      assert init[j] == fs[j];
      forall k | j < k < |init| ensures !Names(init[k], v) { assert init[k] == fs[k]; }
      LastFileWins(s, init, v, j);
    }
  }

  /** A name no scanned file mentions keeps the file it was indexed to before. */
  lemma {:induction false} UnnamedKeepsIndex(s: State, fs: seq<WalkedFile>, v: Value)
    requires Load(s, fs).1.None? && v in s.index
    requires forall j :: 0 <= j < |fs| ==> !Names(fs[j], v)
    ensures v in Load(s, fs).0.index && Load(s, fs).0.index[v] == s.index[v]
    decreases |fs|
  {
    if fs != [] {
      var init := fs[..|fs| - 1];
      LoadStepIndex(s, fs);
      forall j | 0 <= j < |init| ensures !Names(init[j], v) { assert init[j] == fs[j]; }
      UnnamedKeepsIndex(s, init, v);
      assert !Names(fs[|fs| - 1], v);
    }
  }

  /** Loading only adds files and never changes one it did not read. */
  lemma {:induction false} LoadKeepsOtherFiles(s: State, fs: seq<WalkedFile>)
    ensures var files := Load(s, fs).0.files;
      s.files.Keys <= files.Keys
      && forall p :: p in s.files && (forall j :: 0 <= j < |fs| ==> fs[j].path != p) ==> files[p] == s.files[p]
    decreases |fs|
  {
    if fs != [] {
      LoadKeepsOtherFiles(s, fs[..|fs| - 1]);
      var init := fs[..|fs| - 1];
      forall p, j | p in s.files && (forall j :: 0 <= j < |fs| ==> fs[j].path != p) && 0 <= j < |init|
        ensures init[j].path != p
      {
        assert init[j] == fs[j];
      }
    }
  }
}
