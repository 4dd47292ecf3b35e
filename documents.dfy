/**
 * The in-memory shape of a dbt schema file and of the AI catalog, as the
 * schema writers see them.
 *
 * A field value is abstracted to what the writers look at: whether Python
 * treats it as true, and the text `str()` gives for it.
 */
module Documents {
  import opened Wrappers

  /** A YAML scalar or collection: `None`, a string, or anything else (a number, a list, a map). */
  datatype Value = Null | Str(s: string) | Other(display: string, truthy: bool)

  /** Python truthiness: `None`, `""`, `0` and empty collections are false. */
  predicate Truthy(v: Value)
  {
    match v
    case Null => false
    case Str(s) => s != ""
    case Other(_, t) => t
  }

  /** `str(v)`. */
  function Display(v: Value): string
  {
    match v
    case Null => "None"
    case Str(s) => s
    case Other(d, _) => d
  }

  type Fields = map<string, Value>

  /** `fields.get(key)`: an absent key reads as `None`. */
  function Get(fields: Fields, key: string): (v: Value)
    ensures key !in fields ==> v == Null
    ensures key in fields ==> v == fields[key]
  {
    if key in fields then fields[key] else Null
  }

  /** `fields.get(key, default)`: only an absent key reads as the default; a present `None` stays `None`. */
  function GetOr(fields: Fields, key: string, default: Value): (v: Value)
    ensures key !in fields ==> v == default
    ensures key in fields ==> v == fields[key]
  {
    if key in fields then fields[key] else default
  }

  /**
   * One entry of a `models:`/`sources:`/`seeds:`/`snapshots:` list: its keys
   * other than `columns`, and its `columns:` list of column mappings.
   */
  datatype Node = Node(fields: Fields, columns: seq<Fields>)

  function NameOf(n: Node): Value
  {
    Get(n.fields, "name")
  }

  /**
   * A loaded, non-empty schema file: its other top-level keys (such as
   * `version`) and the four node lists. An absent list reads as empty.
   */
  datatype Doc = Doc(header: Fields, models: seq<Node>, sources: seq<Node>, seeds: seq<Node>, snapshots: seq<Node>)

  /** The lists the index scans, in the order it scans them. */
  function Sections(d: Doc): seq<seq<Node>>
  {
    [d.models, d.sources, d.seeds, d.snapshots]
  }

  /** The first entry of `nodes` whose `name` equals `name`, as `next(...)` finds it. */
  function FindNode(nodes: seq<Node>, name: Value): (r: Option<nat>)
    ensures r.Some? ==> r.value < |nodes| && NameOf(nodes[r.value]) == name
    ensures r.Some? ==> forall i :: 0 <= i < r.value ==> NameOf(nodes[i]) != name
    ensures r.None? ==> forall i :: 0 <= i < |nodes| ==> NameOf(nodes[i]) != name
  {
    if nodes == [] then None
    else if NameOf(nodes[0]) == name then Some(0)
    else match FindNode(nodes[1..], name)
      case Some(i) => Some(i + 1)
      case None => None
  }

  /** Entries in the same places with the same names. */
  predicate SameNames(a: seq<Node>, b: seq<Node>)
  {
    |a| == |b| && forall i :: 0 <= i < |a| ==> NameOf(a[i]) == NameOf(b[i])
  }

  /** The search only looks at names: lists with the same names answer alike. */
  lemma {:induction false} FindNodeByNames(a: seq<Node>, b: seq<Node>, name: Value)
    requires SameNames(a, b)
    ensures FindNode(a, name) == FindNode(b, name)
  {
    if a != [] {
      assert NameOf(a[0]) == NameOf(b[0]);
      assert SameNames(a[1..], b[1..]) by {
        forall i | 0 <= i < |a| - 1 ensures NameOf(a[1..][i]) == NameOf(b[1..][i]) {
          assert a[1..][i] == a[i + 1] && b[1..][i] == b[i + 1];
        }
      }
      FindNodeByNames(a[1..], b[1..], name);
    }
  }

  /** Appending entries keeps the first entry of every name already present. */
  lemma FindNodeExtend(a: seq<Node>, b: seq<Node>, name: Value)
    requires a <= b && FindNode(a, name).Some?
    ensures FindNode(b, name) == FindNode(a, name)
  {
    var i := FindNode(a, name).value;
    assert b[i] == a[i];
  }

  // ---------------------------------------------------------------------
  // The AI catalog, keyed by model name.

  /** One catalog column: its name, its `ai_generated` pairs in dict order, and its `drift_status`. */
  datatype CatalogColumn = CatalogColumn(name: string, generated: seq<(string, Value)>, driftStatus: Value)

  /** One catalog model: `model_description`, `columns` and `original_file_path`. */
  datatype CatalogModel = CatalogModel(description: Value, columns: seq<CatalogColumn>, originalFilePath: Value)

  type Catalog = map<string, CatalogModel>

  /** The first catalog column whose name equals the configured column name. */
  function FindColumn(cols: seq<CatalogColumn>, name: Value): (r: Option<CatalogColumn>)
    ensures r.Some? ==> r.value in cols && name == Str(r.value.name)
    ensures r.Some? ==> exists i :: 0 <= i < |cols| && cols[i] == r.value && forall j :: 0 <= j < i ==> name != Str(cols[j].name)
    ensures r.None? ==> forall c :: c in cols ==> name != Str(c.name)
  {
    if cols == [] then None
    else if name == Str(cols[0].name) then Some(cols[0])
    else
      var rest := FindColumn(cols[1..], name);
      if rest.Some? then
        var i :| 0 <= i < |cols[1..]| && cols[1..][i] == rest.value && forall j :: 0 <= j < i ==> name != Str(cols[1..][j].name);
        assert cols[i + 1] == rest.value && forall j :: 0 <= j < i + 1 ==> name != Str(cols[j].name);
        rest
      else rest
  }

  // ---------------------------------------------------------------------
  // Non-destructive change: a truthy value is never replaced.

  /** Every truthy field of `a` is still there, unchanged, in `b`. */
  predicate Keeps(a: Fields, b: Fields)
  {
    forall k :: k in a && Truthy(a[k]) ==> k in b && b[k] == a[k]
  }

  predicate NodeKeeps(a: Node, b: Node)
  {
    Keeps(a.fields, b.fields) && |a.columns| == |b.columns|
    && forall j :: 0 <= j < |a.columns| ==> Keeps(a.columns[j], b.columns[j])
  }

  /**
   * `b` is `a` with entries possibly appended to `models` and missing or
   * falsy values possibly filled in; nothing else differs.
   */
  predicate DocKeeps(a: Doc, b: Doc)
  {
    a.header == b.header && a.sources == b.sources && a.seeds == b.seeds && a.snapshots == b.snapshots
    && |a.models| <= |b.models|
    && forall i :: 0 <= i < |a.models| ==> NodeKeeps(a.models[i], b.models[i])
  }

  predicate FilesKeep(a: map<string, Doc>, b: map<string, Doc>)
  {
    forall p :: p in a ==> p in b && DocKeeps(a[p], b[p])
  }

  lemma KeepsTrans(a: Fields, b: Fields, c: Fields)
    requires Keeps(a, b) && Keeps(b, c)
    ensures Keeps(a, c)
  {
    forall k | k in a && Truthy(a[k]) ensures k in c && c[k] == a[k] {
      assert k in b && b[k] == a[k];
    }
  }

  lemma NodeKeepsTrans(a: Node, b: Node, c: Node)
    requires NodeKeeps(a, b) && NodeKeeps(b, c)
    ensures NodeKeeps(a, c)
  {
    KeepsTrans(a.fields, b.fields, c.fields);
    forall j | 0 <= j < |a.columns| ensures Keeps(a.columns[j], c.columns[j]) {
      KeepsTrans(a.columns[j], b.columns[j], c.columns[j]);
    }
  }

  lemma DocKeepsTrans(a: Doc, b: Doc, c: Doc)
    requires DocKeeps(a, b) && DocKeeps(b, c)
    ensures DocKeeps(a, c)
  {
    forall i | 0 <= i < |a.models| ensures NodeKeeps(a.models[i], c.models[i]) {
      NodeKeepsTrans(a.models[i], b.models[i], c.models[i]);
    }
  }

  lemma FilesKeepTrans(a: map<string, Doc>, b: map<string, Doc>, c: map<string, Doc>)
    requires FilesKeep(a, b) && FilesKeep(b, c)
    ensures FilesKeep(a, c)
  {
    forall p | p in a ensures p in c && DocKeeps(a[p], c[p]) {
      DocKeepsTrans(a[p], b[p], c[p]);
    }
  }

  /** Replacing one model entry by one that keeps it keeps the document. */
  lemma DocKeepsReplace(d: Doc, i: nat, node: Node)
    requires i < |d.models| && NodeKeeps(d.models[i], node)
    ensures DocKeeps(d, d.(models := d.models[i := node]))
  {
  }

  /** Replacing one file by one that keeps it keeps the set of files. */
  lemma FilesKeepReplace(files: map<string, Doc>, path: string, d: Doc)
    requires path in files && DocKeeps(files[path], d)
    ensures FilesKeep(files, files[path := d]) && files[path := d].Keys == files.Keys
  {
  }

  lemma DocKeepsRefl(a: Doc)
    ensures DocKeeps(a, a)
  {
  }
}
