# schema_scribe / data_scribe core, in Dafny

This project models the parts of schema_scribe (and of its predecessor,
data_scribe) that decide what happens to a dbt project's documentation, and
proves what they promise.

- **The dbt schema-file reconciliation engine** (`DbtYamlWriter` of
  schema_scribe). It finds the project's schema files and loads them. It
  indexes every documented model by name. It then splits the AI catalog into
  documented and undocumented models. For documented models it fills only the
  values that are missing, with a per-mode policy:
  - `update` writes the fill;
  - `check` only reports it;
  - `interactive` asks the user;
  - `drift` reports columns whose live data contradicts their documentation.

  Undocumented models get a stub in `schema.yml` beside their SQL file.
  The dirty files are flushed only in `update` and `interactive` mode.
  Modules: `Documents`, `Paths`, `Reconcile`, `SchemaIndex`, `SchemaWriter`.
- **data_scribe's earlier per-file updater** (`LegacyWriter`). It has the
  same fill policy without `drift`, and an interactive mode that treats an
  empty answer as a skip. Its file loop stops at the first error.
- **The three lineage generators**, which merge foreign keys between database
  tables with dbt `ref`/`source` dependencies into one Mermaid graph:
  - the services copy (`Lineage`): upward-only styling, deduplicated edge
    records, a processed-once flag, and a Mermaid and a JSON rendering;
  - the older core copy (`CoreLineage`): the same styling, with edges kept as
    a set of rendered lines;
  - the legacy copy (`LegacyLineage`): first style wins, and repeated edges
    are kept.
- **The two manifest parsers** (`Manifest`, `LegacyManifest`). They turn a
  loaded `manifest.json` node map into the list of dbt models the rest of the
  tool works on.
- **Environment-variable expansion** (`EnvVars`), the one-pass `${NAME}`
  substitution applied to configuration text.

Where the source mutates state, the model does too:
- the writers and generators are classes whose fields the methods update;
- their loops carry invariants;
- each method is proved equal to a function on values, and the properties are
  lemmas about those functions.

The environment is outside the model and enters as parameters:
- the project's directory tree, each file with what the YAML loader makes of
  it;
- the user's answers at the prompt (an oracle function);
- the process environment (a map).

Two behaviours of the code worth knowing:
- Flushing the dirty files raises WriterError on the first I/O error, and the
  remaining dirty files are not written (`SchemaWriter.DbtYamlWriter.WriteModifiedFilesToDisk`
  models only the successful flush).
- A second update run changes nothing only when every AI value is truthy. A
  falsy AI value is stored, is still "missing" on the next run, and is
  reported again (`Reconcile.FillKeysIdempotent` carries that precondition).

## Model

| member | source | states |
|---|---|---|
| Documents.Get | schema_scribe/components/writers/dbt_yaml_writer.py:192 | `fields.get(key)`: an absent key reads as `None`, a present one as its value |
| Documents.GetOr | schema_scribe/core/dbt_parser.py:123-124 | `fields.get(key, default)`: only an absent key gives the default; a present `None` stays `None` |
| Documents.FindNode | schema_scribe/components/writers/dbt_yaml_writer.py:182-185 | the index found is the FIRST entry with that name, and no entry has the name when nothing is found |
| Documents.FindNodeByNames | schema_scribe/components/writers/dbt_yaml_writer.py:182-185 | the search looks only at names: two lists with the same names in the same places give the same answer |
| Documents.FindNodeExtend | schema_scribe/components/writers/dbt_yaml_writer.py:182-185 | appending entries to a list keeps the first entry of every name it already had |
| Documents.FindColumn | schema_scribe/components/writers/dbt_yaml_writer.py:206-213 | the catalog column found has the configured name and is the FIRST such column, as `next(...)` takes it; no column has the name when nothing is found |
| Paths.AfterLastSlash | schema_scribe/components/writers/dbt_yaml_writer.py:290 | the split point of `dirname`: just after a `/`, or 0, with no `/` after it |
| Paths.StripTrailingSlashes | schema_scribe/components/writers/dbt_yaml_writer.py:290 | the result is a prefix of the input not ending in `/`, and only slashes were removed |
| Paths.Join | schema_scribe/components/writers/dbt_yaml_writer.py:290 | `join(a, b)` is `b` for an empty `a`, adds no second `/` after a trailing one, and puts one `/` between otherwise |
| Paths.StubBesideSql | schema_scribe/components/writers/dbt_yaml_writer.py:290 | the stub of a model whose SQL file is `dir/file` goes to `dir/schema.yml` |
| Paths.StubOfBareName | schema_scribe/components/writers/dbt_yaml_writer.py:290 | a SQL path without a directory puts the stub at `schema.yml` |
| Reconcile.ParseMode | schema_scribe/components/writers/dbt_yaml_writer.py:52-54 | only the names `update`, `check`, `interactive` and `drift` give a mode, and the mode has that name; any other string is the ValueError |
| Reconcile.ParseModeName | schema_scribe/components/writers/dbt_yaml_writer.py:52-54 | every mode's name is accepted and gives that mode back |
| Reconcile.Prompt | schema_scribe/components/writers/dbt_yaml_writer.py:340-366 | Enter takes the suggestion; a reply that lowercases to `s` is a skip; any other reply is returned verbatim; a returned value is never a skip |
| Reconcile.ProcessUpdate | schema_scribe/components/writers/dbt_yaml_writer.py:310-338 | check reports and leaves the node alone; update and drift store the AI value; interactive stores the answer or reports nothing on a skip; only `key` can change, and nothing changes when nothing is reported |
| Reconcile.FillKeysKeeps | schema_scribe/components/writers/dbt_yaml_writer.py:230-238 | filling one column never replaces a truthy value and never touches a key the AI did not generate; check mode leaves the column as it is; an unreported pass changes nothing |
| Reconcile.FillKeysIdempotent | schema_scribe/components/writers/dbt_yaml_writer.py:230-238 | with truthy AI values, a second update pass over a filled column reports nothing and changes nothing |
| Reconcile.FillKeysFillsAll | schema_scribe/components/writers/dbt_yaml_writer.py:230-238 | after an update pass every generated key with a truthy AI value is truthy in the column |
| Reconcile.FillKeysOnFilled | schema_scribe/components/writers/dbt_yaml_writer.py:230-231 | a column whose generated keys are already truthy is left as it is, unreported |
| Reconcile.UpdateColumn | schema_scribe/components/writers/dbt_yaml_writer.py:204-238 | a column the catalog does not know is untouched and unreported; in drift mode a documented column whose catalog entry says DRIFT is reported and left unfilled |
| Reconcile.UpdateColumnKeeps | schema_scribe/components/writers/dbt_yaml_writer.py:204-238 | one column's update keeps every truthy value, changes nothing in check mode, and reports every change |
| Reconcile.UpdateColumnsPointwise | schema_scribe/components/writers/dbt_yaml_writer.py:204-238 | the column loop reports a change exactly when some column does, and each column becomes its own update |
| Reconcile.UpdateColumnsKeep | schema_scribe/components/writers/dbt_yaml_writer.py:204-238 | no configured column loses a truthy value; in check mode, or when nothing is reported, the columns are unchanged |
| Reconcile.UpdateDescription | schema_scribe/components/writers/dbt_yaml_writer.py:191-201 | the model description is considered only when it is falsy and the AI one is truthy; otherwise nothing is reported or changed |
| Reconcile.UpdateNodeKeeps | schema_scribe/components/writers/dbt_yaml_writer.py:191-238 | updating a model entry keeps its name and every truthy value, changes nothing in check mode, and reports every change |
| Reconcile.UpdateInFiles | schema_scribe/components/writers/dbt_yaml_writer.py:177-188 | an unloaded file, or one whose `models` list lacks the name, gives `False` and no change |
| Reconcile.UpdateInFilesKeeps | schema_scribe/components/writers/dbt_yaml_writer.py:170-242 | a model update keeps the set of files and every truthy value in them, and changes nothing in check mode or when it reports nothing |
| Reconcile.UpdateInFilesFrame | schema_scribe/components/writers/dbt_yaml_writer.py:182-187 | updating one model disturbs no other: every other name is found at the same place of every file, on the same entry |
| Reconcile.UpdateInFilesSelf | schema_scribe/components/writers/dbt_yaml_writer.py:182-238 | the model updated is still found at the same place of its file, and its entry there is the update of the entry found |
| Reconcile.FillStubKeys | schema_scribe/components/writers/dbt_yaml_writer.py:273-279 | a stub column keeps the keys it started with, and a key no generated pair names is untouched |
| Reconcile.FillStubLastWins | schema_scribe/components/writers/dbt_yaml_writer.py:273-279 | in update and drift mode a generated key of a stub column holds the value of its last pair |
| Reconcile.StubColumnNamed | schema_scribe/components/writers/dbt_yaml_writer.py:271-272 | unless a generated key is itself `name`, the stub column is named after the catalog column |
| Reconcile.BuildStub | schema_scribe/components/writers/dbt_yaml_writer.py:258-281 | the stub is named after the model and has one column per catalog column; in update and drift mode its description is the AI one, even `None` |
| Reconcile.StubColumnsAt | schema_scribe/components/writers/dbt_yaml_writer.py:269-281 | the stub's `j`-th column is built from the catalog's `j`-th column |
| Reconcile.AddStub | schema_scribe/components/writers/dbt_yaml_writer.py:292-305 | the stub is appended to a loaded target's `models`, or the target becomes `{version: 2, models: [stub]}`; no other file changes and no truthy value is lost |
| SchemaIndex.FilesUnder | schema_scribe/components/writers/dbt_yaml_writer.py:126-136 | a walked file is kept exactly when it is under that directory and is a `.yml`/`.yaml` file without `dbt_project` in its name |
| SchemaIndex.SchemaFiles | schema_scribe/components/writers/dbt_yaml_writer.py:116-138 | the schema files are exactly the walked schema-named files under `models`, `seeds` and `snapshots` |
| SchemaIndex.ModelsScannedFirst | schema_scribe/components/writers/dbt_yaml_writer.py:120-124 | every file found under `models` comes before every file found under `seeds` or `snapshots` |
| SchemaIndex.IndexNodes | schema_scribe/components/writers/dbt_yaml_writer.py:158-164 | indexing a list adds exactly its truthy names, each pointing at the file, and leaves every other entry alone |
| SchemaIndex.IndexSectionsMaps | schema_scribe/components/writers/dbt_yaml_writer.py:152-164 | indexing a document's four lists maps each of their names to the file and leaves the other entries alone |
| SchemaIndex.LoadStopsAtError | schema_scribe/components/writers/dbt_yaml_writer.py:165-168 | once a file fails to parse, the files after it are never read |
| SchemaIndex.LoadFailsOnFirstMalformed | schema_scribe/components/writers/dbt_yaml_writer.py:145-168 | loading fails exactly when some file is malformed, with "Failed to parse YAML file: " and the first such file's path |
| SchemaIndex.LoadStepIndex | schema_scribe/components/writers/dbt_yaml_writer.py:149-164 | after a clean load the last file's names point at it, and every other name keeps its earlier file |
| SchemaIndex.LoadIndexKeys | schema_scribe/components/writers/dbt_yaml_writer.py:149-164 | after a clean load a name is indexed exactly when it was before or some loaded file names it (empty files name nothing) |
| SchemaIndex.LastFileWins | schema_scribe/components/writers/dbt_yaml_writer.py:162-164 | a name documented in several files points at the last one scanned |
| SchemaIndex.UnnamedKeepsIndex | schema_scribe/components/writers/dbt_yaml_writer.py:158-164 | a name no scanned file mentions keeps the file it was indexed to before |
| SchemaIndex.LoadKeepsOtherFiles | schema_scribe/components/writers/dbt_yaml_writer.py:149-151 | loading only adds files and never changes one it did not read |
| SchemaWriter.SplitCatalog | schema_scribe/components/writers/dbt_yaml_writer.py:81-85 | the models to update and the models to create are disjoint and together make up the catalog |
| SchemaWriter.SignalFrame | schema_scribe/components/writers/dbt_yaml_writer.py:182-242 | what a model's update reports depends only on the entry it finds, so updating other models first does not change it |
| SchemaWriter.UpdateInFilesFacts | schema_scribe/components/writers/dbt_yaml_writer.py:170-242 | a model update keeps the files and their truthy values, changes nothing in check mode, and leaves every other model's entry where it was |
| SchemaWriter.Flushed | schema_scribe/components/writers/dbt_yaml_writer.py:368-380 | what is dumped is exactly the dirty files that are held in memory, each as it is held |
| SchemaWriter.AddStubAppends | schema_scribe/components/writers/dbt_yaml_writer.py:292-305 | adding a stub only appends to the `models` of the files held (or adds a file), and the stub is then among the target's `models` |
| SchemaWriter.HoldsUpdateFrame | schema_scribe/components/writers/dbt_yaml_writer.py:88-95 | updating another model leaves a model's updated entry where it is |
| SchemaWriter.HoldsUpdateAppend | schema_scribe/components/writers/dbt_yaml_writer.py:97-105 | appending stubs after the updates leaves every updated entry where it is |
| SchemaWriter.HoldsStubAppend | schema_scribe/components/writers/dbt_yaml_writer.py:101-105 | appending more stubs keeps every stub already placed |
| SchemaWriter.UpdateLoopStep | schema_scribe/components/writers/dbt_yaml_writer.py:88-95 | one pass of the update loop moves its model to the handled ones: its entry becomes its update, its report and file are counted, and the others still find their loaded entries |
| SchemaWriter.StubLoopStep | schema_scribe/components/writers/dbt_yaml_writer.py:101-105 | one pass of the stub loop adds its model to the handled ones: its stub is placed when it can be, earlier stubs stay, and its report and file are counted |
| SchemaWriter.FlushedUpdate | schema_scribe/components/writers/dbt_yaml_writer.py:368-380 | a documented model whose update reported a change is written with its updated entry at its loaded place |
| SchemaWriter.FlushedStub | schema_scribe/components/writers/dbt_yaml_writer.py:368-380 | a placed stub is written with the file it was appended to |
| SchemaWriter.FilesAfterNoUpdates | schema_scribe/components/writers/dbt_yaml_writer.py:87-95 | before the update loop, the documents are the loaded ones |
| SchemaWriter.EntryAfterStep | schema_scribe/components/writers/dbt_yaml_writer.py:88-95 | handling one more model changes only the entry first found for it in the file the index names, which becomes its update |
| SchemaWriter.FilesAfterUpdatesNames | schema_scribe/components/writers/dbt_yaml_writer.py:182-242 | updates keep the name of every `models` entry |
| SchemaWriter.FilesAfterUpdatesMissing | schema_scribe/components/writers/dbt_yaml_writer.py:182-190 | a model whose entry is not found changes nothing |
| SchemaWriter.FilesAfterUpdatesFound | schema_scribe/components/writers/dbt_yaml_writer.py:182-242 | a found model's entry is still as loaded before its update, and afterwards only that entry is replaced by its update |
| SchemaWriter.FilesAfterUpdatesStep | schema_scribe/components/writers/dbt_yaml_writer.py:88-95 | updating one more model in the documents after the earlier ones gives the documents after all of them, whatever the order |
| SchemaWriter.StubFrameStart | schema_scribe/components/writers/dbt_yaml_writer.py:97-105 | before the stub loop, nothing was added |
| SchemaWriter.StubFrameUnplaced | schema_scribe/components/writers/dbt_yaml_writer.py:244-290 | a model that gets no stub (check mode, or no SQL path) adds nothing |
| SchemaWriter.StubFramePlaced | schema_scribe/components/writers/dbt_yaml_writer.py:290-305 | a placed stub goes only to the end of its target's `models`, or into a new bare `version: 2` file, and keeps the count of one stub per placed model |
| SchemaWriter.DbtYamlWriter.constructor | schema_scribe/components/writers/dbt_yaml_writer.py:35-60 | a writer starts in its mode with no loaded file, no indexed name, no dirty file and nothing written |
| SchemaWriter.DbtYamlWriter.FindSchemaFiles | schema_scribe/components/writers/dbt_yaml_writer.py:116-138 | the three walks give the schema files of the project, in scan order |
| SchemaWriter.DbtYamlWriter.WalkTop | schema_scribe/components/writers/dbt_yaml_writer.py:126-136 | one walk keeps the schema-named files under its directory, in walk order |
| SchemaWriter.DbtYamlWriter.LoadAndMapExistingYamls | schema_scribe/components/writers/dbt_yaml_writer.py:140-168 | the loaded files and the index are those of the scan up to the first parse error, and that error is returned |
| SchemaWriter.DbtYamlWriter.LoadOne | schema_scribe/components/writers/dbt_yaml_writer.py:146-168 | one file is loaded and indexed, skipped when empty, or leaves the state as it was and returns its parse error |
| SchemaWriter.DbtYamlWriter.IndexDocument | schema_scribe/components/writers/dbt_yaml_writer.py:152-164 | the index loop over `models`, `sources`, `seeds` and `snapshots`, in that order |
| SchemaWriter.DbtYamlWriter.IndexList | schema_scribe/components/writers/dbt_yaml_writer.py:158-164 | the index loop of one list: each truthy name points at the file, the later entry winning |
| SchemaWriter.DbtYamlWriter.FillColumnKeys | schema_scribe/components/writers/dbt_yaml_writer.py:230-238 | the key loop of one column is the fill whose properties `FillKeysKeeps` states |
| SchemaWriter.DbtYamlWriter.UpdateExistingModelInMemory | schema_scribe/components/writers/dbt_yaml_writer.py:170-242 | the files become the model update; the file is dirty exactly when the update reports; no truthy value is lost; check mode changes nothing; other models' entries stay put |
| SchemaWriter.DbtYamlWriter.UpdateNodeInMemory | schema_scribe/components/writers/dbt_yaml_writer.py:191-238 | the found entry gets its description step, then its column loop |
| SchemaWriter.DbtYamlWriter.UpdateColumnsInMemory | schema_scribe/components/writers/dbt_yaml_writer.py:204-238 | the column loop: its flag is the OR over the columns, and each column becomes its own update |
| SchemaWriter.DbtYamlWriter.UpdateColumnInMemory | schema_scribe/components/writers/dbt_yaml_writer.py:205-238 | one configured column: skipped when the catalog lacks it, the drift report, or its missing keys filled |
| SchemaWriter.DbtYamlWriter.FillStubKeys | schema_scribe/components/writers/dbt_yaml_writer.py:273-279 | the key loop of one stub column: every generated key goes through the policy, whatever is there |
| SchemaWriter.DbtYamlWriter.CreateNewModelStubInMemory | schema_scribe/components/writers/dbt_yaml_writer.py:244-308 | check mode reports and creates nothing; a missing SQL path gives `False` and no change; otherwise the stub is placed beside the SQL file, that file is marked dirty, and `True` is returned |
| SchemaWriter.DbtYamlWriter.BuildStubInMemory | schema_scribe/components/writers/dbt_yaml_writer.py:258-281 | the stub: the name, the description as the policy decides, then one column per catalog column |
| SchemaWriter.DbtYamlWriter.Write | schema_scribe/components/writers/dbt_yaml_writer.py:62-114 | a parse error is returned with nothing marked or written. Otherwise: the answer is the OR of every model's report; the documents are exactly the loaded ones with each documented model's first `models` entry, at its loaded place, replaced by its update (`FilesAfterUpdates`), plus the stubs and nothing else (`StubFrame`; both together are `Reconciled`); outside check mode every undocumented model with a SQL path has its stub among the `models` of the `schema.yml` beside that path; the dirty set gains exactly the reporting models' files and the stub files; check mode changes no document; check and drift write nothing; update and interactive write every dirty file as it is held (`FlushedUpdate`, `FlushedStub`) |
| SchemaWriter.DbtYamlWriter.ReconcileLoaded | schema_scribe/components/writers/dbt_yaml_writer.py:81-114 | after a clean load, both model loops: the documents are the loaded ones with every documented model's update in place and nothing else changed, followed by the stubs and nothing else (`Reconciled`); the answer and dirty set are those of `Write`; then the flush in update and interactive mode only |
| SchemaWriter.DbtYamlWriter.UpdateDocumentedModels | schema_scribe/components/writers/dbt_yaml_writer.py:87-95 | the loop over the documented models, in any order: the documents become exactly `FilesAfterUpdates`, in which each model's first `models` entry, at its loaded place, is its update from the loaded entry and every other entry is as loaded; the answer is the OR of their reports, and their files are marked dirty |
| SchemaWriter.DbtYamlWriter.UpdateDocumentedModel | schema_scribe/components/writers/dbt_yaml_writer.py:90-95 | one pass of that loop keeps its invariant: the documents are exactly `FilesAfterUpdates` of the models handled so far, the others still find their loaded entries, and the answer and dirty set are those of the models handled |
| SchemaWriter.DbtYamlWriter.CreateMissingModels | schema_scribe/components/writers/dbt_yaml_writer.py:97-105 | the loop over the undocumented models, in any order: outside check mode each model with a SQL path has its stub among the `models` of its target file; the files are those held plus the stub targets, a created file is a bare `version: 2` file, and past its earlier entries each `models` list holds as many entries as models placed there, each the stub of one of them, with every such stub among them (`StubFrame`); the answer is the OR of their reports, and their stub files are marked dirty |
| SchemaWriter.DbtYamlWriter.CreateMissingModel | schema_scribe/components/writers/dbt_yaml_writer.py:101-105 | one pass of that loop keeps its invariant: the stubs placed so far stay in their target files, nothing but those stubs was added (`StubFrame`), and the answer and dirty set are those of the models handled |
| SchemaWriter.DbtYamlWriter.WriteModifiedFilesToDisk | schema_scribe/components/writers/dbt_yaml_writer.py:368-380 | every dirty file goes to disk as it is held in memory, and nothing else is written |
| SchemaWriter.DbtYamlWriter.FlushIfDirty | schema_scribe/components/writers/dbt_yaml_writer.py:105-106 | check and drift mode write nothing; update and interactive mode write exactly the dirty files, as held |
| LegacyWriter.ParseLegacyMode | data_scribe/components/writers/dbt_yaml_writer.py:43-45 | only `update`, `check` and `interactive` give a mode, and the mode has that name; any other string is the ValueError |
| LegacyWriter.DriftRejected | data_scribe/components/writers/dbt_yaml_writer.py:43-45 | `drift` is not a mode of this writer |
| LegacyWriter.ProcessUpdate | data_scribe/components/writers/dbt_yaml_writer.py:141-170 | check reports without a change; update stores the AI value; interactive stores the answer only when it is a non-empty string; only `key` can change, and nothing changes when nothing is reported |
| LegacyWriter.EmptyAnswerSkips | data_scribe/components/writers/dbt_yaml_writer.py:162-165 | an empty answer, which arises when Enter takes an AI value whose text is empty, is a skip here, while the newer writer stores the empty string |
| LegacyWriter.FillKeysKeeps | data_scribe/components/writers/dbt_yaml_writer.py:237-247 | filling one column never replaces a truthy value, changes nothing in check mode, and reports every change |
| LegacyWriter.UpdateColumn | data_scribe/components/writers/dbt_yaml_writer.py:225-247 | a column the catalog does not know is untouched and unreported |
| LegacyWriter.UpdateColumnsKeeps | data_scribe/components/writers/dbt_yaml_writer.py:224-247 | no column loses a truthy value; none changes in check mode; an unreported loop changes nothing |
| LegacyWriter.UpdateColumnKeeps | data_scribe/components/writers/dbt_yaml_writer.py:225-247 | one column's update keeps every truthy value, changes nothing in check mode, and changes nothing unreported |
| LegacyWriter.UpdateColumnsKeepValues | data_scribe/components/writers/dbt_yaml_writer.py:224-247 | the column loop keeps every truthy value of every column |
| LegacyWriter.UpdateColumnsUnchanged | data_scribe/components/writers/dbt_yaml_writer.py:224-247 | the column loop changes no column in check mode, and none when it reports nothing |
| LegacyWriter.UpdateNodeKeeps | data_scribe/components/writers/dbt_yaml_writer.py:210-247 | updating a model entry keeps every truthy value, changes nothing in check mode, and reports every change |
| LegacyWriter.UpdateEntry | data_scribe/components/writers/dbt_yaml_writer.py:205-206 | an entry whose name is not a catalog key is untouched and unreported |
| LegacyWriter.UpdateEntriesPointwise | data_scribe/components/writers/dbt_yaml_writer.py:201-247 | EVERY `models` entry named in the catalog is updated, not only the first; the loop reports exactly when one entry does |
| LegacyWriter.UpdateDoc | data_scribe/components/writers/dbt_yaml_writer.py:196-206 | only the `models` list can change; the header and the `sources`, `seeds` and `snapshots` lists stay as they are |
| LegacyWriter.UpdateDocKeeps | data_scribe/components/writers/dbt_yaml_writer.py:196-247 | the pass keeps every truthy value and the number of entries, leaves entries outside the catalog alone, changes nothing in check mode, and reports every change |
| LegacyWriter.UpdateFillsAndKeepsTests | data_scribe/tests/unit/test_writers.py:149-177 | the update test's scenario: both descriptions are filled, the pass reports a change, and the column's `tests` stay |
| LegacyWriter.FileOutcome | data_scribe/components/writers/dbt_yaml_writer.py:185-262 | a file fails exactly when it is malformed; a document is written back only outside check mode and only when the pass reported a change |
| LegacyWriter.UpdateYamlFiles | data_scribe/components/writers/dbt_yaml_writer.py:83-88 | with no schema file the answer is `False` and nothing is written |
| LegacyWriter.AsWrittenFailsOnFirstDocument | data_scribe/components/writers/dbt_yaml_writer.py:249 | as written, the file loop fails at the first non-empty file, with the parse error or the missing-`check_mode` AttributeError, and writes nothing |
| LegacyWriter.AllEmptyAsWritten | data_scribe/components/writers/dbt_yaml_writer.py:192-194 | as written, empty files are skipped: a project of empty files answers `False` and writes nothing |
| LegacyWriter.UpdateTestAsWritten | data_scribe/tests/unit/test_writers.py:149-177 | the update test's project fails as written, while the intended reading answers `True` and writes the file back |
| LegacyWriter.RunFilesIntended | data_scribe/components/writers/dbt_yaml_writer.py:90-105 | as intended, without malformed files: the answer is whether some loaded file needed a change; only such files are written; check mode writes nothing |
| LegacyWriter.RunFilesAnswer | data_scribe/components/writers/dbt_yaml_writer.py:90-98 | without malformed files the loop succeeds, answering whether some file needed a change |
| LegacyWriter.RunFilesWrites | data_scribe/components/writers/dbt_yaml_writer.py:256-262 | only files that needed a change are written, and none in check mode |
| LegacyWriter.MalformedFileReported | data_scribe/components/writers/dbt_yaml_writer.py:185-190 | under either reading a malformed file stops the loop with "Error processing", wrapping "Failed to parse YAML file: " and its path |
| LegacyWriter.FailureSticks | data_scribe/components/writers/dbt_yaml_writer.py:99-103 | once a file has failed, later files change neither the error nor the files written |
| LegacyWriter.LegacyDbtYamlWriter.constructor | data_scribe/components/writers/dbt_yaml_writer.py:30-47 | a writer starts in its mode with nothing written |
| LegacyWriter.LegacyDbtYamlWriter.FillColumnKeys | data_scribe/components/writers/dbt_yaml_writer.py:237-247 | the key loop of one column is the fill whose properties `FillKeysKeeps` states |
| LegacyWriter.LegacyDbtYamlWriter.UpdateColumnsInMemory | data_scribe/components/writers/dbt_yaml_writer.py:224-247 | the column loop of one entry is the one `UpdateColumnsKeeps` is about |
| LegacyWriter.LegacyDbtYamlWriter.UpdateEntryInMemory | data_scribe/components/writers/dbt_yaml_writer.py:205-247 | one `models` entry: skipped unless its name is a catalog key, else its description and its columns |
| LegacyWriter.LegacyDbtYamlWriter.UpdateDocInMemory | data_scribe/components/writers/dbt_yaml_writer.py:196-247 | the entry loop of one document is the pass `UpdateDocKeeps` is about |
| LegacyWriter.LegacyDbtYamlWriter.UpdateSingleFile | data_scribe/components/writers/dbt_yaml_writer.py:172-270 | one file as intended: its error, or its report, with the document written back exactly when the outcome says so |
| LegacyWriter.LegacyDbtYamlWriter.UpdateYamlFilesOnDisk | data_scribe/components/writers/dbt_yaml_writer.py:71-105 | `update_yaml_files` as intended: the answer and the files written are those `RunFilesIntended` describes |
| LegacyWriter.LegacyDbtYamlWriter.ProcessFiles | data_scribe/components/writers/dbt_yaml_writer.py:92-105 | the file loop: each file in turn, stopping at the first error, wrapped |
| Lineage.ParseStyle | schema_scribe/services/lineage_generator.py:44-52 | reading a style string back gives a style with that string |
| Lineage.Priority | schema_scribe/services/lineage_generator.py:44-52 | every priority is between 0 and 3 |
| Lineage.PriorityRanksKnownStyles | schema_scribe/services/lineage_generator.py:44-52 | box, source and db have three different positive priorities; every other style has 0; box alone has 3 |
| Lineage.Rank | schema_scribe/services/lineage_generator.py:60-65 | a node's current priority is -1 exactly when it is absent |
| Lineage.Restyle | schema_scribe/services/lineage_generator.py:54-69 | the node is added if absent; its priority becomes the larger of the old and the new; it ends with the old or the new style; no other node changes |
| Lineage.ApplyOffersWellFormed | schema_scribe/services/lineage_generator.py:54-69 | the insertion-order list and the style dictionary keep agreeing, each node listed once |
| Lineage.ApplyOffersKeys | schema_scribe/services/lineage_generator.py:54-69 | the nodes after a run of offers are those before plus every name offered |
| Lineage.ApplyOffersMax | schema_scribe/services/lineage_generator.py:54-69 | styles only move up: each node ends at least as high as every style offered for it and as its old style |
| Lineage.ApplyOffersOrigin | schema_scribe/services/lineage_generator.py:54-69 | every final style was offered for its node, or is the style it had before |
| Lineage.OrderIndependent | schema_scribe/services/lineage_generator.py:54-69 | the final styles do not depend on the order of the offers |
| Lineage.SameBest | schema_scribe/services/lineage_generator.py:54-69 | a node's best offer is the same in two runs over the same known offers |
| Lineage.ModelWins | schema_scribe/services/lineage_generator.py:44-69 | a name offered as a model ends as a model, whatever else it was offered as |
| Lineage.DepOffers | schema_scribe/services/lineage_generator.py:110-116 | each dependency offers itself, in order, with its dotted-or-not style |
| Lineage.ApplyOffersSaturated | schema_scribe/services/lineage_generator.py:68-69 | offers that cannot raise any node change nothing |
| Lineage.ApplyOffersIdempotent | schema_scribe/services/lineage_generator.py:54-69 | running the same offers a second time changes nothing |
| Lineage.OffersKnown | schema_scribe/services/lineage_generator.py:98-116 | processing offers only the styles box, source and db |
| Lineage.FkOffersKnown | schema_scribe/services/lineage_generator.py:101-102 | foreign-key tables are offered only as db |
| Lineage.ModelNamesOffered | schema_scribe/services/lineage_generator.py:106-108 | every model's name is offered as a model |
| Lineage.ModelsStyledAsModels | schema_scribe/services/lineage_generator.py:106-108 | after processing every model name has style box, foreign keys or not |
| Lineage.DottedDependencyIsSource | schema_scribe/services/lineage_generator.py:110-112 | a dotted dependency that no model is named after ends as a source, even when a foreign key also names it as a table |
| Lineage.ForeignKeyOnlyTableIsDb | schema_scribe/services/lineage_generator.py:98-102 | a table named only by foreign keys, never as a model or a dependency, ends as a database table |
| Lineage.MakeEdge | schema_scribe/services/lineage_generator.py:71-82 | the edge id is `from-to`, or `from-to-label` when a label is present |
| Lineage.FkEdges | schema_scribe/services/lineage_generator.py:98-103 | one FK edge per foreign key |
| Lineage.DepEdges | schema_scribe/services/lineage_generator.py:110-116 | one unlabelled edge per dependency |
| Lineage.DepEdgesSnoc | schema_scribe/services/lineage_generator.py:113-116 | one more dependency gives one more edge, from it to the model |
| Lineage.EdgesDeduplicated | schema_scribe/services/lineage_generator.py:83-85 | the edge list has no repeats and holds exactly the edges offered |
| Lineage.NodeLinesKnown | schema_scribe/services/lineage_generator.py:131-138 | with only known styles there is one definition per node, in the given order, shaped by its style |
| Lineage.EdgeLinesAt | schema_scribe/services/lineage_generator.py:144-150 | one line per edge, in the edges' order |
| Lineage.NodeLinesPermutation | schema_scribe/services/lineage_generator.py:131-138 | two orderings of the same names give the same definition lines, reordered |
| Lineage.MermaidLayout | schema_scribe/services/lineage_generator.py:128-152 | the diagram is `graph TD;`, one definition per node sorted by name, a blank line, then one line per edge sorted by id |
| Lineage.MermaidIgnoresInsertionOrder | schema_scribe/services/lineage_generator.py:131 | two node dictionaries with the same styles give the same diagram, whatever order the nodes were added in |
| Lineage.RenderMermaid | schema_scribe/services/lineage_generator.py:128-152 | the output loop joins the diagram's lines with newlines |
| Lineage.RenderNodes | schema_scribe/services/lineage_generator.py:131-138 | the node loop gives the definition lines |
| Lineage.RenderEdges | schema_scribe/services/lineage_generator.py:144-150 | the edge loop gives the edge lines |
| Lineage.JsonNodes | schema_scribe/services/lineage_generator.py:163-174 | one JSON node per dictionary key, in dictionary order, with id and label the name and type its style; no node is listed twice |
| Lineage.GlobalLineageGenerator.constructor | schema_scribe/services/lineage_generator.py:24-42 | a generator starts with its inputs, no node, no edge, and not processed |
| Lineage.GlobalLineageGenerator.AddNode | schema_scribe/services/lineage_generator.py:54-69 | `_add_node` is the upward-only restyling |
| Lineage.GlobalLineageGenerator.AddEdge | schema_scribe/services/lineage_generator.py:71-85 | `_add_edge` appends the record unless an equal one is there |
| Lineage.GlobalLineageGenerator.AddForeignKey | schema_scribe/services/lineage_generator.py:98-103 | one foreign key: both tables as db, then the FK edge |
| Lineage.GlobalLineageGenerator.AddForeignKeys | schema_scribe/services/lineage_generator.py:98-103 | the foreign-key loop offers every table and edge in order |
| Lineage.GlobalLineageGenerator.AddDependency | schema_scribe/services/lineage_generator.py:110-116 | one dependency: its dotted-or-not style, then its edge to the model |
| Lineage.GlobalLineageGenerator.AddDependencies | schema_scribe/services/lineage_generator.py:110-116 | the dependency loop of one model |
| Lineage.GlobalLineageGenerator.AddModel | schema_scribe/services/lineage_generator.py:106-116 | one model: its name as box, then its dependencies |
| Lineage.GlobalLineageGenerator.AddModelAt | schema_scribe/services/lineage_generator.py:106-116 | one pass of the model loop extends the offers and edges handled so far by that model's |
| Lineage.GlobalLineageGenerator.AddModels | schema_scribe/services/lineage_generator.py:106-116 | the model loop offers every model and dependency in order |
| Lineage.GlobalLineageGenerator.ProcessLineage | schema_scribe/services/lineage_generator.py:87-118 | the first call offers every foreign key and model; any later call changes nothing |
| Lineage.GlobalLineageGenerator.GenerateMermaidString | schema_scribe/services/lineage_generator.py:120-152 | processes once, then returns the diagram of the resulting graph |
| Lineage.GlobalLineageGenerator.GenerateGraphJson | schema_scribe/services/lineage_generator.py:154-177 | processes once, then lists one typed node per key and the very same edge list |
| CoreLineage.CoreLinesIgnoreOrder | schema_scribe/core/lineage_workflow.py:133-147 | the output depends only on the node styles and the set of edge lines, not on insertion order |
| CoreLineage.RerunChangesNothing | schema_scribe/core/lineage_workflow.py:91-130 | a second `generate_graph` over the same input finds every style and edge in place, so it builds the same graph |
| CoreLineage.RenderCore | schema_scribe/core/lineage_workflow.py:132-147 | `graph TD;`, the definitions sorted as text, a blank line, the sorted edge lines, joined with newlines |
| CoreLineage.CoreLineageGenerator.constructor | schema_scribe/core/lineage_workflow.py:38-55 | a generator starts with its inputs, no node and no edge |
| CoreLineage.CoreLineageGenerator.AddNode | schema_scribe/core/lineage_workflow.py:67-82 | `_add_node` is the same upward-only restyling as the services copy |
| CoreLineage.CoreLineageGenerator.AddEdge | schema_scribe/core/lineage_workflow.py:84-89 | `_add_edge` puts the rendered line into the set |
| CoreLineage.CoreLineageGenerator.AddForeignKey | schema_scribe/core/lineage_workflow.py:111-116 | one foreign key: both tables as db, then the FK line |
| CoreLineage.CoreLineageGenerator.AddForeignKeys | schema_scribe/core/lineage_workflow.py:111-116 | the foreign-key loop |
| CoreLineage.CoreLineageGenerator.AddDependency | schema_scribe/core/lineage_workflow.py:123-130 | one dependency: its dotted-or-not style, then its line |
| CoreLineage.CoreLineageGenerator.AddDependencies | schema_scribe/core/lineage_workflow.py:123-130 | the dependency loop of one model |
| CoreLineage.CoreLineageGenerator.AddModel | schema_scribe/core/lineage_workflow.py:119-130 | one model: its name as box, then its dependencies |
| CoreLineage.CoreLineageGenerator.AddModelAt | schema_scribe/core/lineage_workflow.py:119-130 | one pass of the model loop extends the offers and edge lines handled so far by that model's |
| CoreLineage.CoreLineageGenerator.AddModels | schema_scribe/core/lineage_workflow.py:119-130 | the model loop |
| CoreLineage.CoreLineageGenerator.GenerateGraph | schema_scribe/core/lineage_workflow.py:91-147 | every call offers all foreign keys and models again, then renders the sorted diagram |
| LegacyLineage.AddLegacyNode | data_scribe/core/lineage_workflow.py:27-36 | a name already present changes nothing; otherwise its definition (if its style is known) and the bare name go in |
| LegacyLineage.AddLegacyNodeGrows | data_scribe/core/lineage_workflow.py:27-36 | the node set only grows and keeps no repeats |
| LegacyLineage.ApplyLegacyGrows | data_scribe/core/lineage_workflow.py:27-36 | the node set only grows, keeps no repeats, and holds every offered bare name |
| LegacyLineage.LaterOffersIgnored | data_scribe/core/lineage_workflow.py:29 | first style wins: a name offered again, with any style, changes nothing |
| LegacyLineage.FirstOfferDefines | data_scribe/core/lineage_workflow.py:29-36 | a name first offered with a known style gets that style's definition and its bare name in the set |
| LegacyLineage.NodeLineNotBare | data_scribe/core/lineage_workflow.py:31-36 | a definition line is never a bare name |
| LegacyLineage.LegacyEdgeLineUnquoted | data_scribe/core/lineage_workflow.py:51 | the legacy FK edge line leaves the label unquoted: it is the newer line without the two quotes around the label, and unlabelled edges render the same in both |
| LegacyLineage.EdgeCount | data_scribe/core/lineage_workflow.py:43-64 | one edge per foreign key plus one per dependency: nothing is deduplicated |
| LegacyLineage.ModelEdgeCount | data_scribe/core/lineage_workflow.py:58-64 | one edge per dependency |
| LegacyLineage.LegacyLinesFacts | data_scribe/core/lineage_workflow.py:67-72 | every bare name is a line of the output, and the output depends only on which lines the set holds |
| LegacyLineage.RenderLegacy | data_scribe/core/lineage_workflow.py:66-72 | `graph TD;`, the sorted set, a blank line, the sorted edge list, joined with newlines |
| LegacyLineage.LegacyLineageGenerator.constructor | data_scribe/core/lineage_workflow.py:21-25 | a generator starts with its inputs, an empty node set and no edge |
| LegacyLineage.LegacyLineageGenerator.AddNode | data_scribe/core/lineage_workflow.py:27-36 | `_add_node` is the first-write-wins insertion |
| LegacyLineage.LegacyLineageGenerator.AddForeignKey | data_scribe/core/lineage_workflow.py:43-51 | one foreign key: both tables as db, and its line appended |
| LegacyLineage.LegacyLineageGenerator.AddForeignKeyAt | data_scribe/core/lineage_workflow.py:43-51 | one pass of the foreign-key loop extends the nodes and edge lines handled so far by that key's |
| LegacyLineage.LegacyLineageGenerator.AddForeignKeys | data_scribe/core/lineage_workflow.py:43-51 | the foreign-key loop, every line appended |
| LegacyLineage.LegacyLineageGenerator.AddDependency | data_scribe/core/lineage_workflow.py:58-64 | one dependency: its dotted-or-not style, and its line appended |
| LegacyLineage.LegacyLineageGenerator.AddDependencies | data_scribe/core/lineage_workflow.py:58-64 | the dependency loop of one model |
| LegacyLineage.LegacyLineageGenerator.AddModel | data_scribe/core/lineage_workflow.py:54-64 | one model: its name as box, then its dependencies |
| LegacyLineage.LegacyLineageGenerator.AddModels | data_scribe/core/lineage_workflow.py:54-64 | the model loop |
| LegacyLineage.LegacyLineageGenerator.GenerateGraph | data_scribe/core/lineage_workflow.py:38-72 | every call adds all foreign keys and models again, then renders the sorted set and list |
| Manifest.Lookup | schema_scribe/core/dbt_parser.py:134 | `nodes.get(key)` finds a node stored under that id, or reports that none is |
| Manifest.DescriptionOf | schema_scribe/core/dbt_parser.py:114-116 | the node's description when truthy, else `config.description`, else "" |
| Manifest.RawSqlOf | schema_scribe/core/dbt_parser.py:149-152 | `raw_code` when truthy, else `raw_sql`, else "-- SQL code not available --" |
| Manifest.ParseColumns | schema_scribe/core/dbt_parser.py:118-126 | one column per key of the columns map, in order, description defaulting to "" and type to "N/A" |
| Manifest.DependencyOf | schema_scribe/core/dbt_parser.py:133-142 | an unknown id gives nothing; a model or seed id gives its `name`, a source id `source_name.name`, and any other kind nothing |
| Manifest.DependenciesConcat | schema_scribe/core/dbt_parser.py:133-142 | the dependency loop over two id lists is the loop over the first followed by the loop over the second, so order and repeats are kept |
| Manifest.DependenciesOne | schema_scribe/core/dbt_parser.py:133-142 | one id adds its resolved name, or nothing |
| Manifest.DependenciesResolve | schema_scribe/core/dbt_parser.py:129-142 | a name is a dependency exactly when some `depends_on` id resolves to it, and there are no more names than ids |
| Manifest.ModelEntries | schema_scribe/core/dbt_parser.py:111-112 | the entries kept are exactly the model nodes |
| Manifest.ModelsFollowEntries | schema_scribe/core/dbt_parser.py:107-163 | one entry per model node and none for any other node, in manifest order, each built from its own node |
| Manifest.ModelIds | schema_scribe/core/dbt_parser.py:146-147 | every entry's `unique_id` is a model node's key, and every model node's key appears |
| Manifest.DbtManifestParser.constructor | schema_scribe/core/dbt_parser.py:75-76 | a parser holds its manifest and has not parsed it yet |
| Manifest.DbtManifestParser.Models | schema_scribe/core/dbt_parser.py:75-76 | every access returns the parse of the manifest, and caches it |
| Manifest.ParseAll | schema_scribe/core/dbt_parser.py:107-163 | the node loop builds the list `ModelsFollowEntries` describes |
| Manifest.ParseColumnList | schema_scribe/core/dbt_parser.py:118-126 | the column loop builds the list `ParseColumns` describes |
| Manifest.ResolveDependencies | schema_scribe/core/dbt_parser.py:129-142 | the dependency loop builds the list `DependenciesResolve` describes |
| LegacyManifest.LegacyColumns | data_scribe/core/dbt_parser.py:95-104 | one column per key of the columns map, in order, type defaulting to "N/A" |
| LegacyManifest.LegacyEntry | data_scribe/core/dbt_parser.py:84-112 | a node without `resource_type`, or a model without `config`, or a kept model without `name`, is a KeyError; non-models and ephemeral models give nothing; any other model gives its name, SQL (default placeholder) and columns |
| LegacyManifest.LegacyParseFails | data_scribe/core/dbt_parser.py:84-90 | the parse fails exactly when some node lacks an indexed key, with the first such node's error |
| LegacyManifest.KeptEntries | data_scribe/core/dbt_parser.py:84-89 | the nodes kept are exactly the models that are not ephemeral |
| LegacyManifest.LegacyFollowsKept | data_scribe/core/dbt_parser.py:106-112 | a successful parse has one entry per kept node, in order, with its name, SQL and columns |
| LegacyManifest.ParsersAgree | data_scribe/core/dbt_parser.py:84-112 | on a manifest without ephemeral models or missing keys, both parsers list the same models with the same column names and types |
| LegacyManifest.LegacyManifestParser.constructor | data_scribe/core/dbt_parser.py:57-84 | a parser holds its manifest |
| LegacyManifest.LegacyManifestParser.ParseModels | data_scribe/core/dbt_parser.py:57-115 | the node loop is the parse the lemmas above describe |
| LegacyManifest.FailureSticks | data_scribe/core/dbt_parser.py:86-90 | once a node has raised, the whole parse fails with that error |
| LegacyManifest.LegacyColumnList | data_scribe/core/dbt_parser.py:97-104 | the column loop builds the list `LegacyColumns` describes |
| EnvVars.NameRun | schema_scribe/utils/utils.py:35 | the run of `[A-Za-z0-9_]` characters at the start, and no longer |
| EnvVars.PlaceholderAt | schema_scribe/utils/utils.py:35 | a placeholder found is `${NAME}` at the start, with a non-empty name of name characters |
| EnvVars.ExpandEnvVars | schema_scribe/utils/utils.py:37-47 | an error names a variable that is not set |
| EnvVars.TokenizeRoundTrip | schema_scribe/utils/utils.py:35 | splitting the text into literals and placeholders loses nothing: the pieces spell the text again |
| EnvVars.ExpandIsSubstitution | schema_scribe/utils/utils.py:47 | the expansion is the piece-by-piece substitution: literals kept in place, each placeholder replaced by its value |
| EnvVars.ExpandFailsIffUnset | schema_scribe/utils/utils.py:40-44 | the expansion fails exactly when some placeholder names an unset variable |
| EnvVars.SelfReferenceNotReexpanded | schema_scribe/utils/utils.py:47 | a value is inserted once and not expanded again: with every variable set to its own placeholder the text comes back unchanged |
| EnvVars.LiteralPrefixCopied | schema_scribe/utils/utils.py:47 | text without `$` is copied unchanged in front of the rest's expansion |
| EnvVars.PlaceholderReplaced | schema_scribe/utils/utils.py:37-45 | a leading `${NAME}` becomes the value of NAME, and the rest is expanded after it |
| EnvVars.DollarFreeCopied | schema_scribe/utils/utils.py:47 | text without `$` expands to itself |
| EnvVars.OnePlaceholder | schema_scribe/utils/utils.py:21-23 | one placeholder between two `$`-free stretches is the only thing replaced (the `password: ${DB_PASSWORD}` example) |
| EnvVars.EmptyValueIsValid | schema_scribe/utils/utils.py:40 | a variable set to the empty string is a valid substitution |
| EnvVars.EmptyNameCopied | schema_scribe/utils/utils.py:35 | `${}` is not a placeholder and is copied |
| EnvVars.HyphenatedNameCopied | schema_scribe/utils/utils.py:35 | `${A-B}` is not a placeholder and is copied |

## Left out

- YAML parsing and dumping (comments, quotes, indentation) are not modelled. A loaded file is its parse result (`Malformed`, `Empty` or a document), and the files written are a ghost record of documents by path.
- `os.walk` and `os.path.exists` are not modelled. The project tree is an input listing each walked file with its top directory, path and base name.
- The terminal prompt is not modelled. The user's reply is an oracle function of the site, key and suggestion.
- Logging and the terminal echo are not modelled; they do not change any result.
- `SchemaWriter.DbtYamlWriter.WriteModifiedFilesToDisk` models only a successful flush. An I/O error raises WriterError on the first failing file and leaves the rest unwritten; that path is not modelled.
- `LegacyWriter.LegacyDbtYamlWriter.UpdateSingleFile` treats every write-back as successful. The source logs an I/O error there and carries on with the same answer.
- `Reconcile.FillKeysIdempotent` needs truthy AI values. With a falsy AI value the source stores it, finds it missing again on the next run, and reports it again.
- `Reconcile.StubPath` reads a truthy `original_file_path` that is not a string as no path, so no stub is placed and `False` is reported. The source passes it to `os.path.dirname`, which raises TypeError (schema_scribe/components/writers/dbt_yaml_writer.py:283-290); that error is not modelled.
- A non-empty schema file whose top level is a list or a scalar is not modelled: a loaded `Documents.Doc` is always a mapping. On such a file `data.get(node_type, [])` raises AttributeError (schema_scribe/components/writers/dbt_yaml_writer.py:158), which is not caught as a parse error.
- Non-mapping entries in a node list are not modelled: every entry and every column is a mapping. Without the `isinstance` guard, `n.get` in the update step would raise AttributeError.
- A node list written as YAML null (`models:` with no items) is not modelled. Iterating it would raise TypeError; an absent list reads as empty.
- A column list written as YAML null (`columns:` with no items) under a documented model is not modelled. `dict.get("columns", [])` returns that null, and the column loop of the update (schema_scribe/components/writers/dbt_yaml_writer.py:204) raises TypeError. `Documents.Node.columns` is a sequence and cannot hold that null.
- Paths are compared as plain strings. A loaded file is keyed by the path the scan built from the project directory (schema_scribe/components/writers/dbt_yaml_writer.py:121-136). A stub target is `schema.yml` joined to the directory of `original_file_path` (line 290). A stub joins a loaded file only when the two spellings are the same string. Two spellings of one file on disk are two separate entries of `written`, while on disk the later dump would overwrite the earlier.
- KeyErrors in schema_scribe's writer are not modelled: every catalog column has a `name` and every catalog model a `model_description` entry, both of which the stub builder indexes directly. The same holds for the `columns` list that data_scribe's writer indexes directly. An absent `columns`, `ai_generated` or `original_file_path` reads as empty or `None`, as the source's `.get` does.
- Lineage input records always have their keys: a foreign key has its two tables and a dbt model has its `name` (`Lineage.ForeignKey`, `Lineage.DbtModel`). A missing key would be a KeyError.
- A `config` holding `None` in a manifest node is not modelled. It would make `.get` raise AttributeError; an absent `config` is modelled.
- `LegacyManifest.LegacyEntry` reads `config.materialized` as text: a node is ephemeral when that value is the string `ephemeral`.
- Reading and decoding `manifest.json`, and its DbtParseError and FileNotFoundError paths, are not modelled. The parsers start from the decoded `nodes` map, as an ordered list of items.
- `Manifest.Nodes` is a list of items that may repeat a key, which a decoded JSON object cannot. No lemma relies on distinct keys; with a repeated key `Manifest.Lookup` takes the first item, where `json.load` keeps the last value.
- Model fields that are copied unread (`path`, `original_file_path`) are carried in `Manifest.Model` without any property about them.
- `load_config` (the file read and YAML load around `expand_env_vars`) is not modelled.
- Dict and set iteration order for `models_to_update` and `models_to_create` is a free choice in the writer loops. Their contracts hold for every order. Hence the stubs appended to one file follow in no fixed order: `SchemaWriter.StubFrame` states that file's tail as many entries as models placed there, each the stub of one of them, with every such stub among them.
- The core lineage copy keeps edges in a set and data_scribe keeps nodes in a set. Both are modelled as lists without repeats. Only their sorted rendering is observable, and it is proved independent of that order.
- `Lineage.NodeLines` writes no line for a name without a style. A well-formed node table never holds such a name.
- `CoreLineage.CoreLineageGenerator.AddNode` uses `Lineage.Restyle`, which gives a present node the priority of its style. The core copy tests `if current_style`, so a node stored with the empty style would count as absent (-1 rather than 0). Only box, source and db are ever offered, so this never arises.
- `LegacyLineage.FirstOfferDefines` assumes a node name does not start with four spaces, so that a definition line cannot coincide with a bare name.
- Column lists and node lists are rebuilt as new values rather than mutated in place. Aliasing between the loaded documents and the catalog is therefore not captured.
- The data_scribe unit tests construct the writer with a `check_mode=True` keyword that its constructor does not accept (a TypeError). Those two check-mode tests are not modelled.
- The newer writer's constructor takes a `Mode` value. The string check that raises ValueError is `Reconcile.ParseMode`, and the legacy writer's is `LegacyWriter.ParseLegacyMode`.

## Findings

| source | as written | input that shows it | evidently intended | confidence | as-written member | corrected member |
|---|---|---|---|---|---|---|
| data_scribe/components/writers/dbt_yaml_writer.py:249 | `_update_single_file` reads `self.check_mode`, which `__init__` never sets (lines 39-47). Every non-empty schema file raises AttributeError, which `update_yaml_files` wraps as "Error processing …", so no file is ever updated or checked | any project with one non-empty schema file, such as the project of the update test in data_scribe/tests/unit/test_writers.py:149-177 | the test is `self.mode == "check"`: check mode only reports, and other modes write back a changed file | not executed | LegacyWriter.AsWrittenFailsOnFirstDocument, LegacyWriter.UpdateTestAsWritten | LegacyWriter.FileOutcome, LegacyWriter.RunFilesIntended |
