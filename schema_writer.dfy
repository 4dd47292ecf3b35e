/**
 * schema_scribe's `DbtYamlWriter`: the stateful engine behind `dbt --update`,
 * `--check`, `--interactive` and `--drift`. It keeps the loaded schema files,
 * an index from model name to file, and the set of files to write back.
 *
 * The YAML text, the walk of the project directory and the terminal are
 * inputs: the tree of walked files with their parsed contents, and the
 * user's answers as an oracle. Writing to disk is recorded in the ghost map
 * `written`.
 */
module SchemaWriter {
  import opened Wrappers
  import opened Documents
  import opened Reconcile
  import opened SchemaIndex

  /** The catalog models already documented somewhere: they are updated. */
  function ToUpdate(catalog: Catalog, index: map<Value, string>): set<string>
  {
    set n | n in catalog && Str(n) in index
  }

  /** The catalog models documented nowhere: they get a stub. */
  function ToCreate(catalog: Catalog, index: map<Value, string>): set<string>
  {
    set n | n in catalog && Str(n) !in index
  }

  /** Every catalog model is handled exactly once: the two sets split the catalog. */
  lemma SplitCatalog(catalog: Catalog, index: map<Value, string>)
    ensures ToUpdate(catalog, index) !! ToCreate(catalog, index)
    ensures ToUpdate(catalog, index) + ToCreate(catalog, index) == catalog.Keys
  {
  }

  /** What updating documented model `n` against the loaded state reports. */
  function UpdateSignal(mode: Mode, loaded: State, catalog: Catalog, n: string, ask: Oracle): bool
    requires n in catalog && Str(n) in loaded.index
  {
    UpdateInFiles(mode, loaded.files, loaded.index[Str(n)], n, catalog[n], ask).0
  }

  /** Some model among `names` reports a change when updated. */
  predicate AnyUpdateSignal(mode: Mode, loaded: State, catalog: Catalog, ask: Oracle, names: set<string>)
  {
    exists n :: n in names && n in catalog && Str(n) in loaded.index && UpdateSignal(mode, loaded, catalog, n, ask)
  }

  /** The files the updates of `names` mark to be written: those whose model reported a change. */
  function UpdatedFilesOf(mode: Mode, loaded: State, catalog: Catalog, ask: Oracle, names: set<string>): set<string>
  {
    set n | n in names && n in catalog && Str(n) in loaded.index && UpdateSignal(mode, loaded, catalog, n, ask) :: loaded.index[Str(n)]
  }

  lemma UpdateStep(mode: Mode, loaded: State, catalog: Catalog, ask: Oracle, names: set<string>, n: string)
    requires n in catalog && Str(n) in loaded.index
    ensures AnyUpdateSignal(mode, loaded, catalog, ask, names + {n})
      == (AnyUpdateSignal(mode, loaded, catalog, ask, names) || UpdateSignal(mode, loaded, catalog, n, ask))
    ensures UpdatedFilesOf(mode, loaded, catalog, ask, names + {n})
      == UpdatedFilesOf(mode, loaded, catalog, ask, names)
         + if UpdateSignal(mode, loaded, catalog, n, ask) then {loaded.index[Str(n)]} else {}
  {
  }

  /** The files the new stubs of `names` go to: none in check mode. */
  function StubFilesOf(mode: Mode, catalog: Catalog, names: set<string>): set<string>
  {
    set n | n in names && n in catalog && mode != Check && StubFile(catalog[n]).Some? :: StubFile(catalog[n]).value
  }

  /** Some model among `names` reports a change when stubbed. */
  predicate AnyCreateSignal(mode: Mode, catalog: Catalog, names: set<string>)
  {
    exists n :: n in names && n in catalog && CreateSignal(mode, catalog[n])
  }

  lemma CreateStep(mode: Mode, catalog: Catalog, names: set<string>, n: string)
    requires n in catalog
    ensures AnyCreateSignal(mode, catalog, names + {n}) == (AnyCreateSignal(mode, catalog, names) || CreateSignal(mode, catalog[n]))
    ensures StubFilesOf(mode, catalog, names + {n})
      == StubFilesOf(mode, catalog, names) + if mode != Check && StubFile(catalog[n]).Some? then {StubFile(catalog[n]).value} else {}
  {
  }

  /** `write`'s answer: some documented model reports a change, or some new model does. */
  predicate Outdated(mode: Mode, loaded: State, catalog: Catalog, ask: Oracle)
  {
    AnyUpdateSignal(mode, loaded, catalog, ask, ToUpdate(catalog, loaded.index))
    || AnyCreateSignal(mode, catalog, ToCreate(catalog, loaded.index))
  }

  /** Model `n` is found at the same place of file `q`, on the same entry, in both file maps. */
  predicate SameEntry(a: map<string, Doc>, b: map<string, Doc>, q: string, n: string)
  {
    (q in a <==> q in b)
    && (q in a ==> FindNode(b[q].models, Str(n)) == FindNode(a[q].models, Str(n))
                   && (FindNode(a[q].models, Str(n)).Some? ==>
                         b[q].models[FindNode(a[q].models, Str(n)).value] == a[q].models[FindNode(a[q].models, Str(n)).value]))
  }

  /** What an update reports depends only on the entry it finds. */
  lemma SignalFrame(mode: Mode, a: map<string, Doc>, b: map<string, Doc>, q: string, n: string, ai: CatalogModel, ask: Oracle)
    requires SameEntry(a, b, q, n)
    ensures UpdateInFiles(mode, a, q, n, ai, ask).0 == UpdateInFiles(mode, b, q, n, ai, ask).0
  {
  }

  lemma SameEntryTrans(a: map<string, Doc>, b: map<string, Doc>, c: map<string, Doc>, q: string, n: string)
    requires SameEntry(a, b, q, n) && SameEntry(b, c, q, n)
    ensures SameEntry(a, c, q, n)
  {
  }

  /** One model update keeps the file set and every truthy value, and disturbs no other model. */
  lemma UpdateInFilesFacts(mode: Mode, files: map<string, Doc>, path: string, model: string, ai: CatalogModel, ask: Oracle)
    ensures var r := UpdateInFiles(mode, files, path, model, ai, ask).1;
      r.Keys == files.Keys && FilesKeep(files, r) && (mode == Check ==> r == files)
      && forall m, q :: m != model ==> SameEntry(files, r, q, m)
  {
    UpdateInFilesKeeps(mode, files, path, model, ai, ask);
    var r := UpdateInFiles(mode, files, path, model, ai, ask).1;
    forall m, q | m != model ensures SameEntry(files, r, q, m) {
      if q in files {
        UpdateInFilesFrame(mode, files, path, model, ai, ask, q, m);
      }
    }
  }

  /** The documents dumped to disk: each dirty file as it is held in memory. */
  function Flushed(files: map<string, Doc>, dirty: set<string>): (r: map<string, Doc>)
    ensures r.Keys == dirty * files.Keys
    ensures forall p :: p in r ==> r[p] == files[p]
  {
    map p | p in dirty && p in files :: files[p]
  }

  lemma FlushedStep(files: map<string, Doc>, dirty: set<string>, p: string)
    requires p in files
    ensures Flushed(files, dirty + {p}) == Flushed(files, dirty)[p := files[p]]
  {
  }

  /** With no dirty file, a flush adds nothing. */
  lemma FlushedNone(written: map<string, Doc>, files: map<string, Doc>)
    ensures written + Flushed(files, {}) == written
  {
  }

  /** Moving one element from `left` to `done` keeps them apart and keeps their union. */
  lemma MoveOne(left: set<string>, done: set<string>, n: string)
    requires n in left && left !! done
    ensures (left - {n}) !! (done + {n}) && (left - {n}) + (done + {n}) == left + done
  {
  }

  /**
   * Documented model `m` is found in `files` where it was loaded, and its
   * entry there is the update of the loaded entry. A model the index knows
   * only from another list, or whose file was not loaded, has nothing to hold.
   */
  predicate HoldsUpdate(mode: Mode, loaded: State, catalog: Catalog, ask: Oracle, files: map<string, Doc>, m: string)
  {
    m in catalog && Str(m) in loaded.index
    && var q := loaded.index[Str(m)];
       (q in loaded.files && FindNode(loaded.files[q].models, Str(m)).Some? ==>
          var i := FindNode(loaded.files[q].models, Str(m)).value;
          q in files && FindNode(files[q].models, Str(m)) == Some(i)
          && files[q].models[i] == UpdateNode(mode, m, loaded.files[q].models[i], catalog[m], ask).1)
  }

  /**
   * Undocumented model `m`, outside check mode and with a known SQL path,
   * has its stub among the `models` of the file beside its SQL file.
   */
  predicate HoldsStub(mode: Mode, catalog: Catalog, ask: Oracle, files: map<string, Doc>, m: string)
  {
    m in catalog
    && (mode != Check && StubFile(catalog[m]).Some? ==>
          StubFile(catalog[m]).value in files
          && BuildStub(mode, m, catalog[m], ask) in files[StubFile(catalog[m]).value].models)
  }

  /** Every file of `a` is in `b`, and its `models` list has only been appended to. */
  predicate AppendsOnly(a: map<string, Doc>, b: map<string, Doc>)
  {
    forall p :: p in a ==> p in b && a[p].models <= b[p].models
  }

  lemma AppendsOnlyTrans(a: map<string, Doc>, b: map<string, Doc>, c: map<string, Doc>)
    requires AppendsOnly(a, b) && AppendsOnly(b, c)
    ensures AppendsOnly(a, c)
  {
    forall p | p in a ensures p in c && a[p].models <= c[p].models {
      assert a[p].models <= b[p].models <= c[p].models;
    }
  }

  /** Adding a stub only appends, and the stub is then among the target's `models`. */
  lemma AddStubAppends(files: map<string, Doc>, target: string, stub: Node)
    ensures var r := AddStub(files, target, stub);
      AppendsOnly(files, r) && target in r && stub in r[target].models
  {
    var r := AddStub(files, target, stub);
    if target in files {
      assert r[target].models[|files[target].models|] == stub;
    } else {
      assert r[target].models[0] == stub;
    }
  }

  /** The update of model `n`, made on files that still hold its loaded entry, holds afterwards. */
  lemma HoldsUpdateStep(mode: Mode, loaded: State, catalog: Catalog, ask: Oracle, files: map<string, Doc>, n: string)
    requires n in catalog && Str(n) in loaded.index
    requires SameEntry(loaded.files, files, loaded.index[Str(n)], n)
    ensures HoldsUpdate(mode, loaded, catalog, ask, UpdateInFiles(mode, files, loaded.index[Str(n)], n, catalog[n], ask).1, n)
  {
    var q := loaded.index[Str(n)];
    if q in loaded.files && FindNode(loaded.files[q].models, Str(n)).Some? {
      UpdateInFilesSelf(mode, files, q, n, catalog[n], ask);
    }
  }

  /** Another model's update leaves a model's updated entry where it is. */
  lemma HoldsUpdateFrame(mode: Mode, loaded: State, catalog: Catalog, ask: Oracle, a: map<string, Doc>, b: map<string, Doc>, m: string)
    requires HoldsUpdate(mode, loaded, catalog, ask, a, m)
    requires SameEntry(a, b, loaded.index[Str(m)], m)
    ensures HoldsUpdate(mode, loaded, catalog, ask, b, m)
  {
  }

  /**
   * The entry at place `i` of loaded file `q` once the models in `done` are
   * updated: its update when it is the entry first found for a model of
   * `done` that the index sends to `q`, and otherwise the entry as loaded.
   */
  function EntryAfterUpdates(mode: Mode, loaded: State, catalog: Catalog, ask: Oracle, done: set<string>, q: string, i: nat): Node
    requires q in loaded.files && i < |loaded.files[q].models|
  {
    var e := loaded.files[q].models[i];
    match NameOf(e)
    case Str(m) =>
      if m in done && m in catalog && Str(m) in loaded.index && loaded.index[Str(m)] == q
         && FindNode(loaded.files[q].models, Str(m)) == Some(i)
      then UpdateNode(mode, m, e, catalog[m], ask).1
      else e
    case _ => e
  }

  /** The loaded files once the models in `done` are updated: nothing but their found entries differs. */
  function FilesAfterUpdates(mode: Mode, loaded: State, catalog: Catalog, ask: Oracle, done: set<string>): (r: map<string, Doc>)
    ensures r.Keys == loaded.files.Keys
    ensures forall q :: q in r ==> |r[q].models| == |loaded.files[q].models|
  {
    map q | q in loaded.files ::
      loaded.files[q].(models := seq(|loaded.files[q].models|, i requires 0 <= i < |loaded.files[q].models| =>
                                        EntryAfterUpdates(mode, loaded, catalog, ask, done, q, i)))
  }

  /** Before any update the files are as loaded. */
  lemma FilesAfterNoUpdates(mode: Mode, loaded: State, catalog: Catalog, ask: Oracle)
    ensures FilesAfterUpdates(mode, loaded, catalog, ask, {}) == loaded.files
  {
    var r := FilesAfterUpdates(mode, loaded, catalog, ask, {});
    forall q | q in loaded.files ensures r[q] == loaded.files[q] {
      assert r[q].models == loaded.files[q].models;
    }
  }

  /** Handling `n` too changes only the entry first found for `n` in the file the index sends it to. */
  lemma EntryAfterStep(mode: Mode, loaded: State, catalog: Catalog, ask: Oracle, done: set<string>, n: string, q: string, j: nat)
    requires n in catalog && Str(n) in loaded.index && n !in done
    requires q in loaded.files && j < |loaded.files[q].models|
    ensures EntryAfterUpdates(mode, loaded, catalog, ask, done + {n}, q, j)
      == if q == loaded.index[Str(n)] && FindNode(loaded.files[q].models, Str(n)) == Some(j)
         then UpdateNode(mode, n, loaded.files[q].models[j], catalog[n], ask).1
         else EntryAfterUpdates(mode, loaded, catalog, ask, done, q, j)
  {
  }

  /** An update keeps every name, so the updated files have the names of the loaded ones, place by place. */
  lemma FilesAfterUpdatesNames(mode: Mode, loaded: State, catalog: Catalog, ask: Oracle, done: set<string>, q: string)
    requires q in loaded.files
    ensures SameNames(loaded.files[q].models, FilesAfterUpdates(mode, loaded, catalog, ask, done)[q].models)
  {
    var a := loaded.files[q].models;
    var b := FilesAfterUpdates(mode, loaded, catalog, ask, done)[q].models;
    forall i | 0 <= i < |a| ensures NameOf(a[i]) == NameOf(b[i]) {
      assert b[i] == EntryAfterUpdates(mode, loaded, catalog, ask, done, q, i);
      match NameOf(a[i])
      case Str(m) =>
        if m in done && m in catalog && Str(m) in loaded.index {
          UpdateNodeKeeps(mode, m, a[i], catalog[m], ask);
        }
      case _ =>
    }
  }

  /** Updating `n` in the files after `done` gives the files after `done` and `n`. */
  lemma FilesAfterUpdatesStep(mode: Mode, loaded: State, catalog: Catalog, ask: Oracle, done: set<string>, n: string)
    requires n in catalog && Str(n) in loaded.index && n !in done
    ensures UpdateInFiles(mode, FilesAfterUpdates(mode, loaded, catalog, ask, done), loaded.index[Str(n)], n, catalog[n], ask).1
         == FilesAfterUpdates(mode, loaded, catalog, ask, done + {n})
  {
    var f := FilesAfterUpdates(mode, loaded, catalog, ask, done);
    var q := loaded.index[Str(n)];
    if q in loaded.files {
      FilesAfterUpdatesNames(mode, loaded, catalog, ask, done, q);
      FindNodeByNames(loaded.files[q].models, f[q].models, Str(n));
    }
    if q in loaded.files && FindNode(loaded.files[q].models, Str(n)).Some? {
      FilesAfterUpdatesFound(mode, loaded, catalog, ask, done, n);
    } else {
      FilesAfterUpdatesMissing(mode, loaded, catalog, ask, done, n);
    }
  }

  /** A model with no entry to update leaves the files after `done` as they are. */
  lemma FilesAfterUpdatesMissing(mode: Mode, loaded: State, catalog: Catalog, ask: Oracle, done: set<string>, n: string)
    requires n in catalog && Str(n) in loaded.index && n !in done
    requires loaded.index[Str(n)] in loaded.files ==> FindNode(loaded.files[loaded.index[Str(n)]].models, Str(n)).None?
    ensures FilesAfterUpdates(mode, loaded, catalog, ask, done) == FilesAfterUpdates(mode, loaded, catalog, ask, done + {n})
  {
    var f := FilesAfterUpdates(mode, loaded, catalog, ask, done);
    var g := FilesAfterUpdates(mode, loaded, catalog, ask, done + {n});
    forall p | p in loaded.files ensures f[p] == g[p] {
      forall j | 0 <= j < |loaded.files[p].models| ensures f[p].models[j] == g[p].models[j] {
        EntryAfterStep(mode, loaded, catalog, ask, done, n, p, j);
      }
      assert f[p].models == g[p].models;
    }
  }

  /** A model found at place `i` of its file: the files after `done` and `n` have its update there. */
  lemma FilesAfterUpdatesFound(mode: Mode, loaded: State, catalog: Catalog, ask: Oracle, done: set<string>, n: string)
    requires n in catalog && Str(n) in loaded.index && n !in done
    requires loaded.index[Str(n)] in loaded.files && FindNode(loaded.files[loaded.index[Str(n)]].models, Str(n)).Some?
    ensures var q := loaded.index[Str(n)];
      var i := FindNode(loaded.files[q].models, Str(n)).value;
      var f := FilesAfterUpdates(mode, loaded, catalog, ask, done);
      f[q].models[i] == loaded.files[q].models[i]
      && FilesAfterUpdates(mode, loaded, catalog, ask, done + {n})
         == f[q := f[q].(models := f[q].models[i := UpdateNode(mode, n, loaded.files[q].models[i], catalog[n], ask).1])]
  {
    var q := loaded.index[Str(n)];
    var i := FindNode(loaded.files[q].models, Str(n)).value;
    var f := FilesAfterUpdates(mode, loaded, catalog, ask, done);
    var g := FilesAfterUpdates(mode, loaded, catalog, ask, done + {n});
    var r := f[q := f[q].(models := f[q].models[i := UpdateNode(mode, n, loaded.files[q].models[i], catalog[n], ask).1])];
    assert f[q].models[i] == EntryAfterUpdates(mode, loaded, catalog, ask, done, q, i);
    forall p | p in loaded.files ensures r[p] == g[p] {
      forall j | 0 <= j < |loaded.files[p].models| ensures r[p].models[j] == g[p].models[j] {
        EntryAfterStep(mode, loaded, catalog, ask, done, n, p, j);
      }
      assert r[p].models == g[p].models;
    }
  }

  /**
   * The update loop from the `loaded` state, with `done` handled and `left`
   * to go: the files are the loaded ones with the entries of `done` updated
   * and nothing else changed, the models in `done` hold their updated
   * entries, those in `left` still find their entries as loaded, and the
   * answer and the dirty set are those of `done`.
   */
  ghost predicate UpdateLoop(mode: Mode, loaded: State, catalog: Catalog, ask: Oracle, dirty0: set<string>,
                       left: set<string>, done: set<string>, outdated: bool, files: map<string, Doc>, dirty: set<string>)
  {
    left !! done && left + done == ToUpdate(catalog, loaded.index)
    && files.Keys == loaded.files.Keys
    && FilesKeep(loaded.files, files)
    && (mode == Check ==> files == loaded.files)
    && outdated == AnyUpdateSignal(mode, loaded, catalog, ask, done)
    && dirty == dirty0 + UpdatedFilesOf(mode, loaded, catalog, ask, done)
    && files == FilesAfterUpdates(mode, loaded, catalog, ask, done)
    && (forall m, q :: m in left ==> SameEntry(loaded.files, files, q, m))
    && forall m :: m in done ==> HoldsUpdate(mode, loaded, catalog, ask, files, m)
  }

  /** One pass of the update loop, as `_update_existing_model_in_memory` leaves the files, moves `n` to `done`. */
  lemma UpdateLoopStep(mode: Mode, loaded: State, catalog: Catalog, ask: Oracle, dirty0: set<string>,
                       left: set<string>, done: set<string>, outdated: bool, before: map<string, Doc>, dirtyBefore: set<string>,
                       n: string, c: bool, after: map<string, Doc>, dirtyAfter: set<string>)
    requires n in left && UpdateLoop(mode, loaded, catalog, ask, dirty0, left, done, outdated, before, dirtyBefore)
    requires (c, after) == UpdateInFiles(mode, before, loaded.index[Str(n)], n, catalog[n], ask)
    requires dirtyAfter == dirtyBefore + if c then {loaded.index[Str(n)]} else {}
    requires after.Keys == before.Keys && FilesKeep(before, after) && (mode == Check ==> after == before)
    requires forall m, q :: m != n ==> SameEntry(before, after, q, m)
    ensures UpdateLoop(mode, loaded, catalog, ask, dirty0, left - {n}, done + {n}, outdated || c, after, dirtyAfter)
  {
    var path := loaded.index[Str(n)];
    assert SameEntry(loaded.files, before, path, n);
    assert (outdated || c) == AnyUpdateSignal(mode, loaded, catalog, ask, done + {n})
      && dirtyAfter == dirty0 + UpdatedFilesOf(mode, loaded, catalog, ask, done + {n}) by {
      UpdateCountStep(mode, loaded, catalog, ask, dirty0, done, outdated, before, dirtyBefore, n, c, dirtyAfter);
    }
    assert FilesKeep(loaded.files, after) by {
      FilesKeepTrans(loaded.files, before, after);
    }
    assert forall m, q :: m in left - {n} ==> SameEntry(loaded.files, after, q, m) by {
      forall m, q | m in left - {n} ensures SameEntry(loaded.files, after, q, m) {
        SameEntryTrans(loaded.files, before, after, q, m);
      }
    }
    assert forall m :: m in done + {n} ==> HoldsUpdate(mode, loaded, catalog, ask, after, m) by {
      UpdatesHeldStep(mode, loaded, catalog, ask, before, after, done, n);
    }
    assert after == FilesAfterUpdates(mode, loaded, catalog, ask, done + {n}) by {
      FilesAfterUpdatesStep(mode, loaded, catalog, ask, done, n);
    }
    MoveOne(left, done, n);
  }

  /** The counting half of a pass of the update loop: the answer and the dirty set grow by what `n` reports. */
  lemma UpdateCountStep(mode: Mode, loaded: State, catalog: Catalog, ask: Oracle, dirty0: set<string>,
                        done: set<string>, outdated: bool, before: map<string, Doc>, dirtyBefore: set<string>,
                        n: string, c: bool, dirtyAfter: set<string>)
    requires n in catalog && Str(n) in loaded.index
    requires outdated == AnyUpdateSignal(mode, loaded, catalog, ask, done)
    requires dirtyBefore == dirty0 + UpdatedFilesOf(mode, loaded, catalog, ask, done)
    requires SameEntry(loaded.files, before, loaded.index[Str(n)], n)
    requires c == UpdateInFiles(mode, before, loaded.index[Str(n)], n, catalog[n], ask).0
    requires dirtyAfter == dirtyBefore + if c then {loaded.index[Str(n)]} else {}
    ensures (outdated || c) == AnyUpdateSignal(mode, loaded, catalog, ask, done + {n})
    ensures dirtyAfter == dirty0 + UpdatedFilesOf(mode, loaded, catalog, ask, done + {n})
  {
    var path := loaded.index[Str(n)];
    SignalFrame(mode, loaded.files, before, path, n, catalog[n], ask);
    UpdateStep(mode, loaded, catalog, ask, done, n);
  }

  /** One pass of the update loop: earlier updated entries stay, and the entry of `n` is updated. */
  lemma UpdatesHeldStep(mode: Mode, loaded: State, catalog: Catalog, ask: Oracle, before: map<string, Doc>, after: map<string, Doc>,
                        done: set<string>, n: string)
    requires n in catalog && Str(n) in loaded.index && n !in done
    requires SameEntry(loaded.files, before, loaded.index[Str(n)], n)
    requires after == UpdateInFiles(mode, before, loaded.index[Str(n)], n, catalog[n], ask).1
    requires forall m, q :: m != n ==> SameEntry(before, after, q, m)
    requires forall m :: m in done ==> HoldsUpdate(mode, loaded, catalog, ask, before, m)
    ensures forall m :: m in done + {n} ==> HoldsUpdate(mode, loaded, catalog, ask, after, m)
  {
    forall m | m in done + {n} ensures HoldsUpdate(mode, loaded, catalog, ask, after, m) {
      if m == n {
        HoldsUpdateStep(mode, loaded, catalog, ask, before, n);
      } else {
        HoldsUpdateFrame(mode, loaded, catalog, ask, before, after, m);
      }
    }
  }

  /** Appending stubs leaves every updated entry where it is. */
  lemma HoldsUpdateAppend(mode: Mode, loaded: State, catalog: Catalog, ask: Oracle, a: map<string, Doc>, b: map<string, Doc>, m: string)
    requires HoldsUpdate(mode, loaded, catalog, ask, a, m) && AppendsOnly(a, b)
    ensures HoldsUpdate(mode, loaded, catalog, ask, b, m)
  {
    var q := loaded.index[Str(m)];
    if q in loaded.files && FindNode(loaded.files[q].models, Str(m)).Some? {
      var i := FindNode(loaded.files[q].models, Str(m)).value;
      FindNodeExtend(a[q].models, b[q].models, Str(m));
      assert b[q].models[i] == a[q].models[i];
    }
  }

  /** Appending more stubs keeps every stub already placed. */
  lemma HoldsStubAppend(mode: Mode, catalog: Catalog, ask: Oracle, a: map<string, Doc>, b: map<string, Doc>, m: string)
    requires HoldsStub(mode, catalog, ask, a, m) && AppendsOnly(a, b)
    ensures HoldsStub(mode, catalog, ask, b, m)
  {
    if mode != Check && StubFile(catalog[m]).Some? {
      var t := StubFile(catalog[m]).value;
      var k :| 0 <= k < |a[t].models| && a[t].models[k] == BuildStub(mode, m, catalog[m], ask);
      assert b[t].models[k] == a[t].models[k];
    }
  }

  /**
   * The stub loop over `done`, started from `files0` and `dirty0`: the files
   * keep every truthy value and have only been appended to, each placeable
   * stub is in its target, the answer and the dirty set are those of `done`.
   */
  predicate StubLoop(mode: Mode, catalog: Catalog, ask: Oracle, files0: map<string, Doc>, dirty0: set<string>,
                     done: set<string>, outdated: bool, files: map<string, Doc>, dirty: set<string>)
  {
    FilesKeep(files0, files)
    && (mode == Check ==> files == files0)
    && outdated == AnyCreateSignal(mode, catalog, done)
    && dirty == dirty0 + StubFilesOf(mode, catalog, done)
    && AppendsOnly(files0, files)
    && forall m :: m in done ==> HoldsStub(mode, catalog, ask, files, m)
  }

  /** One pass of the stub loop, as `_create_new_model_stub_in_memory` leaves the files, extends it by `n`. */
  lemma StubLoopStep(mode: Mode, catalog: Catalog, ask: Oracle, files0: map<string, Doc>, dirty0: set<string>, done: set<string>,
                     outdated: bool, before: map<string, Doc>, dirtyBefore: set<string>,
                     n: string, c: bool, after: map<string, Doc>, dirtyAfter: set<string>)
    requires n in catalog && StubLoop(mode, catalog, ask, files0, dirty0, done, outdated, before, dirtyBefore)
    requires c == CreateSignal(mode, catalog[n]) && FilesKeep(before, after)
    requires mode == Check || StubFile(catalog[n]).None? ==> after == before && dirtyAfter == dirtyBefore
    requires mode != Check && StubFile(catalog[n]).Some? ==>
      after == AddStub(before, StubFile(catalog[n]).value, BuildStub(mode, n, catalog[n], ask))
      && dirtyAfter == dirtyBefore + {StubFile(catalog[n]).value}
    ensures StubLoop(mode, catalog, ask, files0, dirty0, done + {n}, outdated || c, after, dirtyAfter)
  {
    assert FilesKeep(files0, after) by {
      FilesKeepTrans(files0, before, after);
    }
    assert (outdated || c) == AnyCreateSignal(mode, catalog, done + {n})
      && dirtyAfter == dirty0 + StubFilesOf(mode, catalog, done + {n}) by {
      CreateStep(mode, catalog, done, n);
    }
    assert AppendsOnly(files0, after) && forall m :: m in done + {n} ==> HoldsStub(mode, catalog, ask, after, m) by {
      StubsPlacedStep(mode, catalog, ask, files0, before, after, done, n);
    }
  }

  /** The placing half of a pass of the stub loop: earlier stubs stay, and the stub of `n` is placed when it can be. */
  lemma StubsPlacedStep(mode: Mode, catalog: Catalog, ask: Oracle, files0: map<string, Doc>, before: map<string, Doc>, after: map<string, Doc>,
                        done: set<string>, n: string)
    requires n in catalog && AppendsOnly(files0, before)
    requires forall m :: m in done ==> HoldsStub(mode, catalog, ask, before, m)
    requires mode == Check || StubFile(catalog[n]).None? ==> after == before
    requires mode != Check && StubFile(catalog[n]).Some? ==> after == AddStub(before, StubFile(catalog[n]).value, BuildStub(mode, n, catalog[n], ask))
    ensures AppendsOnly(files0, after)
    ensures forall m :: m in done + {n} ==> HoldsStub(mode, catalog, ask, after, m)
  {
    if mode != Check && StubFile(catalog[n]).Some? {
      AddStubAppends(before, StubFile(catalog[n]).value, BuildStub(mode, n, catalog[n], ask));
    }
    AppendsOnlyTrans(files0, before, after);
    forall m | m in done + {n} ensures HoldsStub(mode, catalog, ask, after, m) {
      if m != n {
        HoldsStubAppend(mode, catalog, ask, before, after, m);
      }
    }
  }

  /** The models of `done` whose stubs go to file `p`. */
  function PlacedIn(mode: Mode, catalog: Catalog, done: set<string>, p: string): set<string>
  {
    set m | m in done && m in catalog && mode != Check && StubFile(catalog[m]) == Some(p)
  }

  /** `node` is the stub of a model of `done` whose stub goes to file `p`. */
  predicate StubOf(mode: Mode, catalog: Catalog, ask: Oracle, done: set<string>, p: string, node: Node)
  {
    match NameOf(node)
    case Str(m) => m in PlacedIn(mode, catalog, done, p) && node == BuildStub(mode, m, catalog[m], ask)
    case _ => false
  }

  /** How many `models` entries file `p` had before any stub. */
  function Before(files0: map<string, Doc>, p: string): nat
  {
    if p in files0 then |files0[p].models| else 0
  }

  /** A file created for stubs: `version: 2` and no list but `models`. */
  predicate NewStubFile(d: Doc)
  {
    d.header == map["version" := Other("2", true)] && d.sources == [] && d.seeds == [] && d.snapshots == []
  }

  /** Adding `n` to `done` places it in its own stub file and nowhere else. */
  lemma PlacedInStep(mode: Mode, catalog: Catalog, done: set<string>, n: string, p: string)
    requires n in catalog
    ensures PlacedIn(mode, catalog, done + {n}, p)
      == PlacedIn(mode, catalog, done, p) + if mode != Check && StubFile(catalog[n]) == Some(p) then {n} else {}
  {
  }

  /** A file that no stub of `done` goes to has none placed in it. */
  lemma PlacedInNone(mode: Mode, catalog: Catalog, done: set<string>, p: string)
    requires p !in StubFilesOf(mode, catalog, done)
    ensures PlacedIn(mode, catalog, done, p) == {}
  {
  }

  /** `x` at a place at or past `from` is in the suffix from there. */
  lemma InSuffix(s: seq<Node>, from: nat, k: nat, x: Node)
    requires from <= k < |s| && s[k] == x
    ensures from <= |s| && x in s[from..]
  {
    assert s[from..][k - from] == x;
  }

  /** The files are those of `files0` and the stub files of `done`. */
  predicate StubKeys(mode: Mode, catalog: Catalog, files0: map<string, Doc>, done: set<string>, files: map<string, Doc>)
  {
    files.Keys == files0.Keys + StubFilesOf(mode, catalog, done)
  }

  /** A file created for stubs is a bare `version: 2` file. */
  predicate StubNewFiles(files0: map<string, Doc>, files: map<string, Doc>)
  {
    forall p :: p in files && p !in files0 ==> NewStubFile(files[p])
  }

  /** Each file holds its earlier entries and one more per model of `done` placed there. */
  predicate StubCounts(mode: Mode, catalog: Catalog, files0: map<string, Doc>, done: set<string>, files: map<string, Doc>)
  {
    forall p :: p in files ==> |files[p].models| == Before(files0, p) + |PlacedIn(mode, catalog, done, p)|
  }

  /** Past its earlier entries, each `models` list holds only stubs of models of `done` placed there. */
  predicate StubTails(mode: Mode, catalog: Catalog, ask: Oracle, files0: map<string, Doc>, done: set<string>, files: map<string, Doc>)
  {
    forall p, k {:trigger StubOf(mode, catalog, ask, done, p, files[p].models[k])} ::
      p in files && Before(files0, p) <= k < |files[p].models| ==> StubOf(mode, catalog, ask, done, p, files[p].models[k])
  }

  /** Every placed stub of `done` is past the earlier entries of its target. */
  predicate StubsPlaced(mode: Mode, catalog: Catalog, ask: Oracle, files0: map<string, Doc>, done: set<string>, files: map<string, Doc>)
  {
    forall m :: m in done && m in catalog && mode != Check && StubFile(catalog[m]).Some? ==>
      var t := StubFile(catalog[m]).value;
      t in files && Before(files0, t) <= |files[t].models|
      && BuildStub(mode, m, catalog[m], ask) in files[t].models[Before(files0, t)..]
  }

  /**
   * The stub loop over `done` adds nothing but the stubs: the files are
   * those of `files0` and the stub targets, a created file is a bare
   * `version: 2` file, and past its earlier entries each `models` list holds
   * exactly one entry per model placed there, each the stub of such a model,
   * with every placed stub among them.
   */
  predicate StubFrame(mode: Mode, catalog: Catalog, ask: Oracle, files0: map<string, Doc>, done: set<string>, files: map<string, Doc>)
  {
    StubKeys(mode, catalog, files0, done, files)
    && StubNewFiles(files0, files)
    && StubCounts(mode, catalog, files0, done, files)
    && StubTails(mode, catalog, ask, files0, done, files)
    && StubsPlaced(mode, catalog, ask, files0, done, files)
  }

  /** Before any stub, the frame holds of the files as they are. */
  lemma StubFrameStart(mode: Mode, catalog: Catalog, ask: Oracle, files0: map<string, Doc>)
    ensures StubFrame(mode, catalog, ask, files0, {}, files0)
  {
    assert StubFilesOf(mode, catalog, {}) == {};
    forall p | p in files0 ensures PlacedIn(mode, catalog, {}, p) == {} {
    }
  }

  /** A model whose stub is not placed leaves the counts as they were. */
  lemma StubCountsUnplaced(mode: Mode, catalog: Catalog, files0: map<string, Doc>, done: set<string>, files: map<string, Doc>, n: string)
    requires n in catalog && (mode == Check || StubFile(catalog[n]).None?)
    requires StubCounts(mode, catalog, files0, done, files)
    ensures StubCounts(mode, catalog, files0, done + {n}, files)
  {
    forall p | p in files ensures |files[p].models| == Before(files0, p) + |PlacedIn(mode, catalog, done + {n}, p)| {
      PlacedInStep(mode, catalog, done, n, p);
    }
  }

  /** A stub of `done` is a stub of `done` and one more model. */
  lemma StubTailsGrow(mode: Mode, catalog: Catalog, ask: Oracle, files0: map<string, Doc>, done: set<string>, files: map<string, Doc>, n: string)
    requires StubTails(mode, catalog, ask, files0, done, files)
    ensures StubTails(mode, catalog, ask, files0, done + {n}, files)
  {
    forall p, k | p in files && Before(files0, p) <= k < |files[p].models|
      ensures StubOf(mode, catalog, ask, done + {n}, p, files[p].models[k])
    {
      assert StubOf(mode, catalog, ask, done, p, files[p].models[k]);
    }
  }

  /** The files after one more model are those before it and, when its stub is placed, its target. */
  lemma StubKeysStep(mode: Mode, catalog: Catalog, files0: map<string, Doc>, done: set<string>,
                     before: map<string, Doc>, after: map<string, Doc>, n: string)
    requires n in catalog && StubKeys(mode, catalog, files0, done, before)
    requires after.Keys == before.Keys + if mode != Check && StubFile(catalog[n]).Some? then {StubFile(catalog[n]).value} else {}
    ensures StubKeys(mode, catalog, files0, done + {n}, after)
  {
    CreateStep(mode, catalog, done, n);
  }

  /** A model whose stub is not placed places nothing. */
  lemma StubsPlacedUnplaced(mode: Mode, catalog: Catalog, ask: Oracle, files0: map<string, Doc>, done: set<string>, files: map<string, Doc>, n: string)
    requires n in catalog && (mode == Check || StubFile(catalog[n]).None?)
    requires StubsPlaced(mode, catalog, ask, files0, done, files)
    ensures StubsPlaced(mode, catalog, ask, files0, done + {n}, files)
  {
  }

  /** Appending a stub to `t`, or creating `t` as a bare file with it, keeps the created files bare. */
  lemma StubNewFilesPlaced(files0: map<string, Doc>, before: map<string, Doc>, t: string, stub: Node)
    requires StubNewFiles(files0, before)
    ensures StubNewFiles(files0, AddStub(before, t, stub))
  {
    var after := AddStub(before, t, stub);
    forall p | p in after && p !in files0 ensures NewStubFile(after[p]) {
      if p == t && t in before {
        assert DocKeeps(before[t], after[t]);
      }
    }
  }

  /** A model whose stub is not placed leaves the frame as it was, with one more model handled. */
  lemma StubFrameUnplaced(mode: Mode, catalog: Catalog, ask: Oracle, files0: map<string, Doc>, done: set<string>, files: map<string, Doc>, n: string)
    requires n in catalog && (mode == Check || StubFile(catalog[n]).None?)
    requires StubFrame(mode, catalog, ask, files0, done, files)
    ensures StubFrame(mode, catalog, ask, files0, done + {n}, files)
  {
    StubKeysStep(mode, catalog, files0, done, files, files, n);
    StubCountsUnplaced(mode, catalog, files0, done, files, n);
    StubTailsGrow(mode, catalog, ask, files0, done, files, n);
    StubsPlacedUnplaced(mode, catalog, ask, files0, done, files, n);
  }

  /** Appending a stub to `t` keeps the counts, with `n` placed there. */
  lemma StubCountsPlaced(mode: Mode, catalog: Catalog, files0: map<string, Doc>, done: set<string>, before: map<string, Doc>,
                         after: map<string, Doc>, n: string, t: string)
    requires n in catalog && n !in done && mode != Check && StubFile(catalog[n]) == Some(t)
    requires t !in before ==> t !in StubFilesOf(mode, catalog, done) && t !in files0
    requires StubCounts(mode, catalog, files0, done, before)
    requires after.Keys == before.Keys + {t} && forall p :: p in before && p != t ==> after[p] == before[p]
    requires t in before ==> |after[t].models| == |before[t].models| + 1
    requires t !in before ==> |after[t].models| == 1
    ensures StubCounts(mode, catalog, files0, done + {n}, after)
  {
    forall p | p in after ensures |after[p].models| == Before(files0, p) + |PlacedIn(mode, catalog, done + {n}, p)| {
      PlacedInStep(mode, catalog, done, n, p);
      if p == t && t !in before {
        PlacedInNone(mode, catalog, done, t);
      }
    }
  }

  /** Appending the stub of `n` to `t` keeps the tails made of placed stubs. */
  lemma StubTailsPlaced(mode: Mode, catalog: Catalog, ask: Oracle, files0: map<string, Doc>, done: set<string>, before: map<string, Doc>,
                        after: map<string, Doc>, n: string, t: string)
    requires n in catalog && mode != Check && StubFile(catalog[n]) == Some(t)
    requires StubTails(mode, catalog, ask, files0, done, before) && StubCounts(mode, catalog, files0, done, before)
    requires after.Keys == before.Keys + {t} && forall p :: p in before && p != t ==> after[p] == before[p]
    requires t in before ==> after[t].models == before[t].models + [BuildStub(mode, n, catalog[n], ask)]
    requires t !in before ==> after[t].models == [BuildStub(mode, n, catalog[n], ask)] && t !in files0
    ensures StubTails(mode, catalog, ask, files0, done + {n}, after)
  {
    StubTailsGrow(mode, catalog, ask, files0, done, before, n);
    var stub := BuildStub(mode, n, catalog[n], ask);
    assert StubOf(mode, catalog, ask, done + {n}, t, stub);
    forall p, k | p in after && Before(files0, p) <= k < |after[p].models|
      ensures StubOf(mode, catalog, ask, done + {n}, p, after[p].models[k])
    {
      if p == t && k == |after[p].models| - 1 {
      } else {
        assert p in before && k < |before[p].models| && after[p].models[k] == before[p].models[k];
      }
    }
  }

  /** Appending the stub of `n` to `t` keeps every placed stub, and places that of `n`. */
  lemma StubsPlacedPlaced(mode: Mode, catalog: Catalog, ask: Oracle, files0: map<string, Doc>, done: set<string>, before: map<string, Doc>,
                          after: map<string, Doc>, n: string, t: string)
    requires n in catalog && mode != Check && StubFile(catalog[n]) == Some(t)
    requires StubsPlaced(mode, catalog, ask, files0, done, before)
    requires after.Keys == before.Keys + {t} && forall p :: p in before && p != t ==> after[p] == before[p]
    requires t in before ==> after[t].models == before[t].models + [BuildStub(mode, n, catalog[n], ask)] && Before(files0, t) <= |before[t].models|
    requires t !in before ==> after[t].models == [BuildStub(mode, n, catalog[n], ask)] && t !in files0
    ensures StubsPlaced(mode, catalog, ask, files0, done + {n}, after)
  {
    forall m | m in done + {n} && m in catalog && mode != Check && StubFile(catalog[m]).Some?
      ensures var u := StubFile(catalog[m]).value;
        u in after && Before(files0, u) <= |after[u].models| && BuildStub(mode, m, catalog[m], ask) in after[u].models[Before(files0, u)..]
    {
      if m == n {
        InSuffix(after[t].models, Before(files0, t), |after[t].models| - 1, BuildStub(mode, n, catalog[n], ask));
      } else {
        var u := StubFile(catalog[m]).value;
        StubPlacedKept(Before(files0, u), before[u].models, after[u].models, BuildStub(mode, m, catalog[m], ask));
      }
    }
  }

  /** A stub past `from` stays past `from` once more entries are appended. */
  lemma StubPlacedKept(from: nat, before: seq<Node>, after: seq<Node>, x: Node)
    requires from <= |before| && x in before[from..] && before <= after
    ensures from <= |after| && x in after[from..]
  {
    var k :| 0 <= k < |before[from..]| && before[from..][k] == x;
    InSuffix(after, from, from + k, x);
  }

  /** A stub appended to its target keeps the frame, with one more model handled. */
  lemma StubFramePlaced(mode: Mode, catalog: Catalog, ask: Oracle, files0: map<string, Doc>, done: set<string>,
                        before: map<string, Doc>, n: string)
    requires n in catalog && n !in done && mode != Check && StubFile(catalog[n]).Some?
    requires StubFrame(mode, catalog, ask, files0, done, before)
    ensures StubFrame(mode, catalog, ask, files0, done + {n},
                      AddStub(before, StubFile(catalog[n]).value, BuildStub(mode, n, catalog[n], ask)))
  {
    var t := StubFile(catalog[n]).value;
    var after := AddStub(before, t, BuildStub(mode, n, catalog[n], ask));
    StubKeysStep(mode, catalog, files0, done, before, after, n);
    StubNewFilesPlaced(files0, before, t, BuildStub(mode, n, catalog[n], ask));
    assert t !in before ==> t !in StubFilesOf(mode, catalog, done) && t !in files0;
    assert t in before ==> Before(files0, t) <= |before[t].models|;
    StubCountsPlaced(mode, catalog, files0, done, before, after, n, t);
    StubTailsPlaced(mode, catalog, ask, files0, done, before, after, n, t);
    StubsPlacedPlaced(mode, catalog, ask, files0, done, before, after, n, t);
  }

  /** A documented model whose update reported a change is flushed with its updated entry. */
  lemma FlushedUpdate(mode: Mode, loaded: State, catalog: Catalog, ask: Oracle, files: map<string, Doc>, dirty: set<string>, m: string)
    requires m in catalog && Str(m) in loaded.index && UpdateSignal(mode, loaded, catalog, m, ask)
    requires HoldsUpdate(mode, loaded, catalog, ask, files, m) && loaded.index[Str(m)] in dirty
    ensures var q := loaded.index[Str(m)];
      q in loaded.files && FindNode(loaded.files[q].models, Str(m)).Some?
      && var i := FindNode(loaded.files[q].models, Str(m)).value;
         q in Flushed(files, dirty) && i < |Flushed(files, dirty)[q].models|
         && Flushed(files, dirty)[q].models[i] == UpdateNode(mode, m, loaded.files[q].models[i], catalog[m], ask).1
  {
  }

  /**
   * The documents after both model loops of `write` on the `loaded` state:
   * no truthy value is lost and check mode changes nothing; every documented
   * model holds its update where it was loaded and every placeable stub is
   * in its target file; and the documents are exactly the loaded ones with
   * those updates (`FilesAfterUpdates`) followed by those stubs and nothing
   * else (`StubFrame`).
   */
  ghost predicate Reconciled(mode: Mode, loaded: State, catalog: Catalog, ask: Oracle, files: map<string, Doc>)
  {
    var updates := FilesAfterUpdates(mode, loaded, catalog, ask, ToUpdate(catalog, loaded.index));
    FilesKeep(loaded.files, files)
    && (mode == Check ==> files == loaded.files)
    && (forall m :: m in ToUpdate(catalog, loaded.index) ==> HoldsUpdate(mode, loaded, catalog, ask, files, m))
    && (forall m :: m in ToCreate(catalog, loaded.index) ==> HoldsStub(mode, catalog, ask, files, m))
    && AppendsOnly(updates, files)
    && StubFrame(mode, catalog, ask, updates, ToCreate(catalog, loaded.index), files)
  }

  /** A placed stub is flushed with the file it was appended to. */
  lemma FlushedStub(mode: Mode, catalog: Catalog, ask: Oracle, files: map<string, Doc>, dirty: set<string>, m: string)
    requires HoldsStub(mode, catalog, ask, files, m) && mode != Check && StubFile(catalog[m]).Some?
    requires StubFile(catalog[m]).value in dirty
    ensures var t := StubFile(catalog[m]).value;
      t in Flushed(files, dirty) && BuildStub(mode, m, catalog[m], ask) in Flushed(files, dirty)[t].models
  {
  }

  class DbtYamlWriter {
    const mode: Mode
    /** `yaml_files`: path to loaded (or newly created) document. */
    var yamlFiles: map<string, Doc>
    /** `model_to_file_map`: name to the path of the file that documents it. */
    var modelToFileMap: map<Value, string>
    /** `files_to_write`: the dirty set. */
    var filesToWrite: set<string>
    /** What has been written to disk, path by path. */
    ghost var written: map<string, Doc>

    /** Every file marked for writing is held in memory. */
    ghost predicate Valid()
      reads this
    {
      filesToWrite <= yamlFiles.Keys
    }

    /** A writer in a valid mode starts with nothing loaded, indexed or dirty. */
    constructor (m: Mode)
      ensures mode == m && Valid()
      ensures yamlFiles == map[] && modelToFileMap == map[] && filesToWrite == {} && written == map[]
    {
      mode := m;
      yamlFiles := map[];
      modelToFileMap := map[];
      filesToWrite := {};
      written := map[];
    }

    /** `_find_schema_files`: the three walks, keeping the schema files. */
    method FindSchemaFiles(tree: seq<WalkedFile>) returns (files: seq<WalkedFile>)
      ensures files == SchemaFiles(tree)
    {
      var models := WalkTop(tree, "models");
      var seeds := WalkTop(tree, "seeds");
      var snapshots := WalkTop(tree, "snapshots");
      files := models + seeds + snapshots;
    }

    /** One walk: the schema files under `top`, in walk order. */
    method WalkTop(tree: seq<WalkedFile>, top: string) returns (found: seq<WalkedFile>)
      ensures found == FilesUnder(tree, top)
    {
      found := [];
      var k := 0;
      while k < |tree|
        invariant 0 <= k <= |tree|
        invariant found == FilesUnder(tree[..k], top)
      {
        FilesUnderStep(tree, top, k);
        if tree[k].top == top && IsSchemaName(tree[k].name) {
          found := found + [tree[k]];
        }
        k := k + 1;
      }
      assert tree[..k] == tree;
    }

    /**
     * `_load_and_map_existing_yamls`: each schema file in scan order is
     * loaded and its names indexed, until a file fails to parse.
     */
    method LoadAndMapExistingYamls(tree: seq<WalkedFile>) returns (err: Option<WriterError>)
      requires Valid()
      modifies this`yamlFiles, this`modelToFileMap
      ensures Valid()
      ensures (State(yamlFiles, modelToFileMap), err) == Load(State(old(yamlFiles), old(modelToFileMap)), SchemaFiles(tree))
    {
      var files := FindSchemaFiles(tree);
      var start := State(yamlFiles, modelToFileMap);
      var k := 0;
      while k < |files|
        invariant 0 <= k <= |files|
        invariant Load(start, files[..k]) == (State(yamlFiles, modelToFileMap), None)
        invariant old(yamlFiles).Keys <= yamlFiles.Keys
      {
        LoadPrefixStep(start, files, k);
        err := LoadOne(files[k]);
        if err.Some? {
          LoadStopsAtError(start, files, k + 1);
          return;
        }
        k := k + 1;
      }
      assert files[..k] == files;
      err := None;
    }

    /** One schema file: loaded and indexed, or its parse error. */
    method LoadOne(f: WalkedFile) returns (err: Option<WriterError>)
      modifies this`yamlFiles, this`modelToFileMap
      ensures old(yamlFiles).Keys <= yamlFiles.Keys
      ensures match LoadFile(State(old(yamlFiles), old(modelToFileMap)), f)
        case Success(next) => err.None? && State(yamlFiles, modelToFileMap) == next
        case Failure(e) => err == Some(e) && yamlFiles == old(yamlFiles) && modelToFileMap == old(modelToFileMap)
    {
      match f.content {
        case Malformed =>
          return Some(WriterError("Failed to parse YAML file: " + f.path));
        case Empty =>
          return None;
        case Parsed(d) =>
          yamlFiles := yamlFiles[f.path := d];
          IndexDocument(d, f.path);
          return None;
      }
    }

    /** The index loop of one document: its four lists in order. */
    method IndexDocument(d: Doc, path: string)
      modifies this`modelToFileMap
      ensures modelToFileMap == IndexSections(old(modelToFileMap), Sections(d), path)
    {
      var secs := Sections(d);
      var s := 0;
      while s < |secs|
        invariant 0 <= s <= |secs|
        invariant modelToFileMap == IndexSections(old(modelToFileMap), secs[..s], path)
      {
        IndexSectionsStep(old(modelToFileMap), secs, s, path);
        IndexList(secs[s], path);
        s := s + 1;
      }
      assert secs[..s] == secs;
    }

    /** The index loop of one list: each truthy name maps to `path`, the later entry winning. */
    method IndexList(nodes: seq<Node>, path: string)
      modifies this`modelToFileMap
      ensures modelToFileMap == IndexNodes(old(modelToFileMap), nodes, path)
    {
      var j := 0;
      while j < |nodes|
        invariant 0 <= j <= |nodes|
        invariant modelToFileMap == IndexNodes(old(modelToFileMap), nodes[..j], path)
      {
        IndexNodesStep(old(modelToFileMap), nodes, j, path);
        var name := NameOf(nodes[j]);
        if Truthy(name) {
          modelToFileMap := modelToFileMap[name := path];
        }
        j := j + 1;
      }
      assert nodes[..j] == nodes;
    }

    /** The key loop of one configured column: each missing generated key through the policy. */
    method FillColumnKeys(col: Fields, gen: seq<(string, Value)>, site: Site, ask: Oracle) returns (changed: bool, filled: Fields)
      ensures (changed, filled) == FillKeys(mode, col, gen, site, ask)
    {
      changed, filled := false, col;
      var k := 0;
      while k < |gen|
        invariant 0 <= k <= |gen|
        invariant (changed, filled) == FillKeys(mode, col, gen[..k], site, ask)
      {
        FillKeysStep(mode, col, gen, site, ask, k);
        var (key, value) := gen[k];
        if !Truthy(Get(filled, key)) {
          var (c, f) := ProcessUpdate(mode, filled, key, value, site, ask);
          filled := f;
          changed := changed || c;
        }
        k := k + 1;
      }
      assert gen[..k] == gen;
    }

    /**
     * `_update_existing_model_in_memory`: the first `models` entry named
     * `model` in `path` gets its missing description and column keys filled,
     * and the file is marked dirty when anything was reported.
     */
    method UpdateExistingModelInMemory(path: string, model: string, ai: CatalogModel, ask: Oracle) returns (changed: bool)
      requires Valid()
      modifies this`yamlFiles, this`filesToWrite
      ensures Valid()
      ensures (changed, yamlFiles) == UpdateInFiles(mode, old(yamlFiles), path, model, ai, ask)
      ensures filesToWrite == old(filesToWrite) + if changed then {path} else {}
      ensures yamlFiles.Keys == old(yamlFiles).Keys && FilesKeep(old(yamlFiles), yamlFiles)
      ensures mode == Check ==> yamlFiles == old(yamlFiles)
      ensures forall m, q :: m != model ==> SameEntry(old(yamlFiles), yamlFiles, q, m)
    {
      UpdateInFilesFacts(mode, yamlFiles, path, model, ai, ask);
      changed := false;
      if path !in yamlFiles {
        return;
      }
      var doc := yamlFiles[path];
      var found := FindNode(doc.models, Str(model));
      if found.None? {
        return;
      }
      var i := found.value;
      var node;
      changed, node := UpdateNodeInMemory(model, doc.models[i], ai, ask);
      yamlFiles := yamlFiles[path := doc.(models := doc.models[i := node])];
      if changed {
        filesToWrite := filesToWrite + {path};
      }
    }

    /** The entry found: its description, then its configured columns. */
    method UpdateNodeInMemory(model: string, node: Node, ai: CatalogModel, ask: Oracle) returns (changed: bool, updated: Node)
      ensures (changed, updated) == UpdateNode(mode, model, node, ai, ask)
    {
      var fields := node.fields;
      changed := false;
      if !Truthy(Get(fields, "description")) && Truthy(ai.description) {
        var outcome := ProcessUpdate(mode, fields, "description", ai.description, ModelSite(model), ask);
        changed, fields := outcome.0, outcome.1;
      }
      var colsChanged, cols := UpdateColumnsInMemory(model, node.columns, ai.columns, ask);
      changed := changed || colsChanged;
      updated := Node(fields, cols);
    }

    /** The column loop of `_update_existing_model_in_memory`: each configured column in order. */
    method UpdateColumnsInMemory(model: string, cols: seq<Fields>, ai: seq<CatalogColumn>, ask: Oracle) returns (changed: bool, updated: seq<Fields>)
      ensures (changed, updated) == UpdateColumns(mode, model, cols, ai, ask)
    {
      changed, updated := false, [];
      var j := 0;
      while j < |cols|
        invariant 0 <= j <= |cols|
        invariant (changed, updated) == UpdateColumns(mode, model, cols[..j], ai, ask)
      {
        UpdateColumnsStep(mode, model, cols, ai, ask, j);
        var c, col := UpdateColumnInMemory(model, cols[j], ai, ask);
        updated := updated + [col];
        changed := changed || c;
        j := j + 1;
      }
      assert cols[..j] == cols;
    }

    /** One configured column: the drift check, or its missing keys filled. */
    method UpdateColumnInMemory(model: string, col: Fields, ai: seq<CatalogColumn>, ask: Oracle) returns (changed: bool, updated: Fields)
      ensures (changed, updated) == UpdateColumn(mode, model, col, ai, ask)
    {
      changed, updated := false, col;
      match FindColumn(ai, Get(col, "name")) {
        case None =>
        case Some(aiCol) =>
          if mode == Drift && Truthy(Get(col, "description")) && aiCol.driftStatus == Str("DRIFT") {
            changed := true;
          } else {
            changed, updated := FillColumnKeys(col, aiCol.generated, ColumnSite(model, aiCol.name), ask);
          }
      }
    }

    /** The key loop of one stub column: every generated key through the policy. */
    method FillStubKeys(col: Fields, gen: seq<(string, Value)>, site: Site, ask: Oracle) returns (filled: Fields)
      ensures filled == FillStub(mode, col, gen, site, ask)
    {
      filled := col;
      var k := 0;
      while k < |gen|
        invariant 0 <= k <= |gen|
        invariant filled == FillStub(mode, col, gen[..k], site, ask)
      {
        FillStubStep(mode, col, gen, site, ask, k);
        var (key, value) := gen[k];
        filled := ProcessUpdate(mode, filled, key, value, site, ask).1;
        k := k + 1;
      }
      assert gen[..k] == gen;
    }

    /**
     * `_create_new_model_stub_in_memory`: in check mode only a report; else
     * the stub is built, and placed beside the model's SQL file when its
     * path is known, either appended to that file's `models` or in a new file.
     */
    method CreateNewModelStubInMemory(model: string, ai: CatalogModel, ask: Oracle) returns (changed: bool)
      requires Valid()
      modifies this`yamlFiles, this`filesToWrite
      ensures Valid()
      ensures changed == CreateSignal(mode, ai)
      ensures FilesKeep(old(yamlFiles), yamlFiles)
      ensures mode == Check || StubFile(ai).None? ==> yamlFiles == old(yamlFiles) && filesToWrite == old(filesToWrite)
      ensures mode != Check && StubFile(ai).Some? ==>
        yamlFiles == AddStub(old(yamlFiles), StubFile(ai).value, BuildStub(mode, model, ai, ask))
        && filesToWrite == old(filesToWrite) + {StubFile(ai).value}
    {
      if mode == Check {
        return true;
      }
      var stub := BuildStubInMemory(model, ai, ask);
      var sqlPath := StubPath(ai);
      if sqlPath.None? {
        return false;
      }
      var target := Paths.StubTarget(sqlPath.value);
      yamlFiles := AddStub(yamlFiles, target, stub);
      filesToWrite := filesToWrite + {target};
      return true;
    }

    /** The stub itself: name, description as the policy decides, and the column loop. */
    method BuildStubInMemory(model: string, ai: CatalogModel, ask: Oracle) returns (stub: Node)
      ensures stub == BuildStub(mode, model, ai, ask)
    {
      var fields := ProcessUpdate(mode, map["name" := Str(model)], "description", ai.description, ModelSite(model), ask).1;
      var cols: seq<Fields> := [];
      var j := 0;
      while j < |ai.columns|
        invariant 0 <= j <= |ai.columns|
        invariant cols == StubColumns(mode, model, ai.columns[..j], ask)
      {
        StubColumnsStep(mode, model, ai.columns, ask, j);
        var c := ai.columns[j];
        var col := FillStubKeys(map["name" := Str(c.name)], c.generated, ColumnSite(model, c.name), ask);
        cols := cols + [col];
        j := j + 1;
      }
      assert ai.columns[..j] == ai.columns;
      stub := Node(fields, cols);
    }

    /**
     * `write`: load and index the schema files, update every documented
     * catalog model, stub every undocumented one, and flush the dirty files
     * in update and interactive mode. The answer is whether any model
     * reported a change.
     */
    method Write(catalog: Catalog, tree: seq<WalkedFile>, ask: Oracle) returns (r: Result<bool, WriterError>)
      requires Valid()
      modifies this`yamlFiles, this`modelToFileMap, this`filesToWrite, this`written
      ensures Valid()
      ensures var (loaded, err) := Load(State(old(yamlFiles), old(modelToFileMap)), SchemaFiles(tree));
        modelToFileMap == loaded.index
        && (err.Some? ==>
              r == Failure(err.value) && yamlFiles == loaded.files
              && filesToWrite == old(filesToWrite) && written == old(written))
        && (err.None? ==>
              r == Success(Outdated(mode, loaded, catalog, ask))
              && filesToWrite == old(filesToWrite) + UpdatedFilesOf(mode, loaded, catalog, ask, ToUpdate(catalog, loaded.index))
                 + StubFilesOf(mode, catalog, ToCreate(catalog, loaded.index))
              && Reconciled(mode, loaded, catalog, ask, yamlFiles)
              && (mode == Check || mode == Drift ==> written == old(written))
              && (mode == Update || mode == Interactive ==> written == old(written) + Flushed(yamlFiles, filesToWrite)))
    {
      var err := LoadAndMapExistingYamls(tree);
      if err.Some? {
        return Failure(err.value);
      }
      var outdated := ReconcileLoaded(catalog, ask);
      return Success(outdated);
    }

    /** The part of `write` after a clean load: the two model loops, then the flush. */
    method ReconcileLoaded(catalog: Catalog, ask: Oracle) returns (outdated: bool)
      requires Valid()
      modifies this`yamlFiles, this`filesToWrite, this`written
      ensures Valid()
      ensures var loaded := State(old(yamlFiles), modelToFileMap);
        outdated == Outdated(mode, loaded, catalog, ask)
        && filesToWrite == old(filesToWrite) + UpdatedFilesOf(mode, loaded, catalog, ask, ToUpdate(catalog, loaded.index))
           + StubFilesOf(mode, catalog, ToCreate(catalog, loaded.index))
        && Reconciled(mode, loaded, catalog, ask, yamlFiles)
        && (mode == Check || mode == Drift ==> written == old(written))
        && (mode == Update || mode == Interactive ==> written == old(written) + Flushed(yamlFiles, filesToWrite))
    {
      ghost var loaded := State(yamlFiles, modelToFileMap);
      ghost var updates := FilesAfterUpdates(mode, loaded, catalog, ask, ToUpdate(catalog, loaded.index));
      var updated := UpdateDocumentedModels(catalog, ask);
      ghost var afterUpdates := yamlFiles;
      var created := CreateMissingModels(catalog, ask);
      outdated := updated || created;
      FilesKeepTrans(old(yamlFiles), afterUpdates, yamlFiles);
      forall m | m in ToUpdate(catalog, loaded.index) ensures HoldsUpdate(mode, loaded, catalog, ask, yamlFiles, m) {
        HoldsUpdateAppend(mode, loaded, catalog, ask, afterUpdates, yamlFiles, m);
      }
      FlushIfDirty();
    }

    /** The last step of `write`: in update and interactive mode, a non-empty dirty set is flushed. */
    method FlushIfDirty()
      requires Valid()
      modifies this`written
      ensures mode == Check || mode == Drift ==> written == old(written)
      ensures mode == Update || mode == Interactive ==> written == old(written) + Flushed(yamlFiles, filesToWrite)
    {
      if mode != Check && mode != Drift && filesToWrite != {} {
        WriteModifiedFilesToDisk();
      } else {
        FlushedNone(written, yamlFiles);
      }
    }

    /**
     * Where the update loop stands: the models in `done` were updated from
     * the `loaded` state, and each holds its updated entry where it was
     * loaded; those in `left` still find their entries as loaded.
     */
    ghost predicate UpdatesSoFar(loaded: State, catalog: Catalog, ask: Oracle, left: set<string>, done: set<string>,
                                 outdated: bool, dirty0: set<string>)
      reads this
    {
      modelToFileMap == loaded.index
      && Valid()
      && UpdateLoop(mode, loaded, catalog, ask, dirty0, left, done, outdated, yamlFiles, filesToWrite)
    }

    /** The loop of `write` over the catalog models the index knows, in any order. */
    method UpdateDocumentedModels(catalog: Catalog, ask: Oracle) returns (outdated: bool)
      requires Valid()
      modifies this`yamlFiles, this`filesToWrite
      ensures Valid()
      ensures var loaded := State(old(yamlFiles), modelToFileMap);
        outdated == AnyUpdateSignal(mode, loaded, catalog, ask, ToUpdate(catalog, modelToFileMap))
        && filesToWrite == old(filesToWrite) + UpdatedFilesOf(mode, loaded, catalog, ask, ToUpdate(catalog, modelToFileMap))
        && FilesKeep(old(yamlFiles), yamlFiles)
        && (mode == Check ==> yamlFiles == old(yamlFiles))
        && yamlFiles == FilesAfterUpdates(mode, loaded, catalog, ask, ToUpdate(catalog, modelToFileMap))
        && forall m :: m in ToUpdate(catalog, modelToFileMap) ==> HoldsUpdate(mode, loaded, catalog, ask, yamlFiles, m)
    {
      ghost var loaded := State(yamlFiles, modelToFileMap);
      FilesAfterNoUpdates(mode, loaded, catalog, ask);
      var left := ToUpdate(catalog, modelToFileMap);
      ghost var done: set<string> := {};
      outdated := false;
      while left != {}
        invariant UpdatesSoFar(loaded, catalog, ask, left, done, outdated, old(filesToWrite))
        decreases left
      {
        var n :| n in left;
        outdated := UpdateDocumentedModel(loaded, catalog, ask, left, done, outdated, old(filesToWrite), n);
        left := left - {n};
        done := done + {n};
      }
    }

    /** One pass of the update loop: model `n` moves from `left` to `done`. */
    method UpdateDocumentedModel(ghost loaded: State, catalog: Catalog, ask: Oracle, ghost left: set<string>, ghost done: set<string>,
                                 outdated0: bool, ghost dirty0: set<string>, n: string) returns (outdated: bool)
      requires n in left && UpdatesSoFar(loaded, catalog, ask, left, done, outdated0, dirty0)
      modifies this`yamlFiles, this`filesToWrite
      ensures UpdatesSoFar(loaded, catalog, ask, left - {n}, done + {n}, outdated, dirty0)
    {
      var path := modelToFileMap[Str(n)];
      ghost var before, dirtyBefore := yamlFiles, filesToWrite;
      var c := UpdateExistingModelInMemory(path, n, catalog[n], ask);
      outdated := outdated0 || c;
      UpdateLoopStep(mode, loaded, catalog, ask, dirty0, left, done, outdated0, before, dirtyBefore, n, c, yamlFiles, filesToWrite);
    }

    /**
     * Where the stub loop stands: the models in `done` were stubbed on top
     * of `files0`, which has only been appended to, each placeable stub is
     * in its target file, and nothing but those stubs was added.
     */
    ghost predicate StubsSoFar(catalog: Catalog, ask: Oracle, files0: map<string, Doc>, dirty0: set<string>,
                               left: set<string>, done: set<string>, outdated: bool)
      reads this
    {
      left !! done && left + done == ToCreate(catalog, modelToFileMap)
      && Valid()
      && StubLoop(mode, catalog, ask, files0, dirty0, done, outdated, yamlFiles, filesToWrite)
      && StubFrame(mode, catalog, ask, files0, done, yamlFiles)
    }

    /** The loop of `write` over the catalog models the index does not know, in any order. */
    method CreateMissingModels(catalog: Catalog, ask: Oracle) returns (outdated: bool)
      requires Valid()
      modifies this`yamlFiles, this`filesToWrite
      ensures Valid()
      ensures outdated == AnyCreateSignal(mode, catalog, ToCreate(catalog, modelToFileMap))
      ensures filesToWrite == old(filesToWrite) + StubFilesOf(mode, catalog, ToCreate(catalog, modelToFileMap))
      ensures FilesKeep(old(yamlFiles), yamlFiles)
      ensures mode == Check ==> yamlFiles == old(yamlFiles)
      ensures AppendsOnly(old(yamlFiles), yamlFiles)
      ensures forall m :: m in ToCreate(catalog, modelToFileMap) ==> HoldsStub(mode, catalog, ask, yamlFiles, m)
      ensures StubFrame(mode, catalog, ask, old(yamlFiles), ToCreate(catalog, modelToFileMap), yamlFiles)
    {
      StubFrameStart(mode, catalog, ask, yamlFiles);
      var left := ToCreate(catalog, modelToFileMap);
      ghost var done: set<string> := {};
      outdated := false;
      while left != {}
        invariant StubsSoFar(catalog, ask, old(yamlFiles), old(filesToWrite), left, done, outdated)
        decreases left
      {
        var n :| n in left;
        outdated := CreateMissingModel(catalog, ask, old(yamlFiles), old(filesToWrite), left, done, outdated, n);
        left := left - {n};
        done := done + {n};
      }
    }

    /** One pass of the stub loop: model `n` moves from `left` to `done`. */
    method CreateMissingModel(catalog: Catalog, ask: Oracle, ghost files0: map<string, Doc>, ghost dirty0: set<string>,
                              ghost left: set<string>, ghost done: set<string>, outdated0: bool, n: string) returns (outdated: bool)
      requires n in left && StubsSoFar(catalog, ask, files0, dirty0, left, done, outdated0)
      modifies this`yamlFiles, this`filesToWrite
      ensures StubsSoFar(catalog, ask, files0, dirty0, left - {n}, done + {n}, outdated)
    {
      ghost var before, dirtyBefore := yamlFiles, filesToWrite;
      var c := CreateNewModelStubInMemory(n, catalog[n], ask);
      outdated := outdated0 || c;
      StubLoopStep(mode, catalog, ask, files0, dirty0, done, outdated0, before, dirtyBefore, n, c, yamlFiles, filesToWrite);
      if mode != Check && StubFile(catalog[n]).Some? {
        StubFramePlaced(mode, catalog, ask, files0, done, before, n);
      } else {
        StubFrameUnplaced(mode, catalog, ask, files0, done, before, n);
      }
      MoveOne(left, done, n);
    }

    /** `_write_modified_files_to_disk`: every dirty file, as it is in memory, goes to disk. */
    method WriteModifiedFilesToDisk()
      requires Valid()
      modifies this`written
      ensures written == old(written) + Flushed(yamlFiles, filesToWrite)
    {
      var left := filesToWrite;
      assert Flushed(yamlFiles, filesToWrite - left) == map[];
      while left != {}
        invariant left <= filesToWrite
        invariant written == old(written) + Flushed(yamlFiles, filesToWrite - left)
        decreases left
      {
        var p :| p in left;
        FlushedStep(yamlFiles, filesToWrite - left, p);
        assert filesToWrite - (left - {p}) == (filesToWrite - left) + {p};
        written := written[p := yamlFiles[p]];
        left := left - {p};
      }
      assert filesToWrite - left == filesToWrite;
    }
  }
}
