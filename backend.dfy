/**
 * Database replacement and stale-diagnostics clearing (lib.rs).  A
 * replacement builds a fresh database and carries over the in-memory
 * content of the open files; file ids are translated through the two
 * databases' interners.
 */
module Backend {
  import opened Wrappers
  import opened Plugins
  import opened AnalysisDb
  import opened ServerState

  /**
   * The in-memory contents a new database inherits, by file: a file is
   * carried when some URL in `open` denotes it, the old database has
   * interned it, and the old database holds an override for it.
   */
  function Carried(open: seq<Url>, ids: map<FileLongId, FileId>, overrides: map<FileId, string>): map<FileLongId, string>
    decreases |open|
  {
    if open == [] then map[]
    else
      var rest := Carried(open[..|open| - 1], ids, overrides);
      match LongIdOf(open[|open| - 1])
      case None => rest
      case Some(l) => if l in ids && ids[l] in overrides then rest[l := overrides[ids[l]]] else rest
  }

  /**
   * A file is carried exactly when an open URL denotes it, it is interned in
   * the old database and it has an override there; its content is copied
   * unchanged.
   */
  lemma {:induction false} CarriedExactly(open: seq<Url>, ids: map<FileLongId, FileId>, overrides: map<FileId, string>, l: FileLongId)
    ensures l in Carried(open, ids, overrides) <==>
      l in ids && ids[l] in overrides && exists i :: 0 <= i < |open| && LongIdOf(open[i]) == Some(l)
    ensures l in Carried(open, ids, overrides) ==> Carried(open, ids, overrides)[l] == overrides[ids[l]]
    decreases |open|
  {
    if open != [] {
      var init := open[..|open| - 1];
      CarriedExactly(init, ids, overrides, l);
      if exists i :: 0 <= i < |open| && LongIdOf(open[i]) == Some(l) {
        var i :| 0 <= i < |open| && LongIdOf(open[i]) == Some(l);
        if i < |init| {
          assert init[i] == open[i];
        }
      }
      if exists i :: 0 <= i < |init| && LongIdOf(init[i]) == Some(l) {
        var i :| 0 <= i < |init| && LongIdOf(init[i]) == Some(l);
        assert open[i] == init[i];
      }
    }
  }

  /**
   * `m`, keyed by the ids of one database, holds exactly the carried
   * contents: each of its files is carried with that content, and each
   * carried file is interned there and has an entry.
   */
  ghost predicate Translates(m: map<FileId, string>, longIds: map<FileId, FileLongId>, fileIds: map<FileLongId, FileId>,
                             carried: map<FileLongId, string>)
  {
    && (forall id :: id in m ==> id in longIds && longIds[id] in carried && m[id] == carried[longIds[id]])
    && (forall l :: l in carried ==> l in fileIds && fileIds[l] in m)
  }

  /**
   * Makes every open file known to `newDb` and replaces its overrides with
   * the contents the old database holds for open files.
   */
  method EnsureExistsInDb(newDb: AnalysisDatabase, oldDb: AnalysisDatabase, open: seq<Url>)
    requires newDb != oldDb && newDb.Valid() && oldDb.Valid()
    modifies newDb
    ensures newDb.Valid()
    ensures Translates(newDb.fileOverrides, newDb.longIds, newDb.fileIds, Carried(open, oldDb.fileIds, oldDb.fileOverrides))
    ensures forall u :: u in open && oldDb.FileForUrl(u).Some? ==> LongIdOf(u).value in newDb.fileIds
    ensures forall l :: l in old(newDb.fileIds) ==> l in newDb.fileIds && newDb.fileIds[l] == old(newDb.fileIds)[l]
    ensures newDb.View() == old(newDb.View()).(fileOverrides := newDb.fileOverrides).Bump(FileOverridesInput)
    ensures newDb.invalidated == old(newDb.invalidated)
  {
    var overrides := oldDb.fileOverrides;
    var newOverrides: map<FileId, string> := map[];
    for i := 0 to |open|
      invariant newDb.Valid()
      invariant Translates(newOverrides, newDb.longIds, newDb.fileIds, Carried(open[..i], oldDb.fileIds, overrides))
      invariant forall u :: u in open[..i] && oldDb.FileForUrl(u).Some? ==> LongIdOf(u).value in newDb.fileIds
      invariant forall l :: l in old(newDb.fileIds) ==> l in newDb.fileIds && newDb.fileIds[l] == old(newDb.fileIds)[l]
      invariant newDb.View() == old(newDb.View()) && newDb.invalidated == old(newDb.invalidated)
    {
      assert open[..i + 1][..i] == open[..i];
      var fileId := oldDb.FileForUrl(open[i]);
      if fileId.None? {
        continue;
      }
      var newFileId := newDb.Intern(oldDb.longIds[fileId.value]);
      if fileId.value in overrides {
        newOverrides := newOverrides[newFileId := overrides[fileId.value]];
      }
    }
    assert open[..|open|] == open;
    newDb.SetFileOverrides(newOverrides);
  }

  /** What a replacement database holds, relative to the database it replaces. */
  twostate predicate Replaced(oldDb: AnalysisDatabase, new newDb: AnalysisDatabase, open: seq<Url>,
                              staticPlugins: seq<MacroPlugin>, staticInlinePlugins: map<string, InlinePlugin>)
    reads oldDb, newDb
  {
    && old(oldDb.Valid()) && fresh(newDb) && newDb.Valid()
    && Translates(newDb.fileOverrides, newDb.longIds, newDb.fileIds, Carried(open, old(oldDb.fileIds), old(oldDb.fileOverrides)))
    && (forall u :: u in open && old(oldDb.FileForUrl(u)).Some? ==> LongIdOf(u).value in newDb.fileIds)
    && newDb.status == Disabled && newDb.macroPlugins == staticPlugins && newDb.inlineMacroPlugins == staticInlinePlugins
    && newDb.attributeResolution == map[] && newDb.deriveResolution == map[] && newDb.inlineResolution == map[]
  }

  /**
   * Builds a fresh database, carries the open files over (before and after
   * the warm-up compilation), and installs it.  `buildSucceeds` is whether
   * building completes; when it panics the error is reported and the
   * current database stays.  `open` enumerates the state's open files.
   */
  method SwapDatabase(state: State, open: seq<Url>, buildSucceeds: bool,
                      staticPlugins: seq<MacroPlugin>, staticInlinePlugins: map<string, InlinePlugin>)
    returns (r: Result<(), string>)
    requires state.Valid()
    requires forall u :: u in open <==> u in state.openFiles.Value()
    modifies state
    ensures state.Valid()
    ensures !buildSucceeds ==> r.Err? && state.db == old(state.db)
    ensures buildSucceeds ==> r.Ok? && Replaced(old(state.db), state.db, open, staticPlugins, staticInlinePlugins)
    ensures state.lastReplace == old(state.lastReplace) && state.fileDiagnostics == old(state.fileDiagnostics)
  {
    if !buildSucceeds {
      return Err("caught panic in LSP worker thread");
    }
    var newDb := new AnalysisDatabase(staticPlugins, staticInlinePlugins);
    EnsureExistsInDb(newDb, state.db, open);
    EnsureExistsInDb(newDb, state.db, open);
    state.db := newDb;
    r := Ok(());
  }

  /**
   * Replaces the database once more than `dbReplaceInterval` has passed
   * since the last replacement; the replacement time is reset even when the
   * replacement fails.
   */
  method MaybeSwapDatabase(state: State, now: int, open: seq<Url>, buildSucceeds: bool,
                           staticPlugins: seq<MacroPlugin>, staticInlinePlugins: map<string, InlinePlugin>)
    returns (r: Result<(), string>)
    requires state.Valid() && state.lastReplace <= now
    requires forall u :: u in open <==> u in state.openFiles.Value()
    modifies state
    ensures state.Valid() && state.fileDiagnostics == old(state.fileDiagnostics)
    ensures now - old(state.lastReplace) <= state.dbReplaceInterval ==>
      r.Ok? && state.db == old(state.db) && state.lastReplace == old(state.lastReplace)
    ensures now - old(state.lastReplace) > state.dbReplaceInterval ==>
      && state.lastReplace == now
      && (buildSucceeds ==> r.Ok? && Replaced(old(state.db), state.db, open, staticPlugins, staticInlinePlugins))
      && (!buildSucceeds ==> r.Err? && state.db == old(state.db))
  {
    if now - state.lastReplace <= state.dbReplaceInterval {
      return Ok(());
    }
    r := SwapDatabase(state, open, buildSucceeds, staticPlugins, staticInlinePlugins);
    state.lastReplace := now;
  }

  predicate Distinct<T(==)>(s: seq<T>)
  {
    forall i, j :: 0 <= i < j < |s| ==> s[i] != s[j]
  }

  /**
   * Drops the stored diagnostics of every file that got none in this
   * refresh and returns the files to publish an empty list for.  `files`
   * enumerates the files that have stored diagnostics.
   */
  method ClearStaleDiagnostics(state: State, filesWithSet: set<Url>, files: seq<Url>) returns (published: seq<Url>)
    requires Distinct(files) && forall u :: u in files <==> u in state.fileDiagnostics
    modifies state
    ensures forall u :: u in state.fileDiagnostics <==> u in old(state.fileDiagnostics) && u in filesWithSet
    ensures forall u :: u in state.fileDiagnostics ==> state.fileDiagnostics[u] == old(state.fileDiagnostics)[u]
    ensures forall u :: u in published <==> u in old(state.fileDiagnostics) && u !in filesWithSet
    ensures Distinct(published)
    ensures state.db == old(state.db) && state.lastReplace == old(state.lastReplace)
  {
    var kept: map<Url, FileDiagnostics> := map[];
    published := [];
    for i := 0 to |files|
      invariant forall u :: u in kept <==> u in files[..i] && u in filesWithSet
      invariant forall u :: u in kept ==> kept[u] == state.fileDiagnostics[u]
      invariant forall u :: u in published <==> u in files[..i] && u !in filesWithSet
      invariant Distinct(published)
    {
      var u := files[i];
      if u in filesWithSet {
        kept := kept[u := state.fileDiagnostics[u]];
      } else {
        assert u !in files[..i];
        published := published + [u];
      }
    }
    assert files[..|files|] == files;
    state.fileDiagnostics := kept;
  }
}
