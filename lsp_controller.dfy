/**
 * How the editor's document notifications change the open-file set and the
 * in-memory file contents (lsp/controller.rs), and which file-system
 * changes invalidate files or trigger a workspace reload.  Diagnostics
 * refreshes, crate detection and the reload itself are not modelled.
 */
module LspController {
  import opened Wrappers
  import opened AnalysisDb
  import opened ServerState

  /** `s` ends with `suffix`, compared from the last character backwards. */
  predicate EndsWith(s: string, suffix: string)
    decreases |suffix|
  {
    if suffix == [] then true
    else if s == [] then false
    else s[|s| - 1] == suffix[|suffix| - 1] && EndsWith(s[..|s| - 1], suffix[..|suffix| - 1])
  }

  /** `EndsWith` means that the last `|suffix|` characters of `s` are `suffix`. */
  lemma {:induction false} EndsWithIsSuffix(s: string, suffix: string)
    ensures EndsWith(s, suffix) <==> |suffix| <= |s| && s[|s| - |suffix|..] == suffix
    decreases |suffix|
  {
    if suffix != [] && s != [] {
      var s', t' := s[..|s| - 1], suffix[..|suffix| - 1];
      EndsWithIsSuffix(s', t');
      if |suffix| <= |s| {
        assert s[|s| - |suffix|..] == s'[|s'| - |t'|..] + [s[|s| - 1]];
        assert suffix == t' + [suffix[|suffix| - 1]];
      }
    }
  }

  const CairoExtension: string := ".cairo"

  /** The URL's path names a Cairo source file. */
  function IsCairoFilePath(url: Url): (r: bool)
    ensures r <==> |url.path| >= |CairoExtension| && url.path[|url.path| - |CairoExtension|..] == CairoExtension
  {
    EndsWithIsSuffix(url.path, CairoExtension);
    EndsWith(url.path, CairoExtension)
  }

  /** Any path with the extension appended is a Cairo file path. */
  lemma CairoStemIsCairoFile(scheme: string, stem: string)
    ensures IsCairoFilePath(Url(scheme, stem + CairoExtension))
  {
    var p := stem + CairoExtension;
    assert p[|p| - |CairoExtension|..] == CairoExtension;
  }

  /** The last segment of a `/`-separated path: everything after the final `/`. */
  function LastSegment(path: string): string
  {
    if path == [] then []
    else if path[|path| - 1] == '/' then []
    else LastSegment(path[..|path| - 1]) + [path[|path| - 1]]
  }

  /**
   * The last segment holds no `/`, ends the path, and is preceded by a `/`
   * unless it is the whole path.
   */
  lemma {:induction false} LastSegmentIsFinal(path: string)
    ensures var seg := LastSegment(path);
      && (forall i :: 0 <= i < |seg| ==> seg[i] != '/')
      && |seg| <= |path| && path[|path| - |seg|..] == seg
      && (|seg| < |path| ==> path[|path| - |seg| - 1] == '/')
  {
    if path != [] && path[|path| - 1] != '/' {
      var init := path[..|path| - 1];
      LastSegmentIsFinal(init);
      var seg := LastSegment(init);
      assert LastSegment(path) == seg + [path[|path| - 1]];
      assert path[|path| - |seg| - 1..] == init[|init| - |seg|..] + [path[|path| - 1]];
      if |seg| + 1 < |path| {
        assert path[|path| - |seg| - 2] == init[|init| - |seg| - 1];
      }
    }
  }

  /** A change to this file makes the workspace reload. */
  predicate IsProjectConfig(url: Url)
  {
    LastSegment(url.path) == "Scarb.toml" || LastSegment(url.path) == "cairo_project.toml"
  }

  /** The number of changes that name a project configuration file. */
  function ConfigChanges(changes: seq<Url>): (n: nat)
    ensures n <= |changes|
    ensures n == 0 <==> forall i :: 0 <= i < |changes| ==> !IsProjectConfig(changes[i])
  {
    if changes == [] then 0
    else
      var rest := ConfigChanges(changes[1..]);
      assert forall i :: 0 < i < |changes| ==> changes[i] == changes[1..][i - 1];
      (if IsProjectConfig(changes[0]) then 1 else 0) + rest
  }

  /** The file a changed URL denotes, when it is a Cairo file the database has interned. */
  function InvalidatedBy(fileIds: map<FileLongId, FileId>, url: Url): Option<FileId>
  {
    var long := LongIdOf(url);
    if IsCairoFilePath(url) && long.Some? && long.value in fileIds then Some(fileIds[long.value]) else None
  }

  /** The files, in change order, whose cached content a batch of changes invalidates. */
  function Invalidations(fileIds: map<FileLongId, FileId>, changes: seq<Url>): (r: seq<FileId>)
    ensures |r| <= |changes|
  {
    if changes == [] then []
    else
      var rest := Invalidations(fileIds, changes[1..]);
      match InvalidatedBy(fileIds, changes[0])
      case Some(file) => [file] + rest
      case None => rest
  }

  /** A file is invalidated exactly when some changed Cairo file URL denotes it. */
  lemma {:induction false} InvalidationsExactly(fileIds: map<FileLongId, FileId>, changes: seq<Url>, file: FileId)
    ensures file in Invalidations(fileIds, changes) <==>
      exists i :: 0 <= i < |changes| && InvalidatedBy(fileIds, changes[i]) == Some(file)
  {
    if changes != [] {
      InvalidationsExactly(fileIds, changes[1..], file);
      if exists i :: 0 <= i < |changes| && InvalidatedBy(fileIds, changes[i]) == Some(file) {
        var i :| 0 <= i < |changes| && InvalidatedBy(fileIds, changes[i]) == Some(file);
        if i > 0 {
          assert changes[1..][i - 1] == changes[i];
        }
      }
      if exists i :: 0 <= i < |changes[1..]| && InvalidatedBy(fileIds, changes[1..][i]) == Some(file) {
        var i :| 0 <= i < |changes[1..]| && InvalidatedBy(fileIds, changes[1..][i]) == Some(file);
        assert changes[i + 1] == changes[1..][i];
      }
    }
  }

  /** Invalidates every changed Cairo file the database knows, in change order. */
  method InvalidateCairoFiles(db: AnalysisDatabase, changes: seq<Url>)
    requires db.Valid()
    modifies db
    ensures db.Valid()
    ensures db.invalidated == old(db.invalidated) + Invalidations(db.fileIds, changes)
    ensures db.View() == old(db.View()) && db.longIds == old(db.longIds) && db.fileIds == old(db.fileIds)
  {
    for i := 0 to |changes|
      invariant db.Valid()
      invariant db.invalidated + Invalidations(db.fileIds, changes[i..]) == old(db.invalidated) + Invalidations(db.fileIds, changes)
      invariant db.View() == old(db.View()) && db.longIds == old(db.longIds) && db.fileIds == old(db.fileIds)
    {
      assert changes[i..][1..] == changes[i + 1..];
      if IsCairoFilePath(changes[i]) {
        var file := db.FileForUrl(changes[i]);
        if file.None? {
          continue;
        }
        db.InvalidateRawContent(file.value);
      }
    }
  }

  /**
   * The editor opened a document: a file the database knows becomes open
   * and its content is the editor's text.
   */
  method DidOpen(state: State, uri: Url, text: string)
    requires state.Valid()
    modifies state.db, state.openFiles, state.openFiles.cell
    ensures state.Valid()
    ensures var file := old(state.db.FileForUrl(uri));
      if file.Some? then
        && state.openFiles.Value() == old(state.openFiles.Value()) + {uri}
        && state.db.fileOverrides == old(state.db.fileOverrides)[file.value := text]
      else
        state.openFiles.Value() == old(state.openFiles.Value()) && state.db.fileOverrides == old(state.db.fileOverrides)
    ensures forall t :: t in old(state.openFiles.history) ==> t.Value() == old(t.Value())
    ensures state.db.longIds == old(state.db.longIds) && state.db.invalidated == old(state.db.invalidated)
  {
    var file := state.db.FileForUrl(uri);
    if file.Some? {
      state.openFiles.Set(state.openFiles.Value() + {uri});
      state.db.OverrideFileContent(file.value, Some(text));
    }
  }

  /**
   * The editor changed a document.  Only a change that carries the whole new
   * text as a single event is applied; anything else is ignored.
   */
  method DidChange(state: State, uri: Url, contentChanges: seq<string>)
    requires state.Valid()
    modifies state.db
    ensures state.Valid()
    ensures var file := old(state.db.FileForUrl(uri));
      if |contentChanges| == 1 && file.Some? then
        state.db.fileOverrides == old(state.db.fileOverrides)[file.value := contentChanges[0]]
      else
        state.db.View() == old(state.db.View())
    ensures state.db.longIds == old(state.db.longIds) && state.db.invalidated == old(state.db.invalidated)
  {
    if |contentChanges| != 1 {
      return;
    }
    var file := state.db.FileForUrl(uri);
    if file.Some? {
      state.db.OverrideFileContent(file.value, Some(contentChanges[0]));
    }
  }

  /**
   * The editor closed a document: it stops being open whatever it is, and
   * the in-memory content of the file it denotes is dropped.
   */
  method DidClose(state: State, uri: Url)
    requires state.Valid()
    modifies state.db, state.openFiles, state.openFiles.cell
    ensures state.Valid()
    ensures state.openFiles.Value() == old(state.openFiles.Value()) - {uri}
    ensures var file := old(state.db.FileForUrl(uri));
      if file.Some? then state.db.fileOverrides == old(state.db.fileOverrides) - {file.value}
      else state.db.View() == old(state.db.View())
    ensures forall t :: t in old(state.openFiles.history) ==> t.Value() == old(t.Value())
    ensures state.db.longIds == old(state.db.longIds) && state.db.invalidated == old(state.db.invalidated)
  {
    state.openFiles.Set(state.openFiles.Value() - {uri});
    var file := state.db.FileForUrl(uri);
    if file.Some? {
      state.db.OverrideFileContent(file.value, None);
    }
  }

  /**
   * The editor saved a document: the file's content is read from disk again
   * and its in-memory content dropped; it stays open.
   */
  method DidSave(state: State, uri: Url)
    requires state.Valid()
    modifies state.db
    ensures state.Valid()
    ensures var file := old(state.db.FileForUrl(uri));
      if file.Some? then
        && state.db.fileOverrides == old(state.db.fileOverrides) - {file.value}
        && state.db.invalidated == old(state.db.invalidated) + [file.value]
      else
        state.db.View() == old(state.db.View()) && state.db.invalidated == old(state.db.invalidated)
    ensures state.openFiles.Value() == old(state.openFiles.Value())
    ensures state.db.longIds == old(state.db.longIds)
  {
    var file := state.db.FileForUrl(uri);
    if file.Some? {
      state.db.InvalidateRawContent(file.value);
      state.db.OverrideFileContent(file.value, None);
    }
  }

  /**
   * The reload loop of the watched-files handler: a workspace reload runs
   * for each changed project configuration file, in order.  `failingReload`
   * is the position (among those reloads) of the first reload that fails, if
   * any; a failed reload ends the loop with its error, so the remaining
   * configuration changes are not reloaded.  `reloads` counts the reloads
   * attempted.
   */
  method ReloadConfigChanges(changes: seq<Url>, failingReload: Option<nat>) returns (reloads: nat, r: Result<(), string>)
    ensures failingReload.Some? && failingReload.value < ConfigChanges(changes) ==>
      r.Err? && reloads == failingReload.value + 1
    ensures !(failingReload.Some? && failingReload.value < ConfigChanges(changes)) ==>
      r.Ok? && reloads == ConfigChanges(changes)
  {
    reloads := 0;
    for i := 0 to |changes|
      invariant reloads + ConfigChanges(changes[i..]) == ConfigChanges(changes)
      invariant failingReload.Some? ==> reloads <= failingReload.value
    {
      assert changes[i..][1..] == changes[i + 1..];
      if IsProjectConfig(changes[i]) {
        if failingReload == Some(reloads) {
          return reloads + 1, Err("workspace reload failed");
        }
        reloads := reloads + 1;
      }
    }
    r := Ok(());
  }

  /**
   * Watched files changed: every changed Cairo file the database knows is
   * invalidated, then the configuration changes are reloaded until one
   * reload fails (see `ReloadConfigChanges`).
   */
  method DidChangeWatchedFiles(state: State, changes: seq<Url>, failingReload: Option<nat>)
    returns (reloads: nat, r: Result<(), string>)
    requires state.Valid()
    modifies state.db
    ensures state.Valid()
    ensures state.db.invalidated == old(state.db.invalidated) + Invalidations(old(state.db.fileIds), changes)
    ensures state.db.View() == old(state.db.View()) && state.db.longIds == old(state.db.longIds)
    ensures failingReload.Some? && failingReload.value < ConfigChanges(changes) ==>
      r.Err? && reloads == failingReload.value + 1
    ensures !(failingReload.Some? && failingReload.value < ConfigChanges(changes)) ==>
      r.Ok? && reloads == ConfigChanges(changes)
  {
    InvalidateCairoFiles(state.db, changes);
    reloads, r := ReloadConfigChanges(changes, failingReload);
  }
}
