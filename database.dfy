/**
 * The part of the incremental analysis database this core reads and writes.
 * Each input is set as a whole; every set starts a new revision and records
 * it as the input's `changedAt`, which is what invalidates the queries that
 * depend on that input.  Files are interned: a `FileId` stands for a
 * `FileLongId` inside one database only.
 */
module AnalysisDb {
  import opened Wrappers
  import opened Plugins
  import opened Client

  /** Externally visible state of the proc-macro client. */
  datatype ClientStatus = Disabled | Initializing | Ready(client: ProcMacroClient) | InitializingFailed
  {
    /** The client, when the status is `Ready`. */
    function ReadyClient(): (r: Option<ProcMacroClient>)
      ensures r.Some? <==> Ready?
      ensures Ready? ==> r.value == client
    {
      if Ready? then Some(client) else None
    }

    function Clients(): set<ProcMacroClient>
    {
      if Ready? then {client} else {}
    }
  }

  /** A URL as sent by the editor. */
  datatype Url = Url(scheme: string, path: string)

  datatype FileLongId = OnDisk(path: string) | Virtual(name: string)

  type FileId = nat

  /** The file a URL denotes: `file:` URLs name files on disk, `vfs:` URLs virtual files. */
  function LongIdOf(url: Url): Option<FileLongId>
  {
    if url.scheme == "file" then Some(OnDisk(url.path))
    else if url.scheme == "vfs" then Some(Virtual(url.path))
    else None
  }

  datatype Input =
    | ClientStatusInput
    | MacroPluginsInput
    | InlineMacroPluginsInput
    | AttributeResolutionInput
    | DeriveResolutionInput
    | InlineResolutionInput
    | FileOverridesInput

  /** The inputs of a database, as one value. */
  datatype DbView = DbView(
    status: ClientStatus,
    macroPlugins: seq<MacroPlugin>,
    inlineMacroPlugins: map<string, InlinePlugin>,
    attributeResolution: map<AttributeParams, ProcMacroResult>,
    deriveResolution: map<DeriveParams, ProcMacroResult>,
    inlineResolution: map<InlineParams, ProcMacroResult>,
    fileOverrides: map<FileId, string>,
    revision: nat,
    changedAt: map<Input, nat>)
  {
    /** The view after one set of `input`. */
    function Bump(input: Input): DbView
    {
      this.(revision := revision + 1, changedAt := changedAt[input := revision + 1])
    }
  }

  class AnalysisDatabase {
    var status: ClientStatus
    var macroPlugins: seq<MacroPlugin>
    var inlineMacroPlugins: map<string, InlinePlugin>
    var attributeResolution: map<AttributeParams, ProcMacroResult>
    var deriveResolution: map<DeriveParams, ProcMacroResult>
    var inlineResolution: map<InlineParams, ProcMacroResult>
    var fileOverrides: map<FileId, string>
    var revision: nat
    var changedAt: map<Input, nat>
    /** The file interner, in both directions. */
    var longIds: map<FileId, FileLongId>
    var fileIds: map<FileLongId, FileId>
    var nextFileId: FileId
    /** Files whose on-disk content was invalidated, in order. */
    var invalidated: seq<FileId>

    /** The interner hands out each id once and its two maps are inverse. */
    ghost predicate Valid()
      reads this
    {
      && (forall id :: id in longIds ==> id < nextFileId && longIds[id] in fileIds && fileIds[longIds[id]] == id)
      && (forall l :: l in fileIds ==> fileIds[l] in longIds && longIds[fileIds[l]] == l)
    }

    function View(): DbView
      reads this
    {
      DbView(status, macroPlugins, inlineMacroPlugins, attributeResolution, deriveResolution,
             inlineResolution, fileOverrides, revision, changedAt)
    }

    /** The id of the file `url` denotes, if this database has interned it. */
    function FileForUrl(url: Url): (r: Option<FileId>)
      reads this
      requires Valid()
      ensures r.Some? ==> r.value in longIds && Some(longIds[r.value]) == LongIdOf(url)
      ensures r.None? ==> LongIdOf(url).None? || LongIdOf(url).value !in fileIds
    {
      match LongIdOf(url)
      case None => None
      case Some(l) => if l in fileIds then Some(fileIds[l]) else None
    }

    /** A new database: macros disabled, no resolutions, no overrides, only the built-in plugins. */
    constructor (staticPlugins: seq<MacroPlugin>, staticInlinePlugins: map<string, InlinePlugin>)
      ensures Valid()
      ensures View() == DbView(Disabled, staticPlugins, staticInlinePlugins, map[], map[], map[], map[], 0, map[])
      ensures longIds == map[] && fileIds == map[] && invalidated == []
    {
      status := Disabled;
      macroPlugins := staticPlugins;
      inlineMacroPlugins := staticInlinePlugins;
      attributeResolution := map[];
      deriveResolution := map[];
      inlineResolution := map[];
      fileOverrides := map[];
      revision := 0;
      changedAt := map[];
      longIds := map[];
      fileIds := map[];
      nextFileId := 0;
      invalidated := [];
    }

    /** The id of `long` in this database, interning it if it is new. */
    method Intern(long: FileLongId) returns (id: FileId)
      requires Valid()
      modifies this
      ensures Valid()
      ensures long in fileIds && id == fileIds[long]
      ensures long in old(fileIds) ==> fileIds == old(fileIds) && longIds == old(longIds)
      ensures forall l :: l in old(fileIds) ==> l in fileIds && fileIds[l] == old(fileIds)[l]
      ensures forall i :: i in old(longIds) ==> i in longIds && longIds[i] == old(longIds)[i]
      ensures View() == old(View()) && invalidated == old(invalidated)
    {
      if long in fileIds {
        id := fileIds[long];
      } else {
        id := nextFileId;
        fileIds := fileIds[long := id];
        longIds := longIds[id := long];
        nextFileId := nextFileId + 1;
      }
    }

    method SetClientStatus(s: ClientStatus)
      modifies this
      ensures View() == old(View()).(status := s).Bump(ClientStatusInput)
      ensures longIds == old(longIds) && fileIds == old(fileIds) && nextFileId == old(nextFileId) && invalidated == old(invalidated)
    {
      status := s;
      revision := revision + 1;
      changedAt := changedAt[ClientStatusInput := revision];
    }

    method SetMacroPlugins(plugins: seq<MacroPlugin>)
      modifies this
      ensures View() == old(View()).(macroPlugins := plugins).Bump(MacroPluginsInput)
      ensures longIds == old(longIds) && fileIds == old(fileIds) && nextFileId == old(nextFileId) && invalidated == old(invalidated)
    {
      macroPlugins := plugins;
      revision := revision + 1;
      changedAt := changedAt[MacroPluginsInput := revision];
    }

    method SetInlineMacroPlugins(plugins: map<string, InlinePlugin>)
      modifies this
      ensures View() == old(View()).(inlineMacroPlugins := plugins).Bump(InlineMacroPluginsInput)
      ensures longIds == old(longIds) && fileIds == old(fileIds) && nextFileId == old(nextFileId) && invalidated == old(invalidated)
    {
      inlineMacroPlugins := plugins;
      revision := revision + 1;
      changedAt := changedAt[InlineMacroPluginsInput := revision];
    }

    method SetAttributeResolution(resolution: map<AttributeParams, ProcMacroResult>)
      modifies this
      ensures View() == old(View()).(attributeResolution := resolution).Bump(AttributeResolutionInput)
      ensures longIds == old(longIds) && fileIds == old(fileIds) && nextFileId == old(nextFileId) && invalidated == old(invalidated)
    {
      attributeResolution := resolution;
      revision := revision + 1;
      changedAt := changedAt[AttributeResolutionInput := revision];
    }

    method SetDeriveResolution(resolution: map<DeriveParams, ProcMacroResult>)
      modifies this
      ensures View() == old(View()).(deriveResolution := resolution).Bump(DeriveResolutionInput)
      ensures longIds == old(longIds) && fileIds == old(fileIds) && nextFileId == old(nextFileId) && invalidated == old(invalidated)
    {
      deriveResolution := resolution;
      revision := revision + 1;
      changedAt := changedAt[DeriveResolutionInput := revision];
    }

    method SetInlineResolution(resolution: map<InlineParams, ProcMacroResult>)
      modifies this
      ensures View() == old(View()).(inlineResolution := resolution).Bump(InlineResolutionInput)
      ensures longIds == old(longIds) && fileIds == old(fileIds) && nextFileId == old(nextFileId) && invalidated == old(invalidated)
    {
      inlineResolution := resolution;
      revision := revision + 1;
      changedAt := changedAt[InlineResolutionInput := revision];
    }

    method SetFileOverrides(overrides: map<FileId, string>)
      modifies this
      ensures View() == old(View()).(fileOverrides := overrides).Bump(FileOverridesInput)
      ensures longIds == old(longIds) && fileIds == old(fileIds) && nextFileId == old(nextFileId) && invalidated == old(invalidated)
    {
      fileOverrides := overrides;
      revision := revision + 1;
      changedAt := changedAt[FileOverridesInput := revision];
    }

    /** Sets (`Some`) or clears (`None`) the in-memory content of one file. */
    method OverrideFileContent(file: FileId, content: Option<string>)
      modifies this
      ensures content.Some? ==> fileOverrides == old(fileOverrides)[file := content.value]
      ensures content.None? ==> fileOverrides == old(fileOverrides) - {file}
      ensures View() == old(View()).(fileOverrides := fileOverrides).Bump(FileOverridesInput)
      ensures longIds == old(longIds) && fileIds == old(fileIds) && nextFileId == old(nextFileId) && invalidated == old(invalidated)
    {
      if content.Some? {
        SetFileOverrides(fileOverrides[file := content.value]);
      } else {
        SetFileOverrides(fileOverrides - {file});
      }
    }

    /** Forgets the cached on-disk content of `file`, so it is read again. */
    method InvalidateRawContent(file: FileId)
      modifies this
      ensures invalidated == old(invalidated) + [file]
      ensures View() == old(View()) && longIds == old(longIds) && fileIds == old(fileIds) && nextFileId == old(nextFileId)
    {
      invalidated := invalidated + [file];
    }
  }
}
