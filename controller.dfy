/**
 * Lifecycle of the proc-macro client (client/controller.rs): starting the
 * server, the bootstrap attempt on its own thread, the bounded retry budget,
 * and publishing the server's macros as plugins of the database.  Spawning
 * the server process and the bootstrap thread's exchange are inputs.
 */
module Controller {
  import opened Wrappers
  import opened Plugins
  import opened Client
  import opened AnalysisDb
  import opened IdleJob

  datatype Config = Config(disableProcMacros: bool)

  /**
   * The outcome of starting the proc-macro server: whether the process could
   * be obtained, and the first id the new client's generator will issue.
   */
  datatype Spawn = Spawn(succeeds: bool, firstId: RequestId)

  /** Bootstrap attempts the controller allows before giving up. */
  const InitialRetries: nat := 3

  /** The plugin entries the proc-macro server contributes for its inline macros. */
  function InlineEntries(names: seq<string>): (m: map<string, InlinePlugin>)
    ensures forall name :: name in m <==> name in names
    ensures forall name :: name in m ==> m[name] == InlineProcMacroPlugin
  {
    map name | name in names :: InlineProcMacroPlugin
  }

  /** The status after one lifecycle event, given the retries left once it is applied. */
  function StatusAfter(status: ClientStatus, retriesAfter: nat, config: Config, spawn: Spawn, change: ClientStatusChange): ClientStatus
  {
    match change
    case Failed =>
      if retriesAfter == 0 then InitializingFailed
      else if !config.disableProcMacros && spawn.succeeds then Initializing
      else status
    case FatalFailed => InitializingFailed
    case Ready(_, client) => ClientStatus.Ready(client)
  }

  /** The registered macro plugins after one lifecycle event. */
  function PluginsAfter(plugins: seq<MacroPlugin>, change: ClientStatusChange): seq<MacroPlugin>
  {
    if change.Ready? then
      plugins + [ProcMacro(ProcMacroPlugin(change.macros.attributes, change.macros.derives, change.macros.executables))]
    else plugins
  }

  /** The registered inline macro plugins after one lifecycle event. */
  function InlinePluginsAfter(plugins: map<string, InlinePlugin>, change: ClientStatusChange): map<string, InlinePlugin>
  {
    if change.Ready? then plugins + InlineEntries(change.macros.inlineMacros) else plugins
  }

  /**
   * The database inputs after one lifecycle event: each input the event sets
   * gets a new revision, and the resolution maps and overrides are kept.
   */
  function ViewAfter(v: DbView, retriesAfter: nat, config: Config, spawn: Spawn, change: ClientStatusChange): (r: DbView)
    ensures r.status == StatusAfter(v.status, retriesAfter, config, spawn, change)
    ensures r.macroPlugins == PluginsAfter(v.macroPlugins, change)
    ensures r.inlineMacroPlugins == InlinePluginsAfter(v.inlineMacroPlugins, change)
    ensures r.attributeResolution == v.attributeResolution && r.deriveResolution == v.deriveResolution
    ensures r.inlineResolution == v.inlineResolution && r.fileOverrides == v.fileOverrides
    ensures r.status != v.status ==> r.revision > v.revision
  {
    match change
    case Failed =>
      if retriesAfter == 0 then v.(status := InitializingFailed).Bump(ClientStatusInput)
      else if !config.disableProcMacros && spawn.succeeds then v.(status := Initializing).Bump(ClientStatusInput)
      else v
    case FatalFailed => v.(status := InitializingFailed).Bump(ClientStatusInput)
    case Ready(_, client) =>
      var v1 := v.(macroPlugins := PluginsAfter(v.macroPlugins, change)).Bump(MacroPluginsInput);
      var v2 := v1.(inlineMacroPlugins := InlinePluginsAfter(v.inlineMacroPlugins, change)).Bump(InlineMacroPluginsInput);
      v2.(status := ClientStatus.Ready(client)).Bump(ClientStatusInput)
  }

  /**
   * The thread started for one bootstrap attempt, exactly as written: it runs
   * the bootstrap with its inverted id guard and reports the outcome through
   * the mailbox.
   */
  method FetchDefinedMacrosThreadAsWritten(client: ProcMacroClient, delivered: bool, arrival: Option<RpcResponse>)
    modifies client, client.mailbox
    ensures var got := BootstrapResponse(old(client.inbox), arrival);
      if BootstrapAcceptedAsWritten(old(client.nextId), delivered, got)
      then client.mailbox.slot == Some(ClientStatusChange.Ready(got.value.value.macros, client))
      else client.mailbox.slot == Some(Failed)
    ensures client.requests == old(client.requests)
    ensures old(client.inbox) == [] ==> client.inbox == []
  {
    var r := client.FetchDefinedMacrosAsWritten(delivered, arrival);
    match r {
      case Ok(macros) => client.mailbox.Update(ClientStatusChange.Ready(macros, client));
      case Err(_) => client.mailbox.Update(Failed);
    }
  }

  /**
   * The thread started for one bootstrap attempt, with the corrected id
   * guard: it reports the outcome through the mailbox.
   */
  method FetchDefinedMacrosThread(client: ProcMacroClient, delivered: bool, arrival: Option<RpcResponse>)
    modifies client, client.mailbox
    ensures var got := BootstrapResponse(old(client.inbox), arrival);
      if BootstrapAccepted(old(client.nextId), delivered, got)
      then client.mailbox.slot == Some(ClientStatusChange.Ready(got.value.value.macros, client))
      else client.mailbox.slot == Some(Failed)
    ensures client.requests == old(client.requests)
    ensures old(client.inbox) == [] ==> client.inbox == []
  {
    var r := client.FetchDefinedMacros(delivered, arrival);
    match r {
      case Ok(macros) => client.mailbox.Update(ClientStatusChange.Ready(macros, client));
      case Err(_) => client.mailbox.Update(Failed);
    }
  }

  class ProcMacroClientController {
    /** The status mailbox; every client this controller creates posts into it. */
    const mailbox: StatusMailbox
    /** Remaining bootstrap attempts, an unsigned counter. */
    var retriesLeft: nat

    constructor ()
      ensures fresh(mailbox) && mailbox.slot == None
      ensures retriesLeft == InitialRetries
    {
      mailbox := new StatusMailbox();
      retriesLeft := InitialRetries;
    }

    /** Spends one retry; true when some are left afterwards. */
    method ShouldInitialize() returns (r: bool)
      requires retriesLeft > 0
      modifies this
      ensures retriesLeft == old(retriesLeft) - 1
      ensures r <==> retriesLeft != 0
    {
      retriesLeft := retriesLeft - 1;
      r := retriesLeft != 0;
    }

    /** What `Initialize` does to the database and the mailbox. */
    twostate predicate Initialized(db: AnalysisDatabase, config: Config, spawn: Spawn, new client: Option<ProcMacroClient>)
      reads this, db, mailbox, if client.Some? then {client.value} else {}
    {
      && db.longIds == old(db.longIds) && db.fileIds == old(db.fileIds)
      && db.nextFileId == old(db.nextFileId) && db.invalidated == old(db.invalidated)
      && if config.disableProcMacros then
           client.None? && db.View() == old(db.View()) && mailbox.slot == old(mailbox.slot)
         else if spawn.succeeds then
           && client.Some? && fresh(client.value)
           && client.value.mailbox == mailbox && client.value.nextId == spawn.firstId
           && client.value.requests == map[] && client.value.sent == [] && client.value.inbox == []
           && db.View() == old(db.View()).(status := Initializing).Bump(ClientStatusInput)
           && mailbox.slot == old(mailbox.slot)
         else
           client.None? && db.View() == old(db.View()) && mailbox.slot == Some(FatalFailed)
    }

    /**
     * Starts one bootstrap attempt, unless proc macros are disabled.  On
     * success the status becomes `Initializing` and the new client is
     * returned, for its bootstrap thread; if the server cannot be started,
     * `FatalFailed` is posted and the status is left alone.
     */
    method Initialize(db: AnalysisDatabase, config: Config, spawn: Spawn) returns (client: Option<ProcMacroClient>)
      modifies db, mailbox
      ensures Initialized(db, config, spawn, client)
    {
      if config.disableProcMacros {
        return None;
      }
      if spawn.succeeds {
        var c := new ProcMacroClient(mailbox, spawn.firstId);
        db.SetClientStatus(Initializing);
        client := Some(c);
      } else {
        mailbox.Update(FatalFailed);
        client := None;
      }
    }

    /** Initializes only while the status is still `Disabled`. */
    method InitializeIfEnabledNow(db: AnalysisDatabase, config: Config, spawn: Spawn) returns (client: Option<ProcMacroClient>)
      modifies db, mailbox
      ensures old(db.status).Disabled? ==> Initialized(db, config, spawn, client)
      ensures !old(db.status).Disabled? ==> client.None? && unchanged(db, mailbox)
    {
      if db.status.Disabled? {
        client := Initialize(db, config, spawn);
      } else {
        client := None;
      }
    }

    /**
     * Applies one lifecycle event.  `Failed` spends a retry and starts a new
     * attempt, or gives up when none is left; `FatalFailed` gives up at once;
     * `Ready` adds the server's plugins to those already registered and makes
     * the client the ready one.
     */
    method UpdateState(db: AnalysisDatabase, config: Config, spawn: Spawn, change: ClientStatusChange)
      returns (client: Option<ProcMacroClient>)
      requires change.Failed? ==> retriesLeft > 0
      modifies this, db, mailbox
      ensures change.Failed? ==> retriesLeft == old(retriesLeft) - 1
      ensures change.Failed? && retriesLeft != 0 ==> Initialized(db, config, spawn, client)
      ensures (change.Failed? && retriesLeft == 0) || change.FatalFailed? ==>
        && client.None? && mailbox.slot == old(mailbox.slot)
        && db.View() == old(db.View()).(status := InitializingFailed).Bump(ClientStatusInput)
      ensures !change.Failed? ==> retriesLeft == old(retriesLeft)
      ensures change.Ready? ==>
        && client.None? && mailbox.slot == old(mailbox.slot)
        && db.status == ClientStatus.Ready(change.client)
        && db.macroPlugins == old(db.macroPlugins)
             + [ProcMacro(ProcMacroPlugin(change.macros.attributes, change.macros.derives, change.macros.executables))]
        && db.inlineMacroPlugins == old(db.inlineMacroPlugins) + InlineEntries(change.macros.inlineMacros)
        && db.attributeResolution == old(db.attributeResolution) && db.deriveResolution == old(db.deriveResolution)
        && db.inlineResolution == old(db.inlineResolution) && db.fileOverrides == old(db.fileOverrides)
      ensures db.View() == ViewAfter(old(db.View()), retriesLeft, config, spawn, change)
      ensures db.longIds == old(db.longIds) && db.fileIds == old(db.fileIds)
      ensures db.nextFileId == old(db.nextFileId) && db.invalidated == old(db.invalidated)
    {
      client := None;
      match change {
        case Failed =>
          var retry := ShouldInitialize();
          if retry {
            client := Initialize(db, config, spawn);
          } else {
            db.SetClientStatus(InitializingFailed);
          }
        case FatalFailed =>
          db.SetClientStatus(InitializingFailed);
        case Ready(macros, readyClient) =>
          var suite := ProcMacroPluginSuite(macros);
          db.SetMacroPlugins(db.macroPlugins + suite.plugins);
          assert suite.inlineMacroPlugins == InlineEntries(macros.inlineMacros);
          db.SetInlineMacroPlugins(db.inlineMacroPlugins + suite.inlineMacroPlugins);
          db.SetClientStatus(ClientStatus.Ready(readyClient));
      }
    }

    /** The clients a drain right after the next event could touch. */
    function DrainCandidates(db: AnalysisDatabase): set<ProcMacroClient>
      reads db, mailbox
    {
      db.status.Clients() + (if mailbox.slot.Some? then mailbox.slot.value.Clients() else {})
    }

    /**
     * Takes the pending event, if any, and applies it; then always drains the
     * responses.  True when there was an event or a response.
     */
    method MaybeUpdateState(db: AnalysisDatabase, config: Config, spawn: Spawn)
      returns (changed: bool, client: Option<ProcMacroClient>)
      requires mailbox.slot == Some(Failed) ==> retriesLeft > 0
      requires forall c :: c in DrainCandidates(db) ==> Correlated(c.inbox, c.requests)
      modifies this, mailbox, db, DrainCandidates(db)
      ensures retriesLeft == if old(mailbox.slot) == Some(Failed) then old(retriesLeft) - 1 else old(retriesLeft)
      ensures old(mailbox.slot).None? ==>
        db.status == old(db.status) && db.macroPlugins == old(db.macroPlugins)
        && db.inlineMacroPlugins == old(db.inlineMacroPlugins)
      ensures old(mailbox.slot).Some? ==>
        && db.status == StatusAfter(old(db.status), retriesLeft, config, spawn, old(mailbox.slot).value)
        && db.macroPlugins == PluginsAfter(old(db.macroPlugins), old(mailbox.slot).value)
        && db.inlineMacroPlugins == InlinePluginsAfter(old(db.inlineMacroPlugins), old(mailbox.slot).value)
      ensures var retried := old(mailbox.slot) == Some(Failed) && retriesLeft != 0 && !config.disableProcMacros;
        && (client.Some? <==> retried && spawn.succeeds)
        && mailbox.slot == (if retried && !spawn.succeeds then Some(FatalFailed) else None)
      ensures client.Some? ==>
        && fresh(client.value) && client.value.mailbox == mailbox && client.value.nextId == spawn.firstId
        && client.value.requests == map[] && client.value.sent == [] && client.value.inbox == []
      ensures db.status.Ready? ==> db.status.client in old(DrainCandidates(db)) && db.status.client.inbox == []
      ensures changed <==> old(mailbox.slot).Some? || (db.status.Ready? && var c := db.status.client; old(c.inbox) != [])
      ensures var afterEvent := if old(mailbox.slot).None? then old(db.View())
                                else ViewAfter(old(db.View()), retriesLeft, config, spawn, old(mailbox.slot).value);
        if db.status.Ready? then
          var c := db.status.client;
          var out := DrainAll(Start(old(c.requests), afterEvent), old(c.inbox));
          c.requests == out.requests && c.nextId == old(c.nextId) && c.sent == old(c.sent)
          && db.View() == WriteBack(afterEvent, out)
        else db.View() == afterEvent
    {
      ghost var candidates := DrainCandidates(db);
      var event := mailbox.Changed();
      changed := false;
      client := None;
      if event.Some? {
        client := UpdateState(db, config, spawn, event.value);
        changed := true;
      }
      assert db.status.Ready? ==> db.status.client in candidates;
      var drained := ApplyProcMacroServerResponses(db);
      changed := drained || changed;
    }
  }

  /**
   * A server whose first `failures` bootstrap attempts fail and whose later
   * ones succeed, with the corrected bootstrap.  The client becomes ready
   * exactly when fewer than `InitialRetries` attempts fail; otherwise the
   * controller gives up after that many attempts, with no retry left.
   */
  method RetryUntilReady(failures: nat, macros: DefinedMacros)
    returns (ready: bool, attempts: nat, status: ClientStatus, retriesLeft: nat)
    ensures ready <==> failures < InitialRetries
    ensures attempts == if failures < InitialRetries then failures + 1 else InitialRetries
    ensures ready ==> status.Ready? && retriesLeft == InitialRetries - failures
    ensures !ready ==> status == InitializingFailed && retriesLeft == 0
  {
    var controller := new ProcMacroClientController();
    var db := new AnalysisDatabase([], map[]);
    var config := Config(false);
    var spawn := Spawn(true, 0);
    var client := controller.Initialize(db, config, spawn);
    attempts := 1;
    var failed := 0;
    while client.Some?
      invariant controller.mailbox.slot == None
      invariant failed <= failures && failed <= InitialRetries
      invariant controller.retriesLeft == InitialRetries - failed
      invariant client.Some? ==>
        && failed < InitialRetries && db.status == Initializing && attempts == failed + 1
        && client.value.mailbox == controller.mailbox && client.value.nextId == 0
        && client.value.requests == map[] && client.value.inbox == []
      invariant client.None? ==>
        if failed < InitialRetries
        then failed == failures && db.status.Ready? && attempts == failed + 1
        else failures >= InitialRetries && db.status == InitializingFailed && attempts == failed
      decreases controller.retriesLeft, if client.Some? then 1 else 0
    {
      var attempt := client.value;
      if failed < failures {
        FetchDefinedMacrosThread(attempt, false, None);
        failed := failed + 1;
      } else {
        FetchDefinedMacrosThread(attempt, true, Some(RpcResponse(0, DefinedMacrosPayload(macros))));
      }
      var _, next := controller.MaybeUpdateState(db, config, spawn);
      if next.Some? {
        attempts := attempts + 1;
      }
      client := next;
    }
    ready := db.status.Ready?;
    status := db.status;
    retriesLeft := controller.retriesLeft;
  }

  /**
   * The controller as written, with every new client's ids starting at zero:
   * whatever the server does with bootstrap attempt `k` (`delivered(k)`,
   * `arrival(k)`), no attempt succeeds, and after `InitialRetries` attempts
   * the status is InitializingFailed with no retry left.
   */
  method RetryAsWrittenNeverReady(delivered: nat -> bool, arrival: nat -> Option<RpcResponse>)
    returns (ready: bool, attempts: nat, status: ClientStatus, retriesLeft: nat)
    ensures !ready && attempts == InitialRetries
    ensures status == InitializingFailed && retriesLeft == 0
  {
    var controller := new ProcMacroClientController();
    var db := new AnalysisDatabase([], map[]);
    var config := Config(false);
    var spawn := Spawn(true, 0);
    var client := controller.Initialize(db, config, spawn);
    attempts := 1;
    while client.Some?
      invariant controller.mailbox.slot == None
      invariant 1 <= attempts <= InitialRetries
      invariant client.Some? ==>
        && controller.retriesLeft == InitialRetries - attempts + 1 && db.status == Initializing
        && client.value.mailbox == controller.mailbox && client.value.nextId == 0
        && client.value.requests == map[] && client.value.inbox == []
      invariant client.None? ==>
        attempts == InitialRetries && controller.retriesLeft == 0 && db.status == InitializingFailed
      decreases controller.retriesLeft, if client.Some? then 1 else 0
    {
      FetchDefinedMacrosThreadAsWritten(client.value, delivered(attempts - 1), arrival(attempts - 1));
      var _, next := controller.MaybeUpdateState(db, config, spawn);
      if next.Some? {
        attempts := attempts + 1;
      }
      client := next;
    }
    ready := db.status.Ready?;
    status := db.status;
    retriesLeft := controller.retriesLeft;
  }
}
