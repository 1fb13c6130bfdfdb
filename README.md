# Cairo language server: proc-macro client, server state and type sizes

This project is a Dafny model of the part of the Cairo language server that
talks to the procedural-macro server. It covers five areas.

- **Lifecycle controller.** The controller (`Controller`) moves the client
  status through Disabled, Initializing, Ready and InitializingFailed.
  - It allows three starts. A `Failed` event retries while the budget lasts.
  - A `FatalFailed` event always gives up.
  - A `Ready` event appends the proc-macro plugins to the database's plugin
    lists.
  - Events reach the controller through a single-slot, last-write-wins
    mailbox (`Client.StatusMailbox`).
- **Client and request correlation.** The client (`Client`) keeps a table
  from request id to the kind of request sent (attribute, derive or inline
  expansion). A failed tracked send posts `Failed` to the mailbox.
- **Response drain.** The idle job (`IdleJob`) removes each answered id from
  the table. It routes each parseable result through a change tracker into
  the attribute, derive or inline resolution map, and writes back only the
  maps that changed.
- **Server state.** This covers:
  - the debouncer (`Debouncer`);
  - the copy-on-write `Owned`/`Snapshot` cells and `State::new` (`ServerState`);
  - the database-swap helpers and stale-diagnostics clearing of `lib.rs`
    (`Backend`);
  - the open, change, close, save and watched-files notification handlers
    (`LspController`).
- **Type sizes.** `get_type_size_map` of the Sierra-to-CASM compiler
  (`TypeSizes`) is a fold over type declarations.

The analysis database (`AnalysisDb`) is modelled as a set of inputs.

- Each setter replaces one input as a whole and starts a new revision.
- The revision at which an input was last set is recorded in `changedAt`.
  This makes "this map was not written" observable.
- Files are interned: a `FileId` stands for a `FileLongId` only inside one
  database.

Several outside events are inputs to the model: whether a send reaches the
server, what response arrives, whether the server process spawns, and the
current time.

The retry counter starts at three. Each `Failed` event decrements it first,
and a `Failed` event that leaves it at zero is terminal. So the third
`Failed` event in a row ends in InitializingFailed, and only the first two
failures are retried. `Controller.RetryUntilReady` proves this for a
bootstrap that works as intended.

The bootstrap request (`fetch_defined_macros`) rejects the exchange when its
request id is zero, although it must be the first request and ids start at
zero (see "## Findings"). The model keeps both versions. With the code as
written, no bootstrap ever succeeds: `Controller.RetryAsWrittenNeverReady`
proves that the controller ends in InitializingFailed after three starts,
whatever the server answers. The controller scenario
`Controller.RetryUntilReady` uses the corrected bootstrap.

## Model

| member | source | states |
|---|---|---|
| Plugins.ProcMacroPlugin.DeclaredAttributes | crates/cairo-lang-language-server/src/lang/proc_macros/plugins/mod.rs:64-70 | the declared attributes are the plain attributes followed by the executable ones, order kept; a name is declared iff it is in either list |
| Plugins.ProcMacroPlugin.DeclaredDerives | crates/cairo-lang-language-server/src/lang/proc_macros/plugins/mod.rs:72-74 | the declared derives are exactly the defined derives, in order |
| Plugins.ProcMacroPluginSuite | crates/cairo-lang-language-server/src/lang/proc_macros/plugins/mod.rs:23-39 | exactly one macro plugin carrying the response's attributes, derives and executables; an inline entry for a name iff it is a defined inline macro, every entry the single inline plugin |
| Plugins.IntoCairoDiagnostics | crates/cairo-lang-language-server/src/lang/proc_macros/plugins/mod.rs:115-130 | same length and order, each message kept, every item on the given stable pointer, Error to Error and Warning to Warning |
| Plugins.InlineMacroGenerateCode | crates/cairo-lang-language-server/src/lang/proc_macros/plugins/inline.rs:13-49 | the callback's result for the call site's text decides: no code iff the expansion is empty; otherwise a file named `inline_proc_macro` holding the expansion, with no mappings and no aux data; in both cases the diagnostics are exactly the expansion's diagnostics converted by `IntoCairoDiagnostics` onto the macro's stable pointer, message and severity kept |
| Client.ParseExpansion | crates/cairo-lang-language-server/src/lang/proc_macros/idle_job.rs:100-108 | parsing succeeds iff the payload has the expansion shape, and then yields the payload's result |
| Client.StatusMailbox.Update | crates/cairo-lang-language-server/src/lang/proc_macros/client/controller.rs:26-28 | the slot holds the new event, whatever it held before |
| Client.StatusMailbox.Changed | crates/cairo-lang-language-server/src/lang/proc_macros/client/controller.rs:30-32 | returns the pending event and leaves the slot empty |
| Client.MailboxLastWriteWins | crates/cairo-lang-language-server/src/lang/proc_macros/client/controller.rs:26-32 | after two updates the first read yields only the second event and the next read yields nothing |
| Client.ProcMacroClient.constructor | crates/cairo-lang-language-server/src/lang/proc_macros/client/mod.rs:37-47 | a new client has an empty correlation table, nothing sent or buffered, and shares the controller's mailbox |
| Client.ProcMacroClient.AvailableResponses | crates/cairo-lang-language-server/src/lang/proc_macros/client/mod.rs:50-52 | returns every buffered response in arrival order and empties the buffer; nothing else changes |
| Client.ProcMacroClient.SendRequest | crates/cairo-lang-language-server/src/lang/proc_macros/client/mod.rs:98-110 | takes exactly one fresh id; on delivery returns that id and the request goes out under it; on failure an error and nothing goes out; the table is untouched |
| Client.ProcMacroClient.SendRequestTracked | crates/cairo-lang-language-server/src/lang/proc_macros/client/mod.rs:112-127 | on delivery adds exactly the entry for the new id, which was not in the table, and leaves the mailbox alone; on failure the table is unchanged and the mailbox holds `Failed` |
| Client.ProcMacroClient.RequestAttribute | crates/cairo-lang-language-server/src/lang/proc_macros/client/mod.rs:57-59 | as a tracked send, with the entry tagged Attribute and an attribute-expansion call sent |
| Client.ProcMacroClient.RequestDerives | crates/cairo-lang-language-server/src/lang/proc_macros/client/mod.rs:61-63 | as a tracked send, with the entry tagged Derive and a derive-expansion call sent |
| Client.ProcMacroClient.RequestInlineMacros | crates/cairo-lang-language-server/src/lang/proc_macros/client/mod.rs:65-67 | as a tracked send, with the entry tagged Inline and an inline-expansion call sent |
| Client.ProcMacroClient.FetchDefinedMacrosAsWritten | crates/cairo-lang-language-server/src/lang/proc_macros/client/mod.rs:69-96 | the code as written: succeeds iff the send is delivered, the id is NOT zero, and the received response answers that id with a manifest, which is returned; never touches the table |
| Client.ProcMacroClient.FetchDefinedMacros | crates/cairo-lang-language-server/src/lang/proc_macros/client/mod.rs:69-96 | corrected guard: succeeds iff the send is delivered as the very first request (id zero) and the received response answers that id with a manifest, which is returned; never touches the table |
| Client.BootstrapAsWrittenRejectsFirstId | crates/cairo-lang-language-server/src/lang/proc_macros/client/mod.rs:72-77 | a fresh client whose first request gets a perfect answer still fails under the code as written |
| Client.BootstrapAcceptsFirstId | crates/cairo-lang-language-server/src/lang/proc_macros/client/mod.rs:69-96 | with the corrected guard the same scenario returns the manifest |
| Client.BootstrapAfterOtherRequestAsWrittenSucceeds | crates/cairo-lang-language-server/src/lang/proc_macros/client/mod.rs:69-96 | the code as written: a bootstrap sent after an expansion request (ids 0 then 1) and answered under id 1 returns the manifest, so the first-request check at lines 79-92 is defeated; the earlier request stays in the table |
| Client.BootstrapAfterOtherRequestFails | crates/cairo-lang-language-server/src/lang/proc_macros/client/mod.rs:69-96 | corrected guard: the same late bootstrap fails, and the earlier request stays in the table |
| AnalysisDb.ClientStatus.ReadyClient | crates/cairo-lang-language-server/src/lang/proc_macros/client/controller.rs:162-170 | yields a client iff the status is Ready, and then that status's client |
| AnalysisDb.AnalysisDatabase.OverrideFileContent | crates/cairo-lang-language-server/src/lsp/controller.rs:124 | setting puts the content under the file id, clearing removes it; one new revision of the overrides input; the interner is untouched |
| IdleJob.HashMapChangeTracker.Insert | crates/cairo-lang-language-server/src/lang/proc_macros/idle_job.rs:24-30 | the key maps to the value and the tracker is marked changed, even if the value was already there |
| IdleJob.HashMapChangeTracker.InnerIfChanged | crates/cairo-lang-language-server/src/lang/proc_macros/idle_job.rs:33-35 | yields the map iff some insert happened |
| IdleJob.Route | crates/cairo-lang-language-server/src/lang/proc_macros/idle_job.rs:58-77 | one response: its id leaves the table; an unparseable payload changes no map and no flag; otherwise only the map of the request's kind gains the result and its flag is set |
| IdleJob.DrainRemovesAnswered | crates/cairo-lang-language-server/src/lang/proc_macros/idle_job.rs:55-59 | after the drain the table is the old table minus exactly the answered ids |
| IdleJob.DrainChangedFlag | crates/cairo-lang-language-server/src/lang/proc_macros/idle_job.rs:61-77 | a kind's map is marked changed iff some drained response answers a request of that kind with a parseable payload |
| IdleJob.DrainLookup | crates/cairo-lang-language-server/src/lang/proc_macros/idle_job.rs:61-77 | the stored result for a request is that of the latest parseable answer to it, whatever the arrival order; unanswered requests keep their old result |
| IdleJob.WriteBack | crates/cairo-lang-language-server/src/lang/proc_macros/idle_job.rs:85-95 | only changed maps are set (each gets a new revision); every other input, including unchanged maps, keeps its value and revision; nothing changed means the database is identical |
| IdleJob.ApplyProcMacroServerResponses | crates/cairo-lang-language-server/src/lang/proc_macros/idle_job.rs:38-98 | without a ready client returns false and writes nothing; otherwise drains the buffer, returns true iff any response was available, leaves the table without the answered ids and the database as the write-back of the drain |
| IdleJob.ReversedAnswersDrain | crates/cairo-lang-language-server/src/lang/proc_macros/idle_job.rs:55-78 | two answers arriving in the reverse order of their requests are correlated, empty the table, fill the attribute and derive maps by table entry and mark only those two maps changed |
| IdleJob.OutOfOrderAnswers | crates/cairo-lang-language-server/src/lang/proc_macros/idle_job.rs:55-95 | two answers arriving in reverse order land in the attribute and derive maps by table entry, the table ends empty and the inline map is not written |
| Controller.InlineEntries | crates/cairo-lang-language-server/src/lang/proc_macros/plugins/mod.rs:32-36 | an entry for a name iff it is in the list, each the single inline plugin |
| Controller.FetchDefinedMacrosThreadAsWritten | crates/cairo-lang-language-server/src/lang/proc_macros/client/controller.rs:79-92 | the bootstrap thread as written posts Ready with the manifest and the client iff the as-written bootstrap accepts (delivered, id NOT zero, answered under that id), otherwise Failed; the table is untouched |
| Controller.FetchDefinedMacrosThread | crates/cairo-lang-language-server/src/lang/proc_macros/client/controller.rs:79-92 | the bootstrap thread with the corrected guard: posts Ready with the manifest and the client iff the bootstrap is the first request (id zero) and is answered under that id, otherwise Failed; the table is untouched |
| Controller.ProcMacroClientController.constructor | crates/cairo-lang-language-server/src/lang/proc_macros/client/controller.rs:36-38 | an empty mailbox and three retries |
| Controller.ProcMacroClientController.ShouldInitialize | crates/cairo-lang-language-server/src/lang/proc_macros/client/controller.rs:40-45 | decrements the budget by exactly one and answers true iff the new budget is non-zero |
| Controller.ProcMacroClientController.Initialize | crates/cairo-lang-language-server/src/lang/proc_macros/client/controller.rs:60-98 | disabled: nothing changes; spawn success: a fresh client with an empty table sharing the mailbox, status Initializing with one new revision; spawn failure: status untouched and the mailbox holds FatalFailed |
| Controller.ProcMacroClientController.InitializeIfEnabledNow | crates/cairo-lang-language-server/src/lang/proc_macros/client/controller.rs:48-57 | initializes iff the status is Disabled, otherwise changes nothing |
| Controller.ViewAfter | crates/cairo-lang-language-server/src/lang/proc_macros/client/controller.rs:116-150 | after one event the status, plugins and inline plugins are those the event gives, the resolution maps and overrides are kept, and a changed status comes with a new revision |
| Controller.ProcMacroClientController.UpdateState | crates/cairo-lang-language-server/src/lang/proc_macros/client/controller.rs:116-150 | Failed consumes one retry and re-initializes while retries remain, else sets InitializingFailed; FatalFailed sets InitializingFailed whatever the budget; Ready appends the proc-macro plugin to the old plugins and the inline entries to the old inline plugins (nothing earlier is lost) and sets Ready with that client; the whole database view is `ViewAfter` of the old one |
| Controller.ProcMacroClientController.MaybeUpdateState | crates/cairo-lang-language-server/src/lang/proc_macros/client/controller.rs:100-114 | takes the pending event and applies it (database as `ViewAfter`), then always drains the client that is then ready: its table loses exactly the answered ids and the database becomes the write-back of that drain (`DrainAll`, `WriteBack`); without a ready client the database is just the event's result; returns true iff an event was pending or the ready client had buffered responses |
| Controller.RetryUntilReady | crates/cairo-lang-language-server/src/lang/proc_macros/client/controller.rs:60-150 | with the corrected bootstrap, from a fresh controller, k bootstrap failures followed by success end Ready iff k is below three, after min(k+1, 3) starts; otherwise the final status is InitializingFailed with no retry left |
| Controller.RetryAsWrittenNeverReady | crates/cairo-lang-language-server/src/lang/proc_macros/client/controller.rs:60-150 | the code as written, with ids from zero: whatever the server does with each bootstrap, the controller never becomes ready and ends InitializingFailed after exactly three starts, with no retry left |
| Debouncer.Debouncer.constructor | crates/cairo-lang-language-server/src/lang/proc_macros/debouncer.rs:9-15 | the last run is one period before now, so the gate is open |
| Debouncer.Debouncer.RunDebounced | crates/cairo-lang-language-server/src/lang/proc_macros/debouncer.rs:17-23 | runs iff at least the period has elapsed since the last run; running sets the last run to now; not running changes nothing; recorded runs stay a period apart |
| Debouncer.FirstCallRuns | crates/cairo-lang-language-server/src/lang/proc_macros/debouncer.rs:9-23 | the first call on a new debouncer runs the job, however long after construction it comes |
| Debouncer.CloseCallsRunOnce | crates/cairo-lang-language-server/src/lang/proc_macros/debouncer.rs:17-23 | two calls less than a period apart run the job at most once |
| ServerState.Owned.Snapshot | crates/cairo-lang-language-server/src/state.rs:104-106 | the snapshot reads the owned value at that moment, and the owned value and earlier snapshots are unaffected |
| ServerState.Owned.Set | crates/cairo-lang-language-server/src/state.rs:117-121 | the owned value becomes the new value and every earlier snapshot keeps reading its old value; the cell is copied iff it is shared |
| ServerState.SnapshotIsolation | crates/cairo-lang-language-server/src/state.rs:98-129 | a snapshot taken before a write reads the old value while the owner reads the new one |
| ServerState.FileDiagnostics.IsEmpty | crates/cairo-lang-language-server/src/state.rs:42-46 | true iff the parser, semantic and lowering diagnostics are all empty |
| ServerState.State.constructor | crates/cairo-lang-language-server/src/state.rs:50-69 | no open files, a new controller with three retries and an empty mailbox, a 10 ms debouncer whose gate is open |
| Backend.CarriedExactly | crates/cairo-lang-language-server/src/lib.rs:236-244 | a file is carried iff it is interned in the old database, has an override there, and some open URL denotes it; its content is copied unchanged |
| Backend.EnsureExistsInDb | crates/cairo-lang-language-server/src/lib.rs:231-246 | every resolvable open file is interned in the new database; its override map is replaced wholesale by the carried overrides, translated to new ids; the new interner only grows |
| Backend.SwapDatabase | crates/cairo-lang-language-server/src/lib.rs:631-654 | a failed build leaves the database as it was; otherwise the state holds a new database with the built-in plugins and the open files' overrides carried over |
| Backend.MaybeSwapDatabase | crates/cairo-lang-language-server/src/lib.rs:616-627 | nothing changes while the elapsed time is within the interval; otherwise attempts the swap and sets the last replacement time to now even when the swap failed |
| Backend.ClearStaleDiagnostics | crates/cairo-lang-language-server/src/lib.rs:479-499 | the diagnostics map keeps exactly the URIs that were set, with their values; each removed URI is published once, empty |
| LspController.IsCairoFilePath | crates/cairo-lang-language-server/src/lsp/controller.rs:318-320 | true iff the path ends with `.cairo` |
| LspController.EndsWithIsSuffix | crates/cairo-lang-language-server/src/lsp/controller.rs:318-320 | the suffix test agrees with comparing the string's tail |
| LspController.LastSegmentIsFinal | crates/cairo-lang-language-server/src/lsp/controller.rs:163-164 | the last segment is a slash-free suffix of the path preceded by a slash or the start |
| LspController.ConfigChanges | crates/cairo-lang-language-server/src/lsp/controller.rs:161-170 | counts changed files named `Scarb.toml` or `cairo_project.toml`; zero iff there is none |
| LspController.InvalidationsExactly | crates/cairo-lang-language-server/src/lsp/controller.rs:153-159 | a file is invalidated iff some changed URL ends in `.cairo` and denotes it in the database |
| LspController.DidOpen | crates/cairo-lang-language-server/src/lsp/controller.rs:218-225 | a resolvable URI becomes open and its override becomes the text; otherwise nothing changes; earlier snapshots of the open set are unaffected |
| LspController.DidChange | crates/cairo-lang-language-server/src/lsp/controller.rs:114-129 | only exactly one content change on a resolvable URI sets the override; anything else leaves the database as it was |
| LspController.DidClose | crates/cairo-lang-language-server/src/lsp/controller.rs:184-190 | the URI leaves the open set unconditionally; the override is dropped iff it resolves |
| LspController.DidSave | crates/cairo-lang-language-server/src/lsp/controller.rs:237-243 | a resolvable file's on-disk content is invalidated and its override dropped; the open set is unchanged |
| LspController.ReloadConfigChanges | crates/cairo-lang-language-server/src/lsp/controller.rs:161-170 | one reload per changed project configuration file, in order, all succeeding; when the n-th reload fails, exactly n reloads run and the error is returned |
| LspController.DidChangeWatchedFiles | crates/cairo-lang-language-server/src/lsp/controller.rs:153-172 | invalidates exactly the changed Cairo files the database knows and changes no input; then reloads as `ReloadConfigChanges` does, stopping with the error at the first failed reload |
| TypeSizes.SizeOf | crates/cairo-lang-sierra-to-casm/src/type_sizes.rs:19-66 | fixed sizes 1, 2, 3 and 4 by type; a wrapper takes its wrapped type's size or stops if it is unsized; panics iff an enum variant or struct member has no size yet |
| TypeSizes.EnumSize | crates/cairo-lang-sierra-to-casm/src/type_sizes.rs:55-62 | sized whenever every variant is; larger than every variant and exactly one more than some variant, or 1 for an enum without variants |
| TypeSizes.StructSize | crates/cairo-lang-sierra-to-casm/src/type_sizes.rs:63-65 | the sum of the member sizes, 0 for an empty struct, and with no negative size at least as large as each member |
| TypeSizes.FailureIsFinal | crates/cairo-lang-sierra-to-casm/src/type_sizes.rs:17-18 | once a prefix of the declarations stops or panics, every longer prefix does too |
| TypeSizes.DoneCoversDeclarations | crates/cairo-lang-sierra-to-casm/src/type_sizes.rs:16-69 | on success the keys are exactly the declared ids |
| TypeSizes.MissingEntryFails | crates/cairo-lang-sierra-to-casm/src/type_sizes.rs:18 | a declaration missing from the registry makes the result fail |
| TypeSizes.SizesAreConsistent | crates/cairo-lang-sierra-to-casm/src/type_sizes.rs:16-69 | on success, with distinct ids, every declared type is in the registry and in the result, and applying its kind's size rule to the result gives back its own size |
| TypeSizes.GetTypeSizeMap | crates/cairo-lang-sierra-to-casm/src/type_sizes.rs:12-69 | the loop returns a map iff the fold over the declarations succeeds, and then exactly the fold's sizes |
| TypeSizes.SmallProgramInOrder | crates/cairo-lang-sierra-to-casm/src/type_sizes.rs:12-69 | a felt, an empty struct, an enum over both, and a non-zero wrapper of the enum get sizes 1, 0, 2 and 2 |
| TypeSizes.SmallProgramWrapperFirst | crates/cairo-lang-sierra-to-casm/src/type_sizes.rs:48-52 | a wrapper declared before its wrapped type makes the whole result absent |

## Left out

- Threads, `Mutex` and `Arc`: `Initialize` does not run the bootstrap thread. A caller runs `FetchDefinedMacrosThread` (or `FetchDefinedMacrosThreadAsWritten`) on the client `Initialize` returns, as one step at a point of its choosing. The thread's outcome (delivered and what arrives) and the spawn result are parameters, so interleavings between the thread and the main loop are not modelled.
- Controller.FetchDefinedMacrosThread: models the intended bootstrap thread, with the corrected id guard, not controller.rs:82 as written; the as-written thread is `Controller.FetchDefinedMacrosThreadAsWritten`.
- LspController.DidChangeWatchedFiles: a reload's own effects on the workspace are not modelled, only how many reloads run and whether the first failing one ends the handler with its error.
- Controller.RetryUntilReady: shows the retry budget with the corrected bootstrap; with the code as written and ids from zero the controller never becomes ready, which `Controller.RetryAsWrittenNeverReady` proves.
- The transport (`ProcMacroServerConnection`, `try_iter`, the blocking `recv`) is a sent list and a buffer of responses. The id generator is a counter whose first value is a parameter.
- Serde (de)serialisation: payloads are a datatype and parsing succeeds iff the payload has the expected shape.
- Salsa internals, query invalidation and cancellation: the database is a set of revisioned inputs. `catch_panics` around building a database is the `buildSucceeds` parameter.
- The LSP event loop and dispatch, logging, notifications other than the empty diagnostics publish, `map_cairo_diagnostics_to_lsp` and `refresh_file_diagnostics`.
- `detect_crate_for`, `reload`, `reload_config` and `ensure_diagnostics_queries_up_to_date`: file-system and external-tool I/O. The reloads triggered by watched files are counted, not performed; whether a reload fails is a parameter, and the `refresh_diagnostics` calls after the handlers are not modelled.
- `unsafe_downcast_ref`, the `generate_code` bodies and `get_inline_macros_expansion`: foreign syntax-tree code. Token streams are strings, and the callback of the inline expansion is a function parameter.
- The background request handlers of `lsp/controller.rs` (hover, completion and the rest) and `proc_macros/mod.rs`, which only declares modules.
- URL resolution (`file_for_uri`) is not part of this model: a URL denotes a file by its scheme and path, and resolves iff that file is interned. So in the model `LspController.DidOpen` and `LspController.DidSave` on a URL whose file is not yet interned do nothing, and `LspController.DidClose` only removes it from the open set; if `file_for_uri` interns `file:` URLs on first use, those calls do more in the code.
- Wall-clock time is an explicit `now` parameter. The panic of `elapsed().unwrap()` on a clock that went backwards becomes the precondition that `now` is not before the last run or replacement.
- TypeSizes.GetTypeSizeMap: sizes are unbounded integers; the `i16` overflow of the size map is not modelled. A variant or member that has not been sized panics in the code, which becomes the precondition that the fold does not panic.
- ServerState.Owned.Set: dropping a snapshot is not modelled, so the sharing count only grows and a write may copy where the code would not. Which cell holds the value is not observable to readers.
- `State::snapshot` and `StateSnapshot`: only the `Owned` snapshot they are built from is modelled. The fields `last_replace`, `db_replace_interval` and `file_diagnostics`, which `lib.rs` uses but `state.rs` does not declare, are added to the modelled `State`.
- IdleJob.ApplyProcMacroServerResponses: a buffered response whose id is not in the correlation table (a response to an untracked request, or a second response to an id the first one already removed) panics in the code at idle_job.rs:59; here it is excluded by the `Correlated` precondition, so the panic is not modelled.
- IdleJob.Route: a response whose id is untracked or repeated panics at idle_job.rs:59; here the precondition that the id is in the table excludes it.
- Controller.ProcMacroClientController.MaybeUpdateState: the drain it always runs panics at idle_job.rs:59 on a response whose id is untracked or repeated; here that case is excluded by the `Correlated` precondition over every client the drain could touch.
- Controller.ProcMacroClientController.UpdateState: a `Failed` event requires a retry budget above zero, because the code's `retries_left -= 1` on an unsigned zero underflows; other events require nothing.

## Findings

| source | as written | input that shows it | evidently intended | confidence | as-written member | corrected member |
|---|---|---|---|---|---|---|
| crates/cairo-lang-language-server/src/lang/proc_macros/client/mod.rs:72-77 | the bootstrap bails when the id it obtained IS zero, while the message and the comments at lines 79-92 require it to be the first request, id zero | a fresh client (ids from zero) whose first request, the bootstrap, is delivered and answered under id 0 with a manifest: rejected, so the controller never becomes ready; conversely a bootstrap sent after an expansion request (id 1) and answered under id 1 is accepted | fail when the id is NOT zero, so the first request succeeds | not executed; the id generator is not part of this model and is assumed to start at zero | Client.ProcMacroClient.FetchDefinedMacrosAsWritten, Client.BootstrapAsWrittenRejectsFirstId, Client.BootstrapAfterOtherRequestAsWrittenSucceeds, Controller.RetryAsWrittenNeverReady | Client.ProcMacroClient.FetchDefinedMacros, Client.BootstrapAcceptsFirstId, Client.BootstrapAfterOtherRequestFails, Controller.RetryUntilReady |
