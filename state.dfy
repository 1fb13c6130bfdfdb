/**
 * Language-server state (state.rs): copy-on-write `Owned` values with
 * read-only snapshots, per-file diagnostics, and the state record with its
 * initial values.
 */
module ServerState {
  import opened Wrappers
  import opened AnalysisDb
  import opened Controller
  import opened Debouncer

  /** One shared, reference-counted allocation (an `Arc`). */
  class Shared<T> {
    var value: T
    /** Owners and snapshots currently holding this allocation. */
    var strong: nat

    constructor (value: T)
      ensures this.value == value && strong == 1
    {
      this.value := value;
      strong := 1;
    }
  }

  /** A read-only view of an `Owned` value, as it was when taken. */
  class Snapshot<T> {
    const cell: Shared<T>

    constructor (cell: Shared<T>)
      ensures this.cell == cell
    {
      this.cell := cell;
    }

    function Value(): T
      reads cell
    {
      cell.value
    }
  }

  /** A value that can be mutated and snapshotted; writes copy when shared. */
  class Owned<T> {
    var cell: Shared<T>
    /** The snapshots that still share `cell`. */
    ghost var issued: set<Snapshot<T>>
    /** Every snapshot ever taken of this value. */
    ghost var history: set<Snapshot<T>>

    /**
     * The allocation is held by this owner and the snapshots issued since the
     * last copy; any earlier snapshot holds another allocation.
     */
    ghost predicate Valid()
      reads this, cell
    {
      && cell.strong == 1 + |issued|
      && issued <= history
      && (forall s :: s in issued ==> s.cell == cell)
      && (forall s :: s in history && s.cell == cell ==> s in issued)
    }

    constructor (value: T)
      ensures Valid() && Value() == value && history == {} && fresh(cell)
    {
      cell := new Shared(value);
      issued := {};
      history := {};
    }

    /** The current value (`deref`). */
    function Value(): T
      reads this, cell
    {
      cell.value
    }

    /** Takes a snapshot equal to the current value; nothing is copied. */
    method Snapshot() returns (s: Snapshot<T>)
      requires Valid()
      modifies this, cell
      ensures Valid() && fresh(s) && cell == old(cell)
      ensures s.Value() == Value() && Value() == old(Value())
      ensures history == old(history) + {s}
      ensures forall t :: t in old(history) ==> t.Value() == old(t.Value())
    {
      s := new Snapshot(cell);
      cell.strong := cell.strong + 1;
      assert s !in issued;
      issued := issued + {s};
      history := history + {s};
    }

    /**
     * Replaces the value through `deref_mut`: the allocation is written in
     * place when nothing else holds it, and copied first otherwise.  No
     * snapshot taken earlier observes the write.
     */
    method Set(v: T)
      requires Valid()
      modifies this, cell
      ensures Valid() && Value() == v && history == old(history)
      ensures forall t :: t in old(history) ==> t.Value() == old(t.Value())
      ensures old(cell.strong) == 1 ==> cell == old(cell)
      ensures old(cell.strong) > 1 ==> fresh(cell)
    {
      if cell.strong > 1 {
        cell.strong := cell.strong - 1;
        cell := new Shared(v);
        issued := {};
      } else {
        cell.value := v;
      }
    }
  }

  /** A snapshot keeps the value it was taken with after the owner is written. */
  method SnapshotIsolation(before: int, after: int) returns (seen: int, current: int)
    ensures seen == before && current == after
  {
    var owned := new Owned(before);
    var snapshot := owned.Snapshot();
    owned.Set(after);
    seen := snapshot.Value();
    current := owned.Value();
  }

  /** The diagnostics of one file, by compiler phase. */
  datatype FileDiagnostics = FileDiagnostics(parser: seq<string>, semantic: seq<string>, lowering: seq<string>)
  {
    function IsEmpty(): (r: bool)
      ensures r <==> forall d :: d !in parser && d !in semantic && d !in lowering
    {
      if semantic == [] && lowering == [] && parser == [] then true
      else
        assert parser != [] ==> parser[0] in parser;
        assert semantic != [] ==> semantic[0] in semantic;
        assert lowering != [] ==> lowering[0] in lowering;
        false
    }
  }

  /** The proc-macro idle job runs at most once per this many milliseconds. */
  const ProcMacroDebounceMillis: nat := 10

  /** The language server's state. */
  class State {
    var db: AnalysisDatabase
    const openFiles: Owned<set<Url>>
    const config: Owned<Config>
    const procMacroController: ProcMacroClientController
    const procMacroDebouncer: Debouncer
    /** The diagnostics last published, per file. */
    var fileDiagnostics: map<Url, FileDiagnostics>
    /** When the database was last replaced, and the least interval between replacements. */
    var lastReplace: int
    const dbReplaceInterval: nat

    ghost predicate Valid()
      reads this, db, openFiles, openFiles.cell
    {
      db.Valid() && openFiles.Valid()
    }

    /** `now` is the clock reading at construction; `config` is the default configuration. */
    constructor (db: AnalysisDatabase, config: Config, now: int, lastReplace: int, dbReplaceInterval: nat)
      requires db.Valid()
      ensures Valid() && this.db == db
      ensures fresh(openFiles) && openFiles.Value() == {}
      ensures fresh(this.config) && this.config.Value() == config
      ensures fresh(procMacroController) && fresh(procMacroController.mailbox)
      ensures procMacroController.mailbox.slot == None && procMacroController.retriesLeft == InitialRetries
      ensures fresh(procMacroDebouncer) && procMacroDebouncer.time == ProcMacroDebounceMillis
      ensures procMacroDebouncer.lastRun == now - ProcMacroDebounceMillis && procMacroDebouncer.Valid()
      ensures fileDiagnostics == map[]
      ensures this.lastReplace == lastReplace && this.dbReplaceInterval == dbReplaceInterval
    {
      this.db := db;
      openFiles := new Owned({});
      this.config := new Owned(config);
      procMacroController := new ProcMacroClientController();
      procMacroDebouncer := new Debouncer(ProcMacroDebounceMillis, now);
      fileDiagnostics := map[];
      this.lastReplace := lastReplace;
      this.dbReplaceInterval := dbReplaceInterval;
    }
  }
}
