/**
 * The time gate of the proc-macro idle job (debouncer.rs).  Wall-clock
 * readings are passed in as `now`, in one unit throughout (milliseconds in
 * the language server).
 */
module Debouncer {

  class Debouncer {
    /** The minimum distance between two runs of the job. */
    const time: nat
    /** When the job last ran; initially one full period before construction. */
    var lastRun: int
    /** Every moment at which the job ran, oldest first. */
    ghost var runs: seq<int>

    /** Consecutive runs are at least `time` apart, and `lastRun` is the latest one. */
    ghost predicate Valid()
      reads this
    {
      && (runs != [] ==> lastRun == runs[|runs| - 1])
      && forall i :: 0 < i < |runs| ==> runs[i] - runs[i - 1] >= time
    }

    constructor (time: nat, now: int)
      ensures this.time == time && lastRun == now - time && runs == []
      ensures Valid()
    {
      this.time := time;
      lastRun := now - time;
      runs := [];
    }

    /**
     * Runs the job (reported as `runJob`) when at least `time` has passed
     * since the last run, and then records `now` as the last run.  A clock
     * reading earlier than the last run is a panic (the elapsed time cannot
     * be measured), hence the precondition.
     */
    method RunDebounced(now: int) returns (runJob: bool)
      requires Valid() && lastRun <= now
      modifies this
      ensures Valid()
      ensures runJob <==> now - old(lastRun) >= time
      ensures runJob ==> lastRun == now && runs == old(runs) + [now]
      ensures !runJob ==> lastRun == old(lastRun) && runs == old(runs)
    {
      runJob := now - lastRun >= time;
      if runJob {
        lastRun := now;
        runs := runs + [now];
      }
    }
  }

  /** A fresh debouncer runs the job on its very first call, whenever that call comes. */
  method FirstCallRuns(time: nat, created: int, later: int) returns (ran: bool)
    requires created <= later
    ensures ran
  {
    var d := new Debouncer(time, created);
    ran := d.RunDebounced(later);
  }

  /** Two calls closer together than the period run the job at most once. */
  method CloseCallsRunOnce(time: nat, start: int, first: int, second: int) returns (ranFirst: bool, ranSecond: bool)
    requires start <= first <= second < first + time
    ensures !(ranFirst && ranSecond)
    ensures ranFirst
  {
    var d := new Debouncer(time, start);
    ranFirst := d.RunDebounced(first);
    ranSecond := d.RunDebounced(second);
  }
}
