/**
 * The job table of the shell and the bookkeeping of an asynchronous command:
 * the counter that hands out job ids, the table from id to job, and the
 * flags `_wait`, `_killed`, `result` and `exception` each job carries.
 * The thread, its event loop and the signal handlers are not modelled; what
 * happens while `foreground` waits is given as a `WaitEvent`.
 */
module AsyncJobs {
  import opened Wrappers

  /** The faults a command body can raise. SystemExit is not an Exception. */
  datatype Fault = TypeFault(message: string) | CommandFault(message: string)
                 | OtherFault(message: string) | SystemExit(code: int)

  /** `except Exception` catches every fault but SystemExit. */
  predicate IsException(f: Fault) {
    !f.SystemExit?
  }

  /** How a command body ends: with a value (None standing for Python's None) or a fault. */
  datatype BodyOutcome = Returned(value: Option<int>) | Raised(fault: Fault)

  /**
   * What happens while `foreground` polls: the thread had already ended, the
   * body ends now, ctrl+z calls `background`, or ctrl+c calls `stop`.
   */
  datatype WaitEvent = AlreadyDone | BodyEnds(outcome: BodyOutcome) | Suspend | Interrupt

  /**
   * How `foreground` ends: CommandCancelled, CommandBackgrounded, the captured
   * fault re-raised, the job's result, or a KeyError from the job table.
   */
  datatype Foregrounded = Cancelled(jobPid: int) | Backgrounded(jobPid: int)
                        | Reraised(fault: Fault) | Result(value: Option<int>)
                        | KeyError(key: int)

  /**
   * The decision `foreground` takes once its wait is over, from the job's
   * flags, whether its id is still in the table and the result stored there.
   */
  function Decide(killed: bool, waiting: bool, exception: Option<Fault>, jobPid: int,
                  present: bool, stored: Option<int>): (r: Foregrounded)
    ensures r.Cancelled? <==> killed
    ensures r.Backgrounded? <==> !killed && !waiting
    ensures r.Reraised? <==> !killed && waiting && present && exception.Some?
    ensures r.Result? <==> !killed && waiting && present && exception.None?
    ensures r.KeyError? <==> !killed && waiting && !present
    ensures r.Cancelled? || r.Backgrounded? ==> r.jobPid == jobPid
    ensures r.Reraised? ==> exception == Some(r.fault)
    ensures r.Result? ==> r.value == stored
  {
    if killed then Cancelled(jobPid)
    else if !waiting then Backgrounded(jobPid)
    else if !present then KeyError(jobPid)
    else if exception.Some? then Reraised(exception.value)
    else Result(stored)
  }

  /** The outcomes after which `foreground` has taken the job out of the table. */
  predicate Removes(r: Foregrounded) {
    r.Reraised? || r.Result?
  }

  /** The globals `JOBS` and `NEXT_JOB_PID`. */
  class JobTable {
    var jobs: map<int, AsyncCommand>
    var nextJobPid: int

    /** Every id in the table was handed out by the counter and names its own job. */
    predicate Valid()
      reads this
    {
      nextJobPid >= 1 &&
      forall p :: p in jobs ==> 1 <= p < nextJobPid && jobs[p].jobPid == p
    }

    /** The table starts empty and the counter at 1. */
    constructor()
      ensures jobs == map[] && nextJobPid == 1
      ensures Valid()
    {
      jobs := map[];
      nextJobPid := 1;
    }
  }

  class AsyncCommand {
    const jobPid: int
    var result: Option<int>
    var exception: Option<Fault>
    var waiting: bool
    var killed: bool

    /**
     * A new job takes the counter's value as its id, enters the table under
     * it, and the counter moves on by one; the id was not in use before.
     */
    constructor(table: JobTable)
      requires table.Valid()
      modifies table
      ensures jobPid == old(table.nextJobPid) && jobPid !in old(table.jobs)
      ensures table.nextJobPid == old(table.nextJobPid) + 1
      ensures table.jobs == old(table.jobs)[jobPid := this]
      ensures result == None && exception == None && waiting && !killed
      ensures table.Valid()
    {
      jobPid := table.nextJobPid;
      result := None;
      exception := None;
      waiting := true;
      killed := false;
      new;
      table.jobs := table.jobs[jobPid := this];
      table.nextJobPid := table.nextJobPid + 1;
    }

    /**
     * The thread body: a value is stored in `result`, an Exception in
     * `exception`; nothing is raised. A SystemExit ends the thread with
     * neither recorded.
     */
    method Run(outcome: BodyOutcome)
      modifies this
      ensures outcome.Returned? ==> result == outcome.value && exception == old(exception)
      ensures outcome.Raised? && IsException(outcome.fault) ==>
                exception == Some(outcome.fault) && result == old(result)
      ensures outcome.Raised? && !IsException(outcome.fault) ==>
                exception == old(exception) && result == old(result)
      ensures waiting == old(waiting) && killed == old(killed)
    {
      match outcome
      case Returned(v) =>
        result := v;
      case Raised(f) =>
        if IsException(f) {
          exception := Some(f);
        }
    }

    /**
     * Marks the job killed and, unless `dontDelete`, removes it from the
     * table; `keyError` reports the KeyError raised when its id is absent.
     */
    method Stop(table: JobTable, dontDelete: bool) returns (keyError: bool)
      requires table.Valid()
      modifies this, table
      ensures killed
      ensures keyError <==> !dontDelete && jobPid !in old(table.jobs)
      ensures table.jobs == if dontDelete then old(table.jobs) else old(table.jobs) - {jobPid}
      ensures table.nextJobPid == old(table.nextJobPid) && table.Valid()
      ensures result == old(result) && exception == old(exception) && waiting == old(waiting)
    {
      killed := true;
      keyError := false;
      if dontDelete {
        return;
      }
      if jobPid in table.jobs {
        table.jobs := table.jobs - {jobPid};
      } else {
        keyError := true;
      }
    }

    /** Clears the wait flag and nothing else: the job stays in the table. */
    method Background()
      modifies this
      ensures !waiting
      ensures result == old(result) && exception == old(exception) && killed == old(killed)
    {
      waiting := false;
    }

    /**
     * Waits on the job again, lets `event` happen, then decides: killed gives
     * Cancelled, a cleared wait gives Backgrounded, a captured exception takes
     * the job out of the table and is re-raised, otherwise the job is popped
     * and the result stored under its id returned.
     */
    method Foreground(table: JobTable, event: WaitEvent) returns (r: Foregrounded)
      requires table.Valid()
      modifies this, table
      ensures waiting == !event.Suspend?
      ensures killed == (old(killed) || event.Interrupt?)
      ensures result == if event.BodyEnds? && event.outcome.Returned? then event.outcome.value
                        else old(result)
      ensures exception == if event.BodyEnds? && event.outcome.Raised? && IsException(event.outcome.fault)
                           then Some(event.outcome.fault) else old(exception)
      ensures event.Interrupt? && jobPid !in old(table.jobs) ==> r == KeyError(jobPid)
      ensures !(event.Interrupt? && jobPid !in old(table.jobs)) ==>
                r == Decide(killed, waiting, exception, jobPid, jobPid in old(table.jobs),
                            if jobPid in old(table.jobs) then old(table.jobs)[jobPid].result else None)
      ensures table.jobs == if (event.Interrupt? && jobPid in old(table.jobs)) || Removes(r)
                            then old(table.jobs) - {jobPid} else old(table.jobs)
      ensures table.nextJobPid == old(table.nextJobPid) && table.Valid()
    {
      waiting := true;
      match event {
        case AlreadyDone =>
        case BodyEnds(o) =>
          Run(o);
        case Suspend =>
          Background();
        case Interrupt =>
          var keyError := Stop(table, false);
          if keyError {
            return KeyError(jobPid);
          }
      }
      if killed {
        return Cancelled(jobPid);
      }
      if !waiting {
        return Backgrounded(jobPid);
      }
      if jobPid !in table.jobs {
        return KeyError(jobPid);
      }
      if exception.Some? {
        table.jobs := table.jobs - {jobPid};
        return Reraised(exception.value);
      }
      r := Result(table.jobs[jobPid].result);
      table.jobs := table.jobs - {jobPid};
    }
  }
}
