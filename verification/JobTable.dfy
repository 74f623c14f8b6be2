/** hw4: the job table as the program keeps it, updated slot by slot, against the state machine. */
module JobTables {
  import opened Jobs

  class JobTable {
    const maxRunners: nat
    const table: array<Job>
    var enabled: bool
    var log: seq<Event>

    ghost function Abs(): State
      reads this, table
    {
      State(enabled, table[..], log)
    }

    constructor (maxJobs: nat, maxRunners: nat)
      ensures Abs() == Init(maxJobs) && this.maxRunners == maxRunners && fresh(table)
    {
      this.maxRunners := maxRunners;
      table := new Job[maxJobs](_ => Job(false, NEW, 0, 0, false));
      enabled, log := false, [];
    }

    method SetJob(i: nat, j: Job)
      requires i < table.Length
      modifies table
      ensures Abs() == Put(old(Abs()), i, j)
    {
      table[i] := j;
    }

    method Emit(e: Event)
      modifies this`log
      ensures Abs() == Log(old(Abs()), e)
    {
      log := log + [e];
    }

    method AlterStatus(i: nat, status: Status)
      requires i < table.Length
      modifies this`log, table
      ensures Abs() == Alter(old(Abs()), i, status)
    {
      Emit(StatusChange(i, table[i].status, status));
      SetJob(i, table[i].(status := status));
    }

    method ExecuteJob(i: nat, pid: int)
      requires i < table.Length
      modifies this`log, table
      ensures Abs() == Execute(old(Abs()), i, pid)
    {
      AlterStatus(i, RUNNING);
      SetJob(i, table[i].(pgid := pid));
      Emit(Started(i, pid));
    }

    /** `check_and_execute_jobs`: counts runners up to MAX_RUNNERS and starts waiting jobs on the way. */
    method CheckAndExecuteJobs(pids: Pids)
      modifies this`log, table
      ensures Abs() == Sweep(maxRunners, old(Abs()), pids)
    {
      if !enabled {
        return;
      }
      var runningCount := 0;
      var i := 0;
      while i < table.Length
        invariant 0 <= i <= table.Length && enabled == old(enabled)
        invariant SweepFrom(maxRunners, Abs(), i, runningCount, pids) == SweepFrom(maxRunners, old(Abs()), 0, 0, pids)
      {
        var j := table[i];
        if j.occupied && runningCount < maxRunners {
          if j.status == WAITING {
            ExecuteJob(i, pids(i));
            runningCount := runningCount + 1;
          } else if j.status == RUNNING || j.status == PAUSED {
            runningCount := runningCount + 1;
          }
        }
        i := i + 1;
      }
    }

    method JobsSetEnabled(value: bool, pids: Pids) returns (rc: int)
      modifies this`enabled, this`log, table
      ensures Abs() == Step(maxRunners, old(Abs()), Enable(value, pids)) && rc == 0
    {
      enabled := value;
      CheckAndExecuteJobs(pids);
      return 0;
    }

    /** `job_create`: 0, not the job's number, on success. */
    method JobCreate(parses: bool, pids: Pids) returns (rc: int)
      modifies this`log, table
      ensures Abs() == Step(maxRunners, old(Abs()), Create(parses, pids))
      ensures rc == if FirstFree(old(table[..])) < table.Length then 0 else -1
    {
      var i := 0;
      while i < table.Length && table[i].occupied
        invariant 0 <= i <= table.Length && forall k | 0 <= k < i :: table[k].occupied
      {
        i := i + 1;
      }
      FirstFreeIs(table[..], i);
      if i == table.Length {
        return -1;
      }
      SetJob(i, table[i].(status := NEW, pgid := -1, canceled := false));
      SetJob(i, table[i].(occupied := parses));
      Emit(Created(i));
      Emit(StatusChange(i, NEW, WAITING));
      SetJob(i, table[i].(status := WAITING));
      assert Abs() == Enter(old(Abs()), i, parses);
      CheckAndExecuteJobs(pids);
      return 0;
    }

    method JobExpunge(id: int) returns (rc: int)
      modifies this`log, table
      ensures Abs() == ExpungeJob(old(Abs()), id) && rc == if CanExpunge(old(Abs()), id) then 0 else -1
    {
      if id >= table.Length || id < 0 {
        return -1;
      }
      var j := table[id];
      if !j.occupied || (j.status != ABORTED && j.status != COMPLETED) {
        return -1;
      }
      SetJob(id, j.(occupied := false));
      Emit(Expunged(id));
      return 0;
    }

    method JobCancel(id: int, killed: bool) returns (rc: int)
      modifies this`log, table
      ensures Abs() == CancelJob(old(Abs()), id, killed)
      ensures rc == if CanCancel(old(Abs()), id) && killed then 0 else -1
    {
      if id >= table.Length || id < 0 {
        return -1;
      }
      var j := table[id];
      if !j.occupied || j.status == CANCELED || j.status == ABORTED || j.status == COMPLETED {
        return -1;
      }
      if !killed {
        return -1;
      }
      SetJob(id, j.(canceled := true));
      AlterStatus(id, if j.status == NEW || j.status == WAITING then ABORTED else CANCELED);
      return 0;
    }

    /** `job_pause` only sends a signal: the status follows when the runner reports that it has stopped. */
    method JobPause(id: int, killed: bool) returns (rc: int)
      ensures rc == if Has(Abs(), id) && table[id].occupied && table[id].status == RUNNING && killed then 0 else -1
    {
      if id >= table.Length || id < 0 {
        return -1;
      }
      if !table[id].occupied || table[id].status != RUNNING {
        return -1;
      }
      return if killed then 0 else -1;
    }

    /** `job_resume`, likewise. */
    method JobResume(id: int, killed: bool) returns (rc: int)
      ensures rc == if Has(Abs(), id) && table[id].occupied && table[id].status == PAUSED && killed then 0 else -1
    {
      if id >= table.Length || id < 0 {
        return -1;
      }
      if !table[id].occupied || table[id].status != PAUSED {
        return -1;
      }
      return if killed then 0 else -1;
    }

    method ProcessWstatus(i: nat, w: int)
      requires i < table.Length
      modifies this`log, table
      ensures Abs() == Process(old(Abs()), i, w)
    {
      var j := table[i];
      if w == NO_WORD {
        return;
      }
      if IfExited(w) {
        SetJob(i, j.(exitStatus := w));
        Emit(Ended(i, j.pgid, w));
        AlterStatus(i, COMPLETED);
      } else if IfSignaled(w) {
        SetJob(i, j.(exitStatus := w));
        Emit(Ended(i, j.pgid, w));
        AlterStatus(i, ABORTED);
      } else if IfStopped(w) {
        Emit(Paused(i, j.pgid));
        AlterStatus(i, PAUSED);
      } else if IfContinued(w) {
        Emit(Resumed(i, j.pgid));
        AlterStatus(i, RUNNING);
      }
    }

    /** The SIGCHLD handler. */
    method TerminateHandler(words: Words, pids: Pids)
      modifies this`log, table
      ensures Abs() == Step(maxRunners, old(Abs()), Child(words, pids))
    {
      var i := 0;
      while i < table.Length
        invariant 0 <= i <= table.Length && ReportsFrom(Abs(), i, words) == ReportsFrom(old(Abs()), 0, words)
      {
        if table[i].occupied {
          var status := table[i].status;
          if status == RUNNING || status == CANCELED || status == PAUSED {
            ProcessWstatus(i, words(i));
          }
        }
        i := i + 1;
      }
      CheckAndExecuteJobs(pids);
    }

    method JobsFini(kills: nat -> bool, words: Words)
      modifies this`log, table
      ensures Abs() == Step(maxRunners, old(Abs()), Finish(kills, words))
    {
      var i := 0;
      while i < table.Length
        invariant 0 <= i <= table.Length && CancelAll(Abs(), i, kills) == CancelAll(old(Abs()), 0, kills)
      {
        var _ := JobCancel(i, kills(i));
        i := i + 1;
      }
      ghost var canceled := Abs();
      i := 0;
      while i < table.Length
        invariant 0 <= i <= table.Length && ReapAll(Abs(), i, words) == ReapAll(canceled, 0, words)
      {
        if table[i].occupied {
          var status := table[i].status;
          if status == RUNNING || status == CANCELED || status == PAUSED {
            ProcessWstatus(i, Awaited(words(i)));
          }
          var _ := JobExpunge(i);
        }
        i := i + 1;
      }
    }
  }
}
