/** hw4: over whole runs, how a job ended is what its fields say, and nothing starts while starting is disabled. */
module JobReasons {
  import opened Jobs
  import opened JobScheduling
  import opened JobEffects

  // ----- Why a job is in its state

  /**
   * Completed jobs have exited; aborted jobs were killed by a signal or cancelled before they started; a cancelled job
   * says so; a waiting job has no process group yet.
   */
  predicate Explained(j: Job) {
    j.occupied ==>
      match j.status
      case NEW => false
      case WAITING => j.pgid == -1 && !j.canceled
      case COMPLETED => j.exitStatus % 128 == 0
      case ABORTED => 1 <= j.exitStatus % 128 <= 126 || (j.pgid == -1 && j.canceled)
      case CANCELED => j.canceled
      case _ => true
  }

  predicate AllExplained(t: seq<Job>) {
    forall i | 0 <= i < |t| :: Explained(t[i])
  }

  lemma ToldExplained(j: Job, w: int)
    requires Explained(j) && HasRunner(j)
    ensures Explained(Told(j, w))
  {
  }

  lemma SweepExplained(r: nat, s: State, pids: Pids)
    requires AllExplained(s.table)
    ensures AllExplained(Sweep(r, s, pids).table)
  {
    if s.enabled {
      SweepEffect(r, s, pids);
      var t' := Swept(r, s.table, pids);
      forall i | 0 <= i < |t'| ensures Explained(t'[i]) {
        assert Explained(s.table[i]);
      }
    }
  }

  lemma CreateExplained(r: nat, s: State, parses: bool, pids: Pids)
    requires AllExplained(s.table)
    ensures AllExplained(CreateJob(r, s, parses, pids).table)
  {
    var k := FirstFree(s.table);
    if k < |s.table| {
      SweepExplained(r, Enter(s, k, parses), pids);
    }
  }

  lemma FinishExplained(r: nat, s: State, kills: nat -> bool, words: Words)
    requires AllExplained(s.table)
    ensures AllExplained(Step(r, s, Finish(kills, words)).table)
  {
    forall i | 0 <= i < |s.table| ensures Explained(Step(r, s, Finish(kills, words)).table[i]) {
      FinishEffect(r, s, kills, words, i);
      assert Explained(s.table[i]);
    }
  }

  lemma ReportedExplained(t: seq<Job>, words: Words)
    requires AllExplained(t)
    ensures AllExplained(Reported(t, words))
  {
    forall i | 0 <= i < |t| ensures Explained(Reported(t, words)[i]) {
      assert Explained(t[i]);
      if HasRunner(t[i]) {
        ToldExplained(t[i], words(i));
      }
    }
  }

  lemma StepExplained(r: nat, s: State, a: Action)
    requires AllExplained(s.table)
    ensures AllExplained(Step(r, s, a).table)
  {
    match a
    case Enable(value, pids) =>
      SweepExplained(r, s.(enabled := value), pids);
    case Create(parses, pids) =>
      CreateExplained(r, s, parses, pids);
    case Expunge(id) =>
      ExpungeEffect(s, id);
    case Cancel(id, killed) =>
      CancelEffect(s, id, killed);
    case Pause(_, _) =>
    case Resume(_, _) =>
    case Child(words, pids) =>
      ReportsEffectFrom(s.table, s, 0, words);
      ReportedExplained(s.table, words);
      SweepExplained(r, ReportsFrom(s, 0, words), pids);
    case Finish(kills, words) =>
      FinishExplained(r, s, kills, words);
  }

  lemma {:induction false} RunExplainedFrom(r: nat, s: State, actions: seq<Action>)
    requires AllExplained(s.table)
    ensures AllExplained(Run(r, s, actions).table)
    decreases |actions|
  {
    if actions == [] {
    } else {
      StepExplained(r, s, actions[0]);
      RunExplainedFrom(r, Step(r, s, actions[0]), actions[1..]);
    }
  }

  /** Main result: in every run, also in those that lose jobs, every job's state is explained by its other fields. */
  lemma RunExplained(r: nat, maxJobs: nat, actions: seq<Action>)
    ensures AllExplained(Run(r, Init(maxJobs), actions).table)
  {
    RunExplainedFrom(r, Init(maxJobs), actions);
  }

  // ----- While starting is disabled

  /** No slot has a runner that had none. */
  predicate NoNewRunner(t: seq<Job>, t': seq<Job>) {
    |t'| == |t| && forall i | 0 <= i < |t| && HasRunner(t'[i]) :: HasRunner(t[i])
  }

  lemma DisabledStep(r: nat, s: State, a: Action)
    requires !s.enabled && (a.Enable? ==> !a.value)
    ensures !Step(r, s, a).enabled && NoNewRunner(s.table, Step(r, s, a).table)
  {
    match a
    case Enable(value, pids) =>
    case Create(parses, pids) =>
    case Expunge(id) =>
      ExpungeEffect(s, id);
    case Cancel(id, killed) =>
      CancelEffect(s, id, killed);
    case Pause(_, _) =>
    case Resume(_, _) =>
    case Child(words, pids) =>
      ReportsEffectFrom(s.table, s, 0, words);
      ChildEffect(r, s, words, pids);
    case Finish(kills, words) =>
      FinishDisabled(r, s, kills, words);
  }

  lemma FinishDisabled(r: nat, s: State, kills: nat -> bool, words: Words)
    ensures Step(r, s, Finish(kills, words)).enabled == s.enabled
    ensures NoNewRunner(s.table, Step(r, s, Finish(kills, words)).table)
  {
    CancelAllEffect(s.table, s, 0, kills);
    var s1 := CancelAll(s, 0, kills);
    ReapAllEffect(s1.table, s1, 0, words);
    var t' := Step(r, s, Finish(kills, words)).table;
    forall i | 0 <= i < |s.table| && HasRunner(t'[i]) ensures HasRunner(s.table[i]) {
      FinishEffect(r, s, kills, words, i);
    }
  }

  /** Nothing starts between a command that disables starting and the next one that enables it. */
  lemma {:induction false} DisabledRun(r: nat, s: State, actions: seq<Action>)
    requires !s.enabled && forall i | 0 <= i < |actions| && actions[i].Enable? :: !actions[i].value
    ensures !Run(r, s, actions).enabled && NoNewRunner(s.table, Run(r, s, actions).table)
    decreases |actions|
  {
    if actions == [] {
    } else {
      DisabledStep(r, s, actions[0]);
      DisabledRun(r, Step(r, s, actions[0]), actions[1..]);
    }
  }
}
