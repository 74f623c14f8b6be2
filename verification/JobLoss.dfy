/** hw4: exactly which runs keep callbacks and table in agreement. */
module JobLoss {
  import opened Wrappers
  import opened Jobs
  import opened JobScheduling
  import opened JobLog

  // ----- A slot whose callbacks are broken, or about to be

  /** The callbacks of slot `k` break the life cycle, or announce a job where there is none. */
  predicate Broken(s: State, k: nat) {
    k < |s.table| &&
    (Trace(k, s.log).None? || (!s.table[k].occupied && Trace(k, s.log).value.Held?))
  }

  lemma BrokenUnfaithful(s: State, k: nat)
    requires Broken(s, k)
    ensures !Faithful(s)
  {
    assert !FaithfulAt(s, k);
  }

  lemma {:induction false} BrokenForever(i: nat, log: seq<Event>, longer: seq<Event>)
    requires log <= longer && Trace(i, log).None?
    ensures Trace(i, longer).None?
    decreases |longer|
  {
    if longer == log {
    } else {
      BrokenForever(i, log, longer[..|longer| - 1]);
    }
  }

  /** Nothing happens to slot `k` while it is free; callbacks are only added. */
  predicate Spares(s: State, s': State, k: nat) {
    && |s'.table| == |s.table| && k < |s.table| && s.log <= s'.log
    && (!s.table[k].occupied ==> !s'.table[k].occupied && Trace(k, s'.log) == Trace(k, s.log))
  }

  lemma SparesTwice(s: State, s1: State, s2: State, k: nat)
    requires Spares(s, s1, k) && Spares(s1, s2, k)
    ensures Spares(s, s2, k)
  {
  }

  lemma SparesBroken(s: State, s': State, k: nat)
    requires Spares(s, s', k) && Broken(s, k)
    ensures Broken(s', k)
  {
    if Trace(k, s.log).None? {
      BrokenForever(k, s.log, s'.log);
    }
  }

  lemma OneElsewhere(k: nat, log: seq<Event>, e: Event)
    requires e.id != k
    ensures Trace(k, log + [e]) == Trace(k, log)
  {
    TraceNext(k, log, e);
  }

  lemma TwoElsewhere(k: nat, log: seq<Event>, e: Event, f: Event, log': seq<Event>)
    requires e.id != k && f.id != k && log' == log + [e] + [f]
    ensures Trace(k, log') == Trace(k, log) && log <= log'
  {
    OneElsewhere(k, log, e);
    OneElsewhere(k, log + [e], f);
  }

  // ----- Every operation touches occupied slots only, but for the creation of a job

  lemma ExecuteSpares(s: State, i: nat, pid: int, k: nat)
    requires Has(s, i) && s.table[i].occupied && Has(s, k)
    ensures Spares(s, Execute(s, i, pid), k)
  {
    var e, f, s' := StatusChange(i, s.table[i].status, RUNNING), Started(i, pid), Execute(s, i, pid);
    assert s'.log == s.log + [e] + [f];
    if i != k {
      TwoElsewhere(k, s.log, e, f, s'.log);
    }
  }

  lemma ProcessSpares(s: State, i: nat, w: int, k: nat)
    requires Has(s, i) && s.table[i].occupied && Has(s, k)
    ensures Spares(s, Process(s, i, w), k)
  {
    var s' := Process(s, i, w);
    if s' != s {
      var e, f := s'.log[|s.log|], s'.log[|s.log| + 1];
      assert s'.log == s.log + [e] + [f];
      if i != k {
        TwoElsewhere(k, s.log, e, f, s'.log);
      }
    }
  }

  lemma ExpungeSpares(s: State, id: int, k: nat)
    requires Has(s, k)
    ensures Spares(s, ExpungeJob(s, id), k)
  {
    if CanExpunge(s, id) && id != k {
      OneElsewhere(k, s.log, Expunged(id));
    }
  }

  lemma CancelSpares(s: State, id: int, killed: bool, k: nat)
    requires Has(s, k)
    ensures Spares(s, CancelJob(s, id, killed), k)
  {
    if CanCancel(s, id) && killed && id != k {
      OneElsewhere(k, s.log, CancelJob(s, id, killed).log[|s.log|]);
    }
  }

  lemma {:induction false} SweepFromSpares(r: nat, s: State, i: nat, count: nat, pids: Pids, k: nat)
    requires i <= |s.table| && Has(s, k)
    ensures Spares(s, SweepFrom(r, s, i, count, pids), k)
    decreases |s.table| - i
  {
    if i == |s.table| {
    } else {
      var j := s.table[i];
      if j.occupied && count < r && j.status == WAITING {
        var s1 := Execute(s, i, pids(i));
        ExecuteSpares(s, i, pids(i), k);
        SweepFromSpares(r, s1, i + 1, count + 1, pids, k);
        SparesTwice(s, s1, SweepFrom(r, s1, i + 1, count + 1, pids), k);
      } else {
        SweepFromSpares(r, s, i + 1, count + 1, pids, k);
        SweepFromSpares(r, s, i + 1, count, pids, k);
      }
    }
  }

  lemma SweepSpares(r: nat, s: State, pids: Pids, k: nat)
    requires Has(s, k)
    ensures Spares(s, Sweep(r, s, pids), k)
  {
    SweepFromSpares(r, s, 0, 0, pids, k);
  }

  lemma {:induction false} ReportsSpare(s: State, i: nat, words: Words, k: nat)
    requires i <= |s.table| && Has(s, k)
    ensures Spares(s, ReportsFrom(s, i, words), k)
    decreases |s.table| - i
  {
    if i == |s.table| {
    } else if HasRunner(s.table[i]) {
      var s1 := Process(s, i, words(i));
      ProcessSpares(s, i, words(i), k);
      ReportsSpare(s1, i + 1, words, k);
      SparesTwice(s, s1, ReportsFrom(s1, i + 1, words), k);
    } else {
      ReportsSpare(s, i + 1, words, k);
    }
  }

  lemma {:induction false} CancelAllSpares(s: State, i: nat, kills: nat -> bool, k: nat)
    requires i <= |s.table| && Has(s, k)
    ensures Spares(s, CancelAll(s, i, kills), k)
    decreases |s.table| - i
  {
    if i == |s.table| {
    } else {
      var s1 := CancelJob(s, i, kills(i));
      CancelSpares(s, i, kills(i), k);
      CancelAllSpares(s1, i + 1, kills, k);
      SparesTwice(s, s1, CancelAll(s1, i + 1, kills), k);
    }
  }

  lemma {:induction false} ReapAllSpares(s: State, i: nat, words: Words, k: nat)
    requires i <= |s.table| && Has(s, k)
    ensures Spares(s, ReapAll(s, i, words), k)
    decreases |s.table| - i
  {
    if i == |s.table| {
    } else {
      var s1 := if HasRunner(s.table[i]) then Process(s, i, Awaited(words(i))) else s;
      var s2 := ExpungeJob(s1, i);
      if HasRunner(s.table[i]) {
        ProcessSpares(s, i, Awaited(words(i)), k);
      }
      ExpungeSpares(s1, i, k);
      SparesTwice(s, s1, s2, k);
      ReapAllSpares(s2, i + 1, words, k);
      SparesTwice(s, s2, ReapAll(s2, i + 1, words), k);
    }
  }

  // ----- A broken slot stays broken

  /** A job announced in a slot that the callbacks say is taken breaks the chain. */
  lemma EnterBroken(s: State, n: nat, parses: bool, k: nat)
    requires Has(s, n) && !s.table[n].occupied && Broken(s, k)
    ensures Broken(Enter(s, n, parses), k)
  {
    var s', e, f := Enter(s, n, parses), Created(n), StatusChange(n, NEW, WAITING);
    assert s'.log == s.log + [e] + [f];
    if n != k {
      TwoElsewhere(k, s.log, e, f, s'.log);
      SparesBroken(s, s', k);
    } else {
      TraceNext(k, s.log, e);
      BrokenForever(k, s.log + [e], s'.log);
    }
  }

  lemma CreateBroken(r: nat, s: State, parses: bool, pids: Pids, k: nat)
    requires Broken(s, k)
    ensures Broken(CreateJob(r, s, parses, pids), k)
  {
    var n := FirstFree(s.table);
    if n < |s.table| {
      var s1 := Enter(s, n, parses);
      EnterBroken(s, n, parses, k);
      SweepSpares(r, s1, pids, k);
      SparesBroken(s1, Sweep(r, s1, pids), k);
    }
  }

  lemma StepBroken(r: nat, s: State, a: Action, k: nat)
    requires Broken(s, k)
    ensures Broken(Step(r, s, a), k)
  {
    match a
    case Enable(value, pids) =>
      var s1 := s.(enabled := value);
      SweepSpares(r, s1, pids, k);
      SparesBroken(s1, Sweep(r, s1, pids), k);
    case Create(parses, pids) =>
      CreateBroken(r, s, parses, pids, k);
    case Expunge(id) =>
      ExpungeSpares(s, id, k);
      SparesBroken(s, ExpungeJob(s, id), k);
    case Cancel(id, killed) =>
      CancelSpares(s, id, killed, k);
      SparesBroken(s, CancelJob(s, id, killed), k);
    case Pause(_, _) =>
    case Resume(_, _) =>
    case Child(words, pids) =>
      var s1 := ReportsFrom(s, 0, words);
      ReportsSpare(s, 0, words, k);
      SparesBroken(s, s1, k);
      SweepSpares(r, s1, pids, k);
      SparesBroken(s1, Sweep(r, s1, pids), k);
    case Finish(kills, words) =>
      var s1 := CancelAll(s, 0, kills);
      CancelAllSpares(s, 0, kills, k);
      SparesBroken(s, s1, k);
      ReapAllSpares(s1, 0, words, k);
      SparesBroken(s1, ReapAll(s1, 0, words), k);
  }

  lemma {:induction false} RunBroken(r: nat, s: State, actions: seq<Action>, k: nat)
    requires Broken(s, k)
    ensures Broken(Run(r, s, actions), k)
    decreases |actions|
  {
    if actions == [] {
    } else {
      StepBroken(r, s, actions[0], k);
      RunBroken(r, Step(r, s, actions[0]), actions[1..], k);
    }
  }

  // ----- The exact conditions

  /** An unparsable task is announced in a slot that stays free, and the next job there breaks the chain. */
  lemma UnparsedTaskBreaksChain(r: nat, s: State, parses: bool, pids: Pids)
    requires Faithful(s) && FirstFree(s.table) < |s.table|
    ensures var k, s' := FirstFree(s.table), Step(r, s, Create(false, pids));
            Broken(s', k) && Trace(k, Step(r, s', Create(parses, pids)).log).None?
  {
    var k := FirstFree(s.table);
    var s1 := Enter(s, k, false);
    var s2 := Sweep(r, s1, pids);
    assert FaithfulAt(s, k);
    TraceTwo(k, s.log, Created(k), StatusChange(k, NEW, WAITING), s1.log);
    SweepSpares(r, s1, pids, k);
    AnnouncedTwice(r, s1, s2, parses, pids, k);
  }

  lemma AnnouncedTwice(r: nat, s1: State, s2: State, parses: bool, pids: Pids, k: nat)
    requires s2 == Sweep(r, s1, pids) && Has(s1, k) && !s1.table[k].occupied && FirstFree(s1.table) == k
    requires Trace(k, s2.log) == Some(Held(WAITING, Quiet, -1, false, None))
    ensures Trace(k, Step(r, s2, Create(parses, pids)).log).None?
  {
    forall n | 0 <= n < |s1.table| ensures s2.table[n].occupied == s1.table[n].occupied {
      SweepOccupies(r, s1, 0, 0, pids, n);
    }
    FirstFreeIs(s2.table, k);
    var s3 := Enter(s2, k, parses);
    TraceTwo(k, s2.log, Created(k), StatusChange(k, NEW, WAITING), s3.log);
    SweepSpares(r, s3, pids, k);
    BrokenForever(k, s3.log, Sweep(r, s3, pids).log);
  }

  lemma {:induction false} SweepOccupies(r: nat, s: State, i: nat, count: nat, pids: Pids, n: nat)
    requires i <= |s.table| && Has(s, n)
    ensures SweepFrom(r, s, i, count, pids).table[n].occupied == s.table[n].occupied
    decreases |s.table| - i
  {
    if i == |s.table| {
    } else {
      var j := s.table[i];
      if j.occupied && count < r && j.status == WAITING {
        SweepOccupies(r, Execute(s, i, pids(i)), i + 1, count + 1, pids, n);
      } else {
        SweepOccupies(r, s, i + 1, count + 1, pids, n);
        SweepOccupies(r, s, i + 1, count, pids, n);
      }
    }
  }

  lemma LossBreaks(r: nat, s: State, a: Action)
    requires Faithful(s) && Loses(s, a)
    ensures Broken(Step(r, s, a), FirstFree(s.table))
  {
    UnparsedTaskBreaksChain(r, s, true, a.pids);
  }

  /** A step keeps callbacks and table in agreement exactly when it does not lose a job. */
  lemma StepFaithfulExact(r: nat, s: State, a: Action)
    requires Faithful(s)
    ensures Faithful(Step(r, s, a)) <==> !Loses(s, a)
  {
    if Loses(s, a) {
      LossBreaks(r, s, a);
      BrokenUnfaithful(Step(r, s, a), FirstFree(s.table));
    } else {
      StepFaithful(r, s, a);
    }
  }

  /** No step of the run creates a job from an unparsable line while a slot is free. */
  predicate NothingLost(r: nat, s: State, actions: seq<Action>)
    decreases |actions|
  {
    actions == [] || (!Loses(s, actions[0]) && NothingLost(r, Step(r, s, actions[0]), actions[1..]))
  }

  lemma {:induction false} RunFaithfulFrom(r: nat, s: State, actions: seq<Action>)
    requires Faithful(s)
    ensures Faithful(Run(r, s, actions)) <==> NothingLost(r, s, actions)
    decreases |actions|
  {
    if actions == [] {
    } else if Loses(s, actions[0]) {
      LossBreaks(r, s, actions[0]);
      RunBroken(r, Step(r, s, actions[0]), actions[1..], FirstFree(s.table));
      BrokenUnfaithful(Run(r, s, actions), FirstFree(s.table));
    } else {
      StepFaithful(r, s, actions[0]);
      RunFaithfulFrom(r, Step(r, s, actions[0]), actions[1..]);
    }
  }

  /**
   * Main result: every slot's callbacks follow the life cycle - an unbroken chain of status changes from NEW, at most
   * one start, at most one end and only after a start, every end, stop and continuation followed by the change it
   * stands for, expunge only of a finished job - and give status, process group, cancel flag and end of the job in the
   * slot, exactly in the runs that never lose a job; a run that does never recovers.
   */
  lemma RunFaithfulExact(r: nat, maxJobs: nat, actions: seq<Action>)
    ensures Faithful(Run(r, Init(maxJobs), actions)) <==> NothingLost(r, Init(maxJobs), actions)
  {
    RunFaithfulFrom(r, Init(maxJobs), actions);
  }

  /** Runs whose tasks all parse lose nothing. */
  lemma {:induction false} RunFaithful(r: nat, s: State, actions: seq<Action>)
    requires Faithful(s) && forall i | 0 <= i < |actions| && actions[i].Create? :: actions[i].parses
    ensures NothingLost(r, s, actions) && Faithful(Run(r, s, actions))
    decreases |actions|
  {
    if actions == [] {
    } else {
      StepFaithful(r, s, actions[0]);
      RunFaithful(r, Step(r, s, actions[0]), actions[1..]);
    }
  }
}
