/** hw4: the callbacks of every run, slot by slot, follow the life cycle of a job. */
module JobLog {
  import opened Wrappers
  import opened Jobs
  import opened JobScheduling

  /**
   * What a callback leads to: after its status has become RUNNING a job gets its start callback, and an end, a stop
   * or a continuation is followed by a change to one particular status.
   */
  datatype News = Quiet | Starting | Announced(status: Status)

  /** What the callbacks so far say about one slot; `result` is the status word of the job's end. */
  datatype Phase = Free | Held(status: Status, news: News, pgid: int, canceled: bool, result: Option<int>)

  /** A normal exit is the end of a completed job, a fatal signal that of an aborted one. */
  function EndStatus(w: int): Status {
    if w % 128 == 0 then COMPLETED else ABORTED
  }

  predicate IsEnd(w: int) {
    w % 128 != 127
  }

  /** The status changes a job may report; nothing leaves COMPLETED or ABORTED. */
  predicate MayChange(p: Phase, after: Status)
    requires p.Held?
  {
    match p.news
    case Starting => false
    case Announced(status) => after == status
    case Quiet =>
      match p.status
      case NEW => after == WAITING
      case WAITING => after == RUNNING || after == ABORTED
      case RUNNING => after == CANCELED
      case PAUSED => after == CANCELED
      case _ => false
  }

  /** The only ways to ABORTED and CANCELED that no report of the runner leads to are cancellations. */
  function Changed(p: Phase, after: Status): Phase
    requires p.Held?
  {
    Held(after, if p.status == WAITING && after == RUNNING then Starting else Quiet, p.pgid,
         p.canceled || (p.news.Quiet? && (after == ABORTED || after == CANCELED)), p.result)
  }

  /** The job has a runner, of this process group, and nothing is announced. */
  predicate Runs(p: Phase, pgid: int) {
    p.Held? && p.news.Quiet? && (p.status == RUNNING || p.status == PAUSED || p.status == CANCELED) && p.pgid == pgid
  }

  /** One callback seen by slot `i`; None when it breaks the life cycle. */
  function Observe(p: Phase, i: nat, e: Event): Option<Phase> {
    if e.id != i then Some(p)
    else
      match e
      case Created(_) => if p.Free? then Some(Held(NEW, Quiet, -1, false, None)) else None
      case StatusChange(_, before, after) =>
        if p.Held? && p.status == before && MayChange(p, after) then Some(Changed(p, after)) else None
      case Started(_, pgid) => if p.Held? && p.news.Starting? then Some(p.(news := Quiet, pgid := pgid)) else None
      case Ended(_, pgid, w) =>
        if Runs(p, pgid) && IsEnd(w) then Some(p.(news := Announced(EndStatus(w)), result := Some(w))) else None
      case Paused(_, pgid) => if Runs(p, pgid) then Some(p.(news := Announced(PAUSED))) else None
      case Resumed(_, pgid) => if Runs(p, pgid) then Some(p.(news := Announced(RUNNING))) else None
      case Expunged(_) =>
        if p.Held? && p.news.Quiet? && (p.status == COMPLETED || p.status == ABORTED) then Some(Free) else None
  }

  function Trace(i: nat, log: seq<Event>): Option<Phase>
    decreases |log|
  {
    if log == [] then Some(Free)
    else
      var p :- Trace(i, log[..|log| - 1]);
      Observe(p, i, log[|log| - 1])
  }

  lemma TraceNext(i: nat, log: seq<Event>, e: Event)
    ensures Trace(i, log + [e]) == if Trace(i, log).None? then None else Observe(Trace(i, log).value, i, e)
  {
    assert (log + [e])[..|log|] == log;
  }

  /** The callbacks give everything the table knows about the job. */
  predicate Matches(p: Phase, j: Job) {
    if !j.occupied then p == Free
    else
      p.Held? && p.news.Quiet? && p.status == j.status && p.pgid == j.pgid && p.canceled == j.canceled &&
      match j.status
      case NEW => false
      case WAITING => p.pgid == -1 && !p.canceled && p.result.None?
      case COMPLETED => p.result == Some(j.exitStatus) && j.exitStatus % 128 == 0
      case ABORTED =>
        if p.result.None? then p.canceled && p.pgid == -1
        else p.result == Some(j.exitStatus) && 1 <= j.exitStatus % 128 <= 126
      case CANCELED => p.canceled && p.result.None?
      case _ => p.result.None?
  }

  predicate FaithfulAt(s: State, i: nat)
    requires i < |s.table|
  {
    Trace(i, s.log).Some? && Matches(Trace(i, s.log).value, s.table[i])
  }

  predicate Faithful(s: State) {
    forall i | 0 <= i < |s.table| :: FaithfulAt(s, i)
  }

  lemma TraceTwo(i: nat, log: seq<Event>, e: Event, f: Event, log': seq<Event>)
    requires Trace(i, log).Some? && log' == log + [e] + [f]
    ensures Trace(i, log') ==
      match Observe(Trace(i, log).value, i, e)
      case None => None
      case Some(p) => Observe(p, i, f)
  {
    TraceNext(i, log, e);
    TraceNext(i, log + [e], f);
  }

  lemma ExecuteFaithful(s: State, i: nat, pid: int)
    requires Faithful(s) && Has(s, i) && Waiting(s.table[i])
    ensures Faithful(Execute(s, i, pid))
  {
    var s' := Execute(s, i, pid);
    forall k | 0 <= k < |s.table| ensures FaithfulAt(s', k) {
      assert FaithfulAt(s, k);
      TraceTwo(k, s.log, StatusChange(i, WAITING, RUNNING), Started(i, pid), s'.log);
    }
  }

  lemma ProcessFaithful(s: State, i: nat, w: int)
    requires Faithful(s) && Has(s, i) && HasRunner(s.table[i])
    ensures Faithful(Process(s, i, w))
  {
    var s', pgid := Process(s, i, w), s.table[i].pgid;
    if s' == s {
    } else if w % 128 == 0 {
      RunnerFaithful(s, i, s', Ended(i, pgid, w), COMPLETED);
    } else if w % 128 != 127 {
      RunnerFaithful(s, i, s', Ended(i, pgid, w), ABORTED);
    } else if w % 256 == 127 {
      RunnerFaithful(s, i, s', Paused(i, pgid), PAUSED);
    } else {
      RunnerFaithful(s, i, s', Resumed(i, pgid), RUNNING);
    }
  }

  /** The status that a report of the runner leads to. */
  predicate LeadsTo(e: Event, status: Status) {
    match e
    case Ended(_, _, w) => IsEnd(w) && status == EndStatus(w)
    case Paused(_, _) => status == PAUSED
    case Resumed(_, _) => status == RUNNING
    case _ => false
  }

  lemma RunnerFaithful(s: State, i: nat, s': State, e: Event, status: Status)
    requires Faithful(s) && Has(s, i) && HasRunner(s.table[i]) && |s'.table| == |s.table|
    requires LeadsTo(e, status) && e.id == i && e.pgid == s.table[i].pgid
    requires s'.log == s.log + [e] + [StatusChange(i, s.table[i].status, status)]
    requires s'.table[i] ==
             s.table[i].(status := status, exitStatus := if e.Ended? then e.result else s.table[i].exitStatus)
    requires forall k | 0 <= k < |s.table| && k != i :: s'.table[k] == s.table[k]
    ensures Faithful(s')
  {
    forall k | 0 <= k < |s.table| ensures FaithfulAt(s', k) {
      assert FaithfulAt(s, k);
      TraceTwo(k, s.log, e, StatusChange(i, s.table[i].status, status), s'.log);
    }
  }

  lemma EnterFaithful(s: State, k: nat)
    requires Faithful(s) && Has(s, k) && !s.table[k].occupied
    ensures Faithful(Enter(s, k, true))
  {
    var s' := Enter(s, k, true);
    forall i | 0 <= i < |s.table| ensures FaithfulAt(s', i) {
      assert FaithfulAt(s, i);
      TraceTwo(i, s.log, Created(k), StatusChange(k, NEW, WAITING), s'.log);
    }
  }

  lemma ExpungeFaithful(s: State, id: int)
    requires Faithful(s)
    ensures Faithful(ExpungeJob(s, id))
  {
    if CanExpunge(s, id) {
      forall k | 0 <= k < |s.table| ensures FaithfulAt(ExpungeJob(s, id), k) {
        assert FaithfulAt(s, k);
        TraceNext(k, s.log, Expunged(id));
      }
    }
  }

  lemma CancelFaithful(s: State, id: int, killed: bool)
    requires Faithful(s)
    ensures Faithful(CancelJob(s, id, killed))
  {
    if CanCancel(s, id) && killed {
      var s' := CancelJob(s, id, killed);
      forall k | 0 <= k < |s.table| ensures FaithfulAt(s', k) {
        assert FaithfulAt(s, k);
        TraceNext(k, s.log, s'.log[|s.log|]);
      }
    }
  }

  lemma {:induction false} SweepFromFaithful(r: nat, s: State, i: nat, count: nat, pids: Pids)
    requires Faithful(s) && i <= |s.table|
    ensures Faithful(SweepFrom(r, s, i, count, pids))
    decreases |s.table| - i
  {
    if i == |s.table| {
    } else {
      var j := s.table[i];
      if j.occupied && count < r && j.status == WAITING {
        ExecuteFaithful(s, i, pids(i));
        SweepFromFaithful(r, Execute(s, i, pids(i)), i + 1, count + 1, pids);
      } else {
        SweepFromFaithful(r, s, i + 1, count + 1, pids);
        SweepFromFaithful(r, s, i + 1, count, pids);
      }
    }
  }

  lemma {:induction false} ReportsFaithful(s: State, i: nat, words: Words)
    requires Faithful(s) && i <= |s.table|
    ensures Faithful(ReportsFrom(s, i, words))
    decreases |s.table| - i
  {
    if i == |s.table| {
    } else {
      if HasRunner(s.table[i]) {
        ProcessFaithful(s, i, words(i));
        ReportsFaithful(Process(s, i, words(i)), i + 1, words);
      } else {
        ReportsFaithful(s, i + 1, words);
      }
    }
  }

  lemma {:induction false} CancelAllFaithful(s: State, i: nat, kills: nat -> bool)
    requires Faithful(s) && i <= |s.table|
    ensures Faithful(CancelAll(s, i, kills))
    decreases |s.table| - i
  {
    if i == |s.table| {
    } else {
      CancelFaithful(s, i, kills(i));
      CancelAllFaithful(CancelJob(s, i, kills(i)), i + 1, kills);
    }
  }

  lemma {:induction false} ReapAllFaithful(s: State, i: nat, words: Words)
    requires Faithful(s) && i <= |s.table|
    ensures Faithful(ReapAll(s, i, words))
    decreases |s.table| - i
  {
    if i == |s.table| {
    } else {
      var s1 := if HasRunner(s.table[i]) then Process(s, i, Awaited(words(i))) else s;
      if HasRunner(s.table[i]) {
        ProcessFaithful(s, i, Awaited(words(i)));
      }
      ExpungeFaithful(s1, i);
      ReapAllFaithful(ExpungeJob(s1, i), i + 1, words);
    }
  }

  /** A task that does not parse is entered into a free slot, which it leaves free. */
  predicate Loses(s: State, a: Action) {
    a.Create? && !a.parses && FirstFree(s.table) < |s.table|
  }

  lemma StepFaithful(r: nat, s: State, a: Action)
    requires Faithful(s) && !Loses(s, a)
    ensures Faithful(Step(r, s, a))
  {
    match a
    case Enable(value, pids) =>
      forall i | 0 <= i < |s.table| ensures FaithfulAt(s.(enabled := value), i) {
        assert FaithfulAt(s, i);
      }
      SweepFromFaithful(r, s.(enabled := value), 0, 0, pids);
    case Create(parses, pids) =>
      var k := FirstFree(s.table);
      if k < |s.table| {
        EnterFaithful(s, k);
        SweepFromFaithful(r, Enter(s, k, true), 0, 0, pids);
      }
    case Expunge(id) =>
      ExpungeFaithful(s, id);
    case Cancel(id, killed) =>
      CancelFaithful(s, id, killed);
    case Pause(_, _) =>
    case Resume(_, _) =>
    case Child(words, pids) =>
      ReportsFaithful(s, 0, words);
      SweepFromFaithful(r, ReportsFrom(s, 0, words), 0, 0, pids);
    case Finish(kills, words) =>
      CancelAllFaithful(s, 0, kills);
      ReapAllFaithful(CancelAll(s, 0, kills), 0, words);
  }
}
